/**
 * The ordering of comparison rows shared by the tables: the sort field and
 * direction, the comparator handed to `Array.prototype.sort`, the sort
 * itself (stable, as ECMAScript requires), and the filter-then-sort step
 * each table recomputes.
 *
 * `localeCompare` is modelled by ordinal comparison of characters (code points),
 * one fixed total order; the locale's collation is not part of this model.
 */
module RowOrder {
  import opened Wrappers
  import opened Seqs
  import opened Types

  datatype SortField = Awb | JasterField | CisField | UnifikasiField
  datatype SortDirection = Asc | Desc

  function Toggle(d: SortDirection): SortDirection {
    if d == Asc then Desc else Asc
  }

  // ---------------------------------------------------------------------------
  // localeCompare

  /** `a.localeCompare(b)` as ordinal comparison: negative, zero or positive. */
  function LocaleCompare(a: string, b: string): (r: int)
    ensures -1 <= r <= 1
  {
    if a == [] && b == [] then 0
    else if a == [] then -1
    else if b == [] then 1
    else if a[0] < b[0] then -1
    else if a[0] > b[0] then 1
    else LocaleCompare(a[1..], b[1..])
  }

  lemma {:induction false} LocaleCompareZeroIffEqual(a: string, b: string)
    ensures LocaleCompare(a, b) == 0 <==> a == b
  {
    if a != [] && b != [] && a[0] == b[0] {
      LocaleCompareZeroIffEqual(a[1..], b[1..]);
      assert a == [a[0]] + a[1..] && b == [b[0]] + b[1..];
    }
  }

  lemma {:induction false} LocaleCompareAntisymmetric(a: string, b: string)
    ensures LocaleCompare(a, b) == -LocaleCompare(b, a)
  {
    if a != [] && b != [] && a[0] == b[0] {
      LocaleCompareAntisymmetric(a[1..], b[1..]);
    }
  }

  lemma {:induction false} LocaleCompareTransitive(a: string, b: string, c: string)
    requires LocaleCompare(a, b) <= 0 && LocaleCompare(b, c) <= 0
    ensures LocaleCompare(a, c) <= 0
  {
    if a != [] && b != [] && c != [] && a[0] == b[0] && b[0] == c[0] {
      LocaleCompareTransitive(a[1..], b[1..], c[1..]);
    }
  }

  // ---------------------------------------------------------------------------
  // The comparator

  /** `row.xWeight ?? -1`: a null weight sorts as -1. */
  function WeightKey(row: ComparisonRow, field: SortField): real {
    var w := match field
      case JasterField => row.jasterWeight
      case CisField => row.cisWeight
      case UnifikasiField => row.unifikasiWeight
      case Awb => None;
    if w.Some? then w.value else -1.0
  }

  /**
   * The sort callback: `localeCompare` on the AWBs, or the difference of the
   * weight keys, with the operands in the order the direction puts them.
   * (The `=== null` checks of the callback can never fire: every key is a
   * string or a number.)
   */
  function Compare(a: ComparisonRow, b: ComparisonRow, field: SortField, dir: SortDirection): real {
    if field == Awb then
      if dir == Asc then LocaleCompare(a.awb, b.awb) as real else LocaleCompare(b.awb, a.awb) as real
    else
      var aVal, bVal := WeightKey(a, field), WeightKey(b, field);
      if dir == Asc then aVal - bVal else bVal - aVal
  }

  /** Descending is ascending with the operands swapped. */
  lemma DescIsSwappedAsc(a: ComparisonRow, b: ComparisonRow, field: SortField)
    ensures Compare(a, b, field, Desc) == Compare(b, a, field, Asc)
  {
  }

  lemma CompareAntisymmetric(a: ComparisonRow, b: ComparisonRow, field: SortField, dir: SortDirection)
    ensures Compare(a, b, field, dir) == -Compare(b, a, field, dir)
  {
    LocaleCompareAntisymmetric(a.awb, b.awb);
  }

  lemma CompareTransitive(a: ComparisonRow, b: ComparisonRow, c: ComparisonRow, field: SortField, dir: SortDirection)
    requires Compare(a, b, field, dir) <= 0.0 && Compare(b, c, field, dir) <= 0.0
    ensures Compare(a, c, field, dir) <= 0.0
  {
    if field == Awb {
      if dir == Asc {
        LocaleCompareTransitive(a.awb, b.awb, c.awb);
      } else {
        LocaleCompareTransitive(c.awb, b.awb, a.awb);
      }
    }
  }

  /** Rows compare equal by AWB exactly when their AWBs are equal. */
  lemma AwbCompareZeroIffSameAwb(a: ComparisonRow, b: ComparisonRow, dir: SortDirection)
    ensures Compare(a, b, Awb, dir) == 0.0 <==> a.awb == b.awb
  {
    LocaleCompareZeroIffEqual(a.awb, b.awb);
    LocaleCompareZeroIffEqual(b.awb, a.awb);
  }

  // ---------------------------------------------------------------------------
  // Sorting

  /** Ordered by the comparator: no pair of rows is out of order. */
  predicate Sorted(s: seq<ComparisonRow>, field: SortField, dir: SortDirection) {
    forall i, j :: 0 <= i < j < |s| ==> Compare(s[i], s[j], field, dir) <= 0.0
  }

  /** Inserts `x` after every row that does not compare greater than it. */
  function Insert(x: ComparisonRow, s: seq<ComparisonRow>, field: SortField, dir: SortDirection): (r: seq<ComparisonRow>)
    ensures multiset(r) == multiset(s) + multiset{x}
    ensures |r| == |s| + 1
  {
    if s == [] then [x]
    else if Compare(s[0], x, field, dir) > 0.0 then [x] + s
    else
      assert s == [s[0]] + s[1..];
      [s[0]] + Insert(x, s[1..], field, dir)
  }

  /** The result of `Array.prototype.sort` with the comparator: a stable insertion sort. */
  function Sort(s: seq<ComparisonRow>, field: SortField, dir: SortDirection): (r: seq<ComparisonRow>)
    ensures multiset(r) == multiset(s)
    ensures |r| == |s|
  {
    if s == [] then []
    else
      assert s == s[..|s| - 1] + [s[|s| - 1]];
      Insert(s[|s| - 1], Sort(s[..|s| - 1], field, dir), field, dir)
  }

  /** A row ahead of a sorted run that compares at most every row of it keeps the run sorted. */
  lemma ConsSorted(h: ComparisonRow, rest: seq<ComparisonRow>, field: SortField, dir: SortDirection)
    requires Sorted(rest, field, dir)
    requires forall k :: 0 <= k < |rest| ==> Compare(h, rest[k], field, dir) <= 0.0
    ensures Sorted([h] + rest, field, dir)
  {
    var r := [h] + rest;
    forall i, j | 0 <= i < j < |r|
      ensures Compare(r[i], r[j], field, dir) <= 0.0
    {
      assert r[j] == rest[j - 1];
      if i > 0 {
        assert r[i] == rest[i - 1];
      }
    }
  }

  /** A row that compares at most `x` and every row of `s` compares at most every row of `Insert(x, s)`. */
  lemma InsertBelow(h: ComparisonRow, x: ComparisonRow, s: seq<ComparisonRow>, field: SortField, dir: SortDirection)
    requires Compare(h, x, field, dir) <= 0.0
    requires forall j :: 0 <= j < |s| ==> Compare(h, s[j], field, dir) <= 0.0
    ensures forall k :: 0 <= k < |Insert(x, s, field, dir)| ==> Compare(h, Insert(x, s, field, dir)[k], field, dir) <= 0.0
  {
    var r := Insert(x, s, field, dir);
    forall k | 0 <= k < |r|
      ensures Compare(h, r[k], field, dir) <= 0.0
    {
      assert r[k] in multiset(r);
      if r[k] != x {
        assert r[k] in multiset(s);
        var j :| 0 <= j < |s| && s[j] == r[k];
      }
    }
  }

  lemma {:induction false} InsertSorted(x: ComparisonRow, s: seq<ComparisonRow>, field: SortField, dir: SortDirection)
    requires Sorted(s, field, dir)
    ensures Sorted(Insert(x, s, field, dir), field, dir)
  {
    if s == [] {
    } else if Compare(s[0], x, field, dir) > 0.0 {
      CompareAntisymmetric(s[0], x, field, dir);
      forall j | 0 <= j < |s|
        ensures Compare(x, s[j], field, dir) <= 0.0
      {
        if j > 0 {
          CompareTransitive(x, s[0], s[j], field, dir);
        }
      }
      ConsSorted(x, s, field, dir);
    } else {
      var tail := s[1..];
      assert forall j :: 0 <= j < |tail| ==> Compare(s[0], tail[j], field, dir) <= 0.0 by {
        forall j | 0 <= j < |tail|
          ensures Compare(s[0], tail[j], field, dir) <= 0.0
        {
          assert tail[j] == s[j + 1];
        }
      }
      assert Sorted(tail, field, dir) by {
        forall i, j | 0 <= i < j < |tail|
          ensures Compare(tail[i], tail[j], field, dir) <= 0.0
        {
          assert tail[i] == s[i + 1] && tail[j] == s[j + 1];
        }
      }
      InsertSorted(x, tail, field, dir);
      InsertBelow(s[0], x, tail, field, dir);
      ConsSorted(s[0], Insert(x, tail, field, dir), field, dir);
    }
  }

  /** `Sort` orders the rows by the comparator and is a permutation of them. */
  lemma {:induction false} SortSorted(s: seq<ComparisonRow>, field: SortField, dir: SortDirection)
    ensures Sorted(Sort(s, field, dir), field, dir)
    ensures multiset(Sort(s, field, dir)) == multiset(s)
  {
    if s != [] {
      SortSorted(s[..|s| - 1], field, dir);
      InsertSorted(s[|s| - 1], Sort(s[..|s| - 1], field, dir), field, dir);
    }
  }

  /** `array.sort(comparator)`: reorders the array in place. */
  method SortInPlace(a: array<ComparisonRow>, field: SortField, dir: SortDirection)
    modifies a
    ensures a[..] == Sort(old(a[..]), field, dir)
  {
    var sorted := Sort(a[..], field, dir);
    forall i | 0 <= i < a.Length {
      a[i] := sorted[i];
    }
  }

  // ---------------------------------------------------------------------------
  // Filter, then sort

  /** One optional filter step: `None` when the table skips it. */
  function Narrow(rows: seq<ComparisonRow>, keep: Option<ComparisonRow -> bool>): seq<ComparisonRow> {
    if keep.None? then rows else Filter(rows, keep.value)
  }

  /** A fresh array holding `s`, as `Array.prototype.filter` returns. */
  method NewArray(s: seq<ComparisonRow>) returns (a: array<ComparisonRow>)
    ensures fresh(a) && a[..] == s
  {
    a := new ComparisonRow[|s|](i requires 0 <= i < |s| => s[i]);
  }

  /**
   * The memoised computation of a table: `filtered` starts as the caller's
   * `rows`, each applied filter replaces it by a fresh array, and the final
   * `filtered.sort(...)` sorts in place. With neither filter applied, the
   * caller's array itself is sorted and returned.
   */
  method FilterThenSort(rows: array<ComparisonRow>, search: Option<ComparisonRow -> bool>, keep: Option<ComparisonRow -> bool>,
                        field: SortField, dir: SortDirection)
    returns (filtered: array<ComparisonRow>)
    modifies rows
    ensures filtered[..] == Sort(Narrow(Narrow(old(rows[..]), search), keep), field, dir)
    ensures search.None? && keep.None? ==> filtered == rows
    ensures !(search.None? && keep.None?) ==> fresh(filtered) && rows[..] == old(rows[..])
  {
    filtered := rows;
    if search.Some? {
      filtered := NewArray(Filter(filtered[..], search.value));
    }
    if keep.Some? {
      filtered := NewArray(Filter(filtered[..], keep.value));
    }
    SortInPlace(filtered, field, dir);
  }
}
