/**
 * Sequence and string helpers that stand for the JavaScript built-ins the
 * application uses: `Array.prototype.filter`, `Array.prototype.join`,
 * the insertion order of `Set` and `Map` keys, `String.prototype.toLowerCase`,
 * `trim` and `includes`, and `Number.prototype.toString` on counts.
 * String operations are restricted to ASCII.
 */
module Seqs {

  // ---------------------------------------------------------------------------
  // filter

  /** `s.filter(p)`: the elements of `s` that satisfy `p`, in their original order. */
  function Filter<T(!new)>(s: seq<T>, p: T -> bool): (r: seq<T>)
    ensures |r| <= |s|
    ensures forall i :: 0 <= i < |r| ==> p(r[i])
    ensures forall x :: x in r <==> x in s && p(x)
  {
    if s == [] then [] else (if p(s[0]) then [s[0]] else []) + Filter(s[1..], p)
  }

  /** Filtering a non-empty sequence: its first element, if kept, then the filtered rest. */
  lemma FilterFirst<T(!new)>(s: seq<T>, p: T -> bool)
    requires s != []
    ensures Filter(s, p) == (if p(s[0]) then [s[0]] else []) + Filter(s[1..], p)
  {
  }

  /** Filtering a four-element sequence keeps each element exactly when it satisfies `p`, in order. */
  lemma FilterOfFour<T(!new)>(a: T, b: T, c: T, d: T, p: T -> bool)
    ensures Filter([a, b, c, d], p)
         == (if p(a) then [a] else []) + (if p(b) then [b] else []) + (if p(c) then [c] else []) + (if p(d) then [d] else [])
  {
    var s1: seq<T> := [a];
    var s2: seq<T> := [a, b];
    var s3: seq<T> := [a, b, c];
    assert s1[1..] == [] && s2 == s1 + [b] && s3 == s2 + [c] && [a, b, c, d] == s3 + [d];
    var ka, kb, kc, kd := (if p(a) then [a] else []), (if p(b) then [b] else []), (if p(c) then [c] else []), (if p(d) then [d] else []);
    FilterFirst(s1, p);
    assert Filter(s1, p) == ka;
    FilterSnoc(s1, b, p);
    assert Filter(s2, p) == ka + kb;
    FilterSnoc(s2, c, p);
    assert Filter(s3, p) == ka + kb + kc;
    FilterSnoc(s3, d, p);
  }

  /** A non-empty sequence is its prefix followed by its last element. */
  lemma SplitLast<T>(s: seq<T>)
    requires s != []
    ensures s == s[..|s| - 1] + [s[|s| - 1]]
  {
  }

  /** Appending `b` and then one more element is appending `b + [e]`. */
  lemma AppendSnoc<T>(a: seq<T>, b: seq<T>, e: T)
    ensures a + (b + [e]) == (a + b) + [e]
  {
  }

  /** Two adjacent slices from the start make one. */
  lemma PrefixThenSlice<T>(s: seq<T>, lo: nat, hi: nat)
    requires lo <= hi <= |s|
    ensures s[..lo] + s[lo..hi] == s[..hi]
  {
  }

  /** Filtering distributes over concatenation, so the kept elements stay in input order. */
  lemma {:induction false} FilterConcat<T(!new)>(s: seq<T>, t: seq<T>, p: T -> bool)
    ensures Filter(s + t, p) == Filter(s, p) + Filter(t, p)
  {
    if s == [] {
      assert s + t == t;
    } else {
      assert (s + t)[1..] == s[1..] + t;
      FilterConcat(s[1..], t, p);
    }
  }

  /** Filtering a sequence extended by one element. */
  lemma FilterSnoc<T(!new)>(s: seq<T>, x: T, p: T -> bool)
    ensures Filter(s + [x], p) == Filter(s, p) + (if p(x) then [x] else [])
  {
    FilterConcat(s, [x], p);
    assert [x][1..] == [];
  }

  /** A filter and its complement split the elements between them. */
  lemma {:induction false} FilterComplement<T(!new)>(s: seq<T>, p: T -> bool, q: T -> bool)
    requires forall x :: q(x) == !p(x)
    ensures |Filter(s, p)| + |Filter(s, q)| == |s|
  {
    if s != [] {
      FilterComplement(s[1..], p, q);
    }
  }

  /** A filter that keeps every element is the identity. */
  lemma {:induction false} FilterAll<T(!new)>(s: seq<T>, p: T -> bool)
    requires forall i :: 0 <= i < |s| ==> p(s[i])
    ensures Filter(s, p) == s
  {
    if s != [] {
      FilterAll(s[1..], p);
    }
  }

  /** A filter that keeps nothing of `s` is empty. */
  lemma {:induction false} FilterNone<T(!new)>(s: seq<T>, p: T -> bool)
    requires forall i :: 0 <= i < |s| ==> !p(s[i])
    ensures Filter(s, p) == []
  {
    if s != [] {
      FilterNone(s[1..], p);
    }
  }

  /** Filters whose predicates agree on the elements of `s` keep the same elements. */
  lemma {:induction false} FilterCongruent<T(!new)>(s: seq<T>, p: T -> bool, q: T -> bool)
    requires forall i :: 0 <= i < |s| ==> p(s[i]) == q(s[i])
    ensures Filter(s, p) == Filter(s, q)
  {
    if s != [] {
      FilterCongruent(s[1..], p, q);
    }
  }

  // ---------------------------------------------------------------------------
  // map

  /** `s.map(f)`: `f` applied to each element, in order. */
  function Map<T, U>(s: seq<T>, f: T -> U): (r: seq<U>)
    ensures |r| == |s|
    ensures forall i :: 0 <= i < |s| ==> r[i] == f(s[i])
  {
    if s == [] then [] else [f(s[0])] + Map(s[1..], f)
  }

  /** Mapping distributes over concatenation. */
  lemma {:induction false} MapConcat<T, U>(s: seq<T>, t: seq<T>, f: T -> U)
    ensures Map(s + t, f) == Map(s, f) + Map(t, f)
  {
    if s == [] {
      assert s + t == t;
    } else {
      assert (s + t)[0] == s[0];
      assert (s + t)[1..] == s[1..] + t;
      MapConcat(s[1..], t, f);
      assert Map(s + t, f) == [f(s[0])] + (Map(s[1..], f) + Map(t, f));
    }
  }

  // ---------------------------------------------------------------------------
  // distinct elements and first-insertion order

  predicate Distinct<T(==,!new)>(s: seq<T>) {
    forall i, j :: 0 <= i < j < |s| ==> s[i] != s[j]
  }

  /**
   * The iteration order of a JavaScript `Set`, or of the keys of a `Map`, built
   * by inserting the elements of `s` from left to right: each distinct element
   * once, at the position of its first insertion.
   */
  function Dedup<T(==,!new)>(s: seq<T>): (r: seq<T>)
    ensures |r| <= |s|
    ensures Distinct(r)
    ensures forall x :: x in r <==> x in s
  {
    if s == [] then []
    else
      assert s == s[..|s| - 1] + [s[|s| - 1]];
      var p := Dedup(s[..|s| - 1]);
      if s[|s| - 1] in p then p else p + [s[|s| - 1]]
  }

  /** One insertion: a new element goes to the end, a known one changes nothing. */
  lemma DedupSnoc<T(!new)>(s: seq<T>, e: T)
    ensures Dedup(s + [e]) == if e in Dedup(s) then Dedup(s) else Dedup(s) + [e]
  {
    assert (s + [e])[..|s + [e]| - 1] == s;
  }

  lemma {:induction false} DedupOfDistinct<T(!new)>(s: seq<T>)
    requires Distinct(s)
    ensures Dedup(s) == s
  {
    if s != [] {
      var q, e := s[..|s| - 1], s[|s| - 1];
      assert s == q + [e];
      DedupOfDistinct(q);
      DedupSnoc(q, e);
      assert forall k :: 0 <= k < |q| ==> q[k] != e by {
        forall k | 0 <= k < |q| ensures q[k] != e { assert q[k] == s[k]; }
      }
    }
  }

  /** Collapsing a prefix first does not change the insertion order. */
  lemma {:induction false} DedupAbsorbLeft<T(!new)>(x: seq<T>, y: seq<T>)
    ensures Dedup(Dedup(x) + y) == Dedup(x + y)
  {
    var dx := Dedup(x);
    if y == [] {
      assert dx + y == dx && x + y == x;
      DedupOfDistinct(dx);
    } else {
      var y', e := y[..|y| - 1], y[|y| - 1];
      SplitLast(y);
      AppendSnoc(dx, y', e);
      AppendSnoc(x, y', e);
      DedupAbsorbLeft(x, y');
      DedupSnoc(dx + y', e);
      DedupSnoc(x + y', e);
    }
  }

  /** Collapsing a suffix first does not change the insertion order either. */
  lemma {:induction false} DedupAbsorbRight<T(!new)>(x: seq<T>, y: seq<T>)
    ensures Dedup(x + Dedup(y)) == Dedup(x + y)
  {
    if y != [] {
      var y', e := y[..|y| - 1], y[|y| - 1];
      SplitLast(y);
      AppendSnoc(x, y', e);
      DedupSnoc(y', e);
      DedupAbsorbRight(x, y');
      DedupSnoc(x + y', e);
      if e !in Dedup(y') {
        AppendSnoc(x, Dedup(y'), e);
        DedupSnoc(x + Dedup(y'), e);
      } else {
        assert e in x + y';
      }
    }
  }

  /**
   * A set built from the key lists of three maps, each itself built by
   * insertion, has the insertion order of the three input lists concatenated.
   */
  lemma {:induction false} DedupOfThree<T(!new)>(a: seq<T>, b: seq<T>, c: seq<T>)
    ensures Dedup(Dedup(a) + Dedup(b) + Dedup(c)) == Dedup(a + b + c)
  {
    var da, db, dc := Dedup(a), Dedup(b), Dedup(c);
    calc {
      Dedup(da + db + dc);
      { DedupAbsorbRight(da + db, c); }
      Dedup(da + db + c);
      { assert da + db + c == da + (db + c); }
      Dedup(da + (db + c));
      { DedupAbsorbLeft(a, db + c); }
      Dedup(a + (db + c));
      { assert a + (db + c) == (a + db) + c; }
      Dedup((a + db) + c);
      { DedupAbsorbLeft(a + db, c); }
      Dedup(Dedup(a + db) + c);
      { DedupAbsorbRight(a, b); }
      Dedup(Dedup(a + b) + c);
      { DedupAbsorbLeft(a + b, c); }
      Dedup(a + b + c);
    }
  }

  /** Sequences with the same multiset of elements have the same members. */
  lemma SameMembers<T>(a: seq<T>, b: seq<T>)
    requires multiset(a) == multiset(b)
    ensures forall x :: x in a <==> x in b
  {
    forall x
      ensures x in a <==> x in b
    {
      assert x in a <==> x in multiset(a);
      assert x in b <==> x in multiset(b);
    }
  }

  /** The index of the first element of `s` that satisfies `p`, or `|s|` when none does. */
  function FirstWhere<T>(s: seq<T>, p: T -> bool): (i: nat)
    ensures i <= |s|
    ensures i < |s| ==> p(s[i])
    ensures forall j :: 0 <= j < i ==> !p(s[j])
  {
    if s == [] || p(s[0]) then 0
    else
      var rest := FirstWhere(s[1..], p);
      assert forall j :: 1 <= j < 1 + rest ==> s[j] == s[1..][j - 1];
      1 + rest
  }

  /** The index of the first occurrence of `x` in `s`. */
  function FirstIndex<T(==,!new)>(s: seq<T>, x: T): (i: nat)
    requires x in s
    ensures i < |s| && s[i] == x && x !in s[..i]
  {
    if s[0] == x then 0
    else
      assert s == [s[0]] + s[1..];
      var k := FirstIndex(s[1..], x);
      assert s[..k + 1] == [s[0]] + s[1..][..k];
      1 + k
  }

  lemma FirstIndexUnique<T(!new)>(s: seq<T>, x: T, i: nat)
    requires i < |s| && s[i] == x && x !in s[..i]
    ensures FirstIndex(s, x) == i
  {
    var k := FirstIndex(s, x);
    assert forall m :: 0 <= m < k ==> s[m] != x by {
      forall m | 0 <= m < k ensures s[m] != x { assert s[..k][m] == s[m]; }
    }
    assert forall m :: 0 <= m < i ==> s[m] != x by {
      forall m | 0 <= m < i ensures s[m] != x { assert s[..i][m] == s[m]; }
    }
  }

  lemma FirstIndexPrefix<T(!new)>(a: seq<T>, b: seq<T>, x: T)
    requires x in a
    ensures FirstIndex(a + b, x) == FirstIndex(a, x)
  {
    var k := FirstIndex(a, x);
    assert (a + b)[..k] == a[..k];
    FirstIndexUnique(a + b, x, k);
  }

  /** `Dedup` lists the elements in the order of their first occurrence. */
  lemma {:induction false} DedupFirstAppearance<T(!new)>(s: seq<T>)
    ensures forall i, j :: 0 <= i < j < |Dedup(s)| ==>
              FirstIndex(s, Dedup(s)[i]) < FirstIndex(s, Dedup(s)[j])
  {
    if s != [] {
      var q, e := s[..|s| - 1], s[|s| - 1];
      assert s == q + [e];
      DedupFirstAppearance(q);
      DedupSnoc(q, e);
      forall x | x in q
        ensures FirstIndex(s, x) == FirstIndex(q, x)
      {
        FirstIndexPrefix(q, [e], x);
      }
      if e !in q {
        assert s[..|q|] == q;
        FirstIndexUnique(s, e, |q|);
      }
    }
  }

  // ---------------------------------------------------------------------------
  // join

  /** `parts.join(sep)`. */
  function Join(parts: seq<string>, sep: string): string {
    if parts == [] then ""
    else if |parts| == 1 then parts[0]
    else parts[0] + sep + Join(parts[1..], sep)
  }

  /** Joining non-empty parts gives the empty string only for the empty list. */
  lemma JoinEmptyIff(parts: seq<string>, sep: string)
    requires forall i :: 0 <= i < |parts| ==> parts[i] != ""
    ensures Join(parts, sep) == "" <==> parts == []
  {
  }

  /** A join begins with its first part. */
  lemma JoinStartsWithFirst(parts: seq<string>, sep: string)
    requires parts != []
    ensures parts[0] <= Join(parts, sep)
  {
  }

  /** Two parts join around one separator. */
  lemma JoinPair(a: string, b: string, sep: string)
    ensures Join([a, b], sep) == a + sep + b
  {
    assert [a, b][1..] == [b];
  }

  // ---------------------------------------------------------------------------
  // case folding, trimming, substring search (ASCII)

  function LowerChar(c: char): char {
    if 'A' <= c <= 'Z' then (c as int + 32) as char else c
  }

  /** `s.toLowerCase()` restricted to ASCII letters. */
  function Lower(s: string): (r: string)
    ensures |r| == |s|
    ensures forall i :: 0 <= i < |s| ==> r[i] == LowerChar(s[i])
  {
    if s == [] then [] else [LowerChar(s[0])] + Lower(s[1..])
  }

  lemma LowerIdempotent(s: string)
    ensures Lower(Lower(s)) == Lower(s)
  {
  }

  /** The white-space characters `trim` removes, restricted to ASCII. */
  predicate IsSpace(c: char) {
    c == ' ' || c == '\t' || c == '\n' || c == '\r' || c == '\U{000B}' || c == '\U{000C}'
  }

  /** The number of leading white-space characters. */
  function LeadingSpaces(s: string): (n: nat)
    ensures n <= |s|
    ensures forall i :: 0 <= i < n ==> IsSpace(s[i])
    ensures n < |s| ==> !IsSpace(s[n])
  {
    if s == [] || !IsSpace(s[0]) then 0 else 1 + LeadingSpaces(s[1..])
  }

  /** The length of `s` without its trailing white space. */
  function TrailingStart(s: string): (n: nat)
    ensures n <= |s|
    ensures forall i :: n <= i < |s| ==> IsSpace(s[i])
    ensures n > 0 ==> !IsSpace(s[n - 1])
  {
    if s == [] || !IsSpace(s[|s| - 1]) then |s| else TrailingStart(s[..|s| - 1])
  }

  /** `s.trim()`: `s` without leading and trailing white space. */
  function Trim(s: string): string {
    var t := s[LeadingSpaces(s)..];
    t[..TrailingStart(t)]
  }

  /**
   * `Trim(s)` is the slice of `s` between its leading and its trailing white
   * space, and it neither begins nor ends with white space.
   */
  lemma TrimSlice(s: string)
    ensures exists i, j :: 0 <= i <= j <= |s| && Trim(s) == s[i..j]
              && (forall k :: 0 <= k < i ==> IsSpace(s[k]))
              && (forall k :: j <= k < |s| ==> IsSpace(s[k]))
    ensures Trim(s) != [] ==> !IsSpace(Trim(s)[0]) && !IsSpace(Trim(s)[|Trim(s)| - 1])
  {
    var i := LeadingSpaces(s);
    var t := s[i..];
    var n := TrailingStart(t);
    assert Trim(s) == s[i..i + n];
    assert forall k :: i + n <= k < |s| ==> s[k] == t[k - i];
  }

  lemma TrimIdempotent(s: string)
    ensures Trim(Trim(s)) == Trim(s)
  {
    TrimSlice(s);
    var t := Trim(s);
    if t != [] {
      assert LeadingSpaces(t) == 0;
      assert TrailingStart(t) == |t|;
    }
  }

  /** `s.includes(t)`. */
  predicate Contains(s: string, t: string) {
    exists i :: 0 <= i <= |s| && t <= s[i..]
  }

  lemma ContainsEmpty(s: string)
    ensures Contains(s, "")
  {
    assert "" <= s[0..];
  }

  // ---------------------------------------------------------------------------
  // decimal rendering of counts

  function DigitChar(d: nat): char
    requires d < 10
  {
    "0123456789"[d]
  }

  function DigitValue(c: char): nat {
    if '0' <= c <= '9' then c as int - '0' as int else 0
  }

  /** `n.toString()` for a natural number. */
  function NatToDecimal(n: nat): (r: string)
    ensures r != []
    ensures forall i :: 0 <= i < |r| ==> '0' <= r[i] <= '9'
  {
    if n < 10 then [DigitChar(n)] else NatToDecimal(n / 10) + [DigitChar(n % 10)]
  }

  /** The value of a string of decimal digits. */
  function DecimalValue(s: string): nat {
    if s == [] then 0 else 10 * DecimalValue(s[..|s| - 1]) + DigitValue(s[|s| - 1])
  }

  /** Reading back a rendered count gives the count. */
  lemma {:induction false} DecimalRoundTrip(n: nat)
    ensures DecimalValue(NatToDecimal(n)) == n
  {
    if n >= 10 {
      DecimalRoundTrip(n / 10);
      var r := NatToDecimal(n);
      assert r[..|r| - 1] == NatToDecimal(n / 10);
    }
  }
}
