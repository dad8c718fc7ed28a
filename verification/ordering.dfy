/**
 * The order Python's `sorted` puts strings in (code point by code point, a
 * proper prefix first) and `sorted(set(xs))`, the candidate enumeration.
 */
module Ordering {
  import opened Lists

  /** Python's `a < b` on `str`. */
  predicate Less(a: string, b: string)
    decreases |a|
  {
    |b| != 0 && (|a| == 0 || a[0] < b[0] || (a[0] == b[0] && Less(a[1..], b[1..])))
  }

  lemma {:induction false} LessIrreflexive(a: string)
    ensures !Less(a, a)
    decreases |a|
  {
    if |a| != 0 {
      LessIrreflexive(a[1..]);
    }
  }

  lemma {:induction false} LessTransitive(a: string, b: string, c: string)
    requires Less(a, b) && Less(b, c)
    ensures Less(a, c)
    decreases |a|
  {
    if |a| != 0 && a[0] == b[0] && b[0] == c[0] {
      LessTransitive(a[1..], b[1..], c[1..]);
    }
  }

  /** Any two different strings are ordered one way or the other. */
  lemma {:induction false} LessTotal(a: string, b: string)
    ensures a == b || Less(a, b) || Less(b, a)
    decreases |a|
  {
    if |a| != 0 && |b| != 0 && a[0] == b[0] {
      LessTotal(a[1..], b[1..]);
      if a[1..] == b[1..] {
        assert a == [a[0]] + a[1..] && b == [b[0]] + b[1..];
      }
    }
  }

  lemma LessAsymmetric(a: string, b: string)
    requires Less(a, b)
    ensures !Less(b, a)
  {
  }

  /** Sorted ascending with no repeats: what `sorted(set(xs))` returns. */
  predicate StrictlySorted(s: seq<string>) {
    forall i, j :: 0 <= i < j < |s| ==> Less(s[i], s[j])
  }

  lemma SortedDistinct(s: seq<string>)
    requires StrictlySorted(s)
    ensures Distinct(s)
  {
    forall i, j | 0 <= i < j < |s| ensures s[i] != s[j] {
      LessIrreflexive(s[i]);
    }
  }

  lemma TailSorted(s: seq<string>)
    requires StrictlySorted(s) && |s| > 0
    ensures StrictlySorted(s[1..])
  {
  }

  /** A value below everything in a sorted list can go in front of it. */
  lemma ConsSorted(h: string, t: seq<string>)
    requires StrictlySorted(t)
    requires forall e :: e in t ==> Less(h, e)
    ensures StrictlySorted([h] + t)
  {
  }

  /** The head of a sorted list is below everything after it. */
  lemma HeadBelowTail(s: seq<string>)
    requires StrictlySorted(s) && |s| > 0
    ensures forall e :: e in s[1..] ==> Less(s[0], e)
  {
  }

  /** Puts `x` into a sorted list at its place, unless it is already there. */
  function Insert(x: string, s: seq<string>): (r: seq<string>)
    requires StrictlySorted(s)
    ensures StrictlySorted(r)
    ensures Elems(r) == Elems(s) + {x}
  {
    if |s| == 0 then [x]
    else if x == s[0] then
      assert Elems(s) == Elems(s) + {x};
      s
    else if Less(x, s[0]) then
      HeadBelowTail(s);
      InsertBelowHead(x, s);
      ConsSorted(x, s);
      [x] + s
    else
      HeadBelowTail(s);
      LessTotal(x, s[0]);
      var t := Insert(x, s[1..]);
      assert s == [s[0]] + s[1..];
      assert forall e :: e in t ==> e in Elems(t);
      assert Elems([s[0]] + t) == {s[0]} + Elems(t);
      ConsSorted(s[0], t);
      [s[0]] + t
  }

  lemma InsertBelowHead(x: string, s: seq<string>)
    requires StrictlySorted(s) && |s| > 0 && Less(x, s[0])
    requires forall e :: e in s[1..] ==> Less(s[0], e)
    ensures forall e :: e in s ==> Less(x, e)
  {
    forall e | e in s ensures Less(x, e) {
      if e != s[0] {
        assert s == [s[0]] + s[1..];
        LessTransitive(x, s[0], e);
      }
    }
  }

  /** `sorted(set(xs))`: the distinct values of `xs`, ascending. */
  function SortUnique(xs: seq<string>): (r: seq<string>)
    ensures StrictlySorted(r)
    ensures Elems(r) == Elems(xs)
  {
    if |xs| == 0 then []
    else
      assert xs == [xs[0]] + xs[1..];
      Insert(xs[0], SortUnique(xs[1..]))
  }

  /**
   * There is only one strictly sorted list of a given set of strings, so the
   * enumeration is determined by the set alone.
   */
  lemma {:induction false} SortedUnique(a: seq<string>, b: seq<string>)
    requires StrictlySorted(a) && StrictlySorted(b)
    requires Elems(a) == Elems(b)
    ensures a == b
    decreases |a|
  {
    EmptyElems(a);
    EmptyElems(b);
    if |a| != 0 {
      assert a[0] in Elems(a);
      assert |b| != 0;
      assert b[0] in Elems(b);
      HeadBelowTail(a);
      HeadBelowTail(b);
      assert a == [a[0]] + a[1..] && b == [b[0]] + b[1..];
      if a[0] != b[0] {
        assert a[0] in b[1..] && b[0] in a[1..];
        LessAsymmetric(a[0], b[0]);
        assert false;
      }
      LessIrreflexive(a[0]);
      assert Elems(a[1..]) == Elems(a) - {a[0]};
      assert Elems(b[1..]) == Elems(b) - {b[0]};
      assert StrictlySorted(a[1..]) && StrictlySorted(b[1..]);
      SortedUnique(a[1..], b[1..]);
    }
  }
}
