/**
 * Python list operations the minimizer relies on: membership as a set,
 * duplicate-freedom, and `list.remove`, which deletes only the FIRST
 * occurrence of a value.
 */
module Lists {

  /** The set of values a list holds (`set(xs)` in Python). */
  function Elems<T>(s: seq<T>): set<T> {
    set x | x in s
  }

  lemma EmptyElems<T>(s: seq<T>)
    ensures Elems(s) == {} <==> |s| == 0
  {
    if |s| != 0 {
      assert s[0] in Elems(s);
    }
  }

  /** No value occurs twice. */
  predicate Distinct<T(==)>(s: seq<T>) {
    forall i, j :: 0 <= i < j < |s| ==> s[i] != s[j]
  }

  /** A repeat-free list's prefix grows by its next element, which it did not yet hold. */
  lemma DistinctPrefix<T>(s: seq<T>, i: int)
    requires Distinct(s) && 0 < i <= |s|
    ensures Elems(s[..i]) == Elems(s[..i - 1]) + {s[i - 1]}
    ensures s[i - 1] !in Elems(s[..i - 1])
  {
  }

  /** Position of the first occurrence of `x` (`list.index`). */
  function IndexOf<T(==)>(s: seq<T>, x: T): (i: nat)
    requires x in s
    ensures i < |s| && s[i] == x
    ensures x !in s[..i]
  {
    if s[0] == x then 0 else 1 + IndexOf(s[1..], x)
  }

  /**
   * `r` is `s` with the first occurrence of `x` cut out and every other
   * element kept in order, or `s` itself when `x` does not occur.
   */
  predicate CutFirst<T(==)>(s: seq<T>, x: T, r: seq<T>) {
    if x in s then r == s[..IndexOf(s, x)] + s[IndexOf(s, x) + 1..] else r == s
  }

  /**
   * `list.remove(x)` guarded by `x in list`: the first occurrence of `x` is
   * deleted and every other element keeps its relative order; a list that
   * does not hold `x` is returned as it is.
   */
  function RemoveFirst<T(==)>(s: seq<T>, x: T): (r: seq<T>)
    ensures x !in s ==> r == s
    ensures x in s ==> |r| == |s| - 1
  {
    if |s| == 0 then s
    else if s[0] == x then s[1..]
    else [s[0]] + RemoveFirst(s[1..], x)
  }

  /** Exactly one occurrence of `x` goes, when there is one. */
  lemma {:induction false} RemoveFirstCount<T>(s: seq<T>, x: T)
    ensures multiset(RemoveFirst(s, x)) == multiset(s) - multiset{x}
  {
    if |s| > 0 {
      assert s == [s[0]] + s[1..];
      if s[0] != x {
        RemoveFirstCount(s[1..], x);
      }
    }
  }

  /** The element removed is the first occurrence; the rest keep their order. */
  lemma {:induction false} RemoveFirstAt<T>(s: seq<T>, x: T)
    requires x in s
    ensures RemoveFirst(s, x) == s[..IndexOf(s, x)] + s[IndexOf(s, x) + 1..]
  {
    if s[0] != x {
      var t := s[1..];
      assert x in t;
      RemoveFirstAt(t, x);
      var i := IndexOf(t, x);
      assert IndexOf(s, x) == i + 1;
      calc {
        RemoveFirst(s, x);
        [s[0]] + RemoveFirst(t, x);
        [s[0]] + (t[..i] + t[i + 1..]);
        ([s[0]] + t[..i]) + t[i + 1..];
        { assert s[..i + 1] == [s[0]] + t[..i]; assert s[i + 2..] == t[i + 1..]; }
        s[..i + 1] + s[i + 2..];
      }
    }
  }

  /** Removal keeps only values that were there. */
  lemma RemoveFirstSubset<T>(s: seq<T>, x: T)
    ensures forall y :: y in RemoveFirst(s, x) ==> y in s
  {
  }

  /**
   * On a duplicate-free list, removing the first occurrence removes the value
   * altogether, and the result stays duplicate-free.
   */
  lemma {:induction false} RemoveFirstDistinct<T>(s: seq<T>, x: T)
    requires Distinct(s)
    ensures Distinct(RemoveFirst(s, x))
    ensures Elems(RemoveFirst(s, x)) == Elems(s) - {x}
  {
    if |s| != 0 {
      DistinctTail(s);
      assert Elems(s) == {s[0]} + Elems(s[1..]) by {
        assert s == [s[0]] + s[1..];
      }
      if s[0] != x {
        var t := RemoveFirst(s[1..], x);
        RemoveFirstDistinct(s[1..], x);
        assert s[0] !in Elems(t);
        DistinctCons(s[0], t);
        assert Elems([s[0]] + t) == {s[0]} + Elems(t);
      }
    }
  }

  lemma DistinctTail<T>(s: seq<T>)
    requires Distinct(s) && |s| != 0
    ensures Distinct(s[1..]) && s[0] !in Elems(s[1..])
  {
  }

  lemma DistinctCons<T>(h: T, t: seq<T>)
    requires Distinct(t) && h !in Elems(t)
    ensures Distinct([h] + t)
  {
  }

  /** A duplicate from which one occurrence is removed is still there. */
  lemma {:induction false} RemoveFirstKeepsDuplicate<T>(s: seq<T>, x: T)
    requires multiset(s)[x] >= 2
    ensures x in RemoveFirst(s, x)
  {
    RemoveFirstCount(s, x);
    assert multiset(RemoveFirst(s, x))[x] >= 1;
  }
}
