/** Stable sorting by a strict weak order, and that the result is determined by the multiset. */
module Sorting {

  /** `less` is asymmetric and its negation is transitive. */
  ghost predicate StrictWeakOrder<T(!new)>(less: (T, T) -> bool) {
    && (forall a, b :: less(a, b) ==> !less(b, a))
    && (forall a, b, c :: !less(a, b) && !less(b, c) ==> !less(a, c))
  }

  ghost predicate Sorted<T>(less: (T, T) -> bool, s: seq<T>) {
    forall i, j :: 0 <= i < j < |s| ==> !less(s[j], s[i])
  }

  /** Insert after every element that is not above `x`. */
  function Insert<T>(less: (T, T) -> bool, s: seq<T>, x: T): seq<T> {
    if s == [] then [x]
    else
      var n := |s| - 1;
      if less(x, s[n]) then Insert(less, s[..n], x) + [s[n]] else s + [x]
  }

  function Sort<T>(less: (T, T) -> bool, s: seq<T>): seq<T> {
    if s == [] then [] else Insert(less, Sort(less, s[..|s| - 1]), s[|s| - 1])
  }

  lemma {:induction false} InsertMultiset<T>(less: (T, T) -> bool, s: seq<T>, x: T)
    ensures multiset(Insert(less, s, x)) == multiset(s) + multiset{x}
  {
    if s != [] {
      var n := |s| - 1;
      assert s == s[..n] + [s[n]];
      if less(x, s[n]) {
        InsertMultiset(less, s[..n], x);
      }
    }
  }

  lemma SortedSnoc<T(!new)>(less: (T, T) -> bool, s: seq<T>, y: T)
    requires Sorted(less, s) && forall z :: z in s ==> !less(y, z)
    ensures Sorted(less, s + [y])
  {
  }

  /** Nothing in a sorted list is above its last. */
  lemma LastIsTop<T(!new)>(less: (T, T) -> bool, s: seq<T>, z: T)
    requires StrictWeakOrder(less) && Sorted(less, s) && z in s
    ensures !less(s[|s| - 1], z)
  {
    var i :| 0 <= i < |s| && s[i] == z;
  }

  lemma {:induction false} InsertSorted<T(!new)>(less: (T, T) -> bool, s: seq<T>, x: T)
    requires StrictWeakOrder(less) && Sorted(less, s)
    ensures Sorted(less, Insert(less, s, x))
  {
    if s != [] {
      var n := |s| - 1;
      if less(x, s[n]) {
        InsertSorted(less, s[..n], x);
        var r := Insert(less, s[..n], x);
        forall z | z in r ensures !less(s[n], z) {
          InsertMultiset(less, s[..n], x);
          assert z in multiset(r);
          if z != x {
            assert z in s;
            LastIsTop(less, s, z);
          }
        }
        SortedSnoc(less, r, s[n]);
      } else {
        forall z | z in s ensures !less(x, z) {
          LastIsTop(less, s, z);
        }
        SortedSnoc(less, s, x);
      }
    } else {
      SortedSnoc(less, [], x);
    }
  }

  /** Sorting sorts, and loses or invents nothing. */
  lemma {:induction false} SortSorts<T(!new)>(less: (T, T) -> bool, s: seq<T>)
    requires StrictWeakOrder(less)
    ensures Sorted(less, Sort(less, s)) && multiset(Sort(less, s)) == multiset(s)
  {
    if s != [] {
      var n := |s| - 1;
      SortSorts(less, s[..n]);
      InsertSorted(less, Sort(less, s[..n]), s[n]);
      InsertMultiset(less, Sort(less, s[..n]), s[n]);
      assert s == s[..n] + [s[n]];
    }
  }

  method SortList<T(!new)>(less: (T, T) -> bool, s: seq<T>) returns (r: seq<T>)
    requires StrictWeakOrder(less)
    ensures r == Sort(less, s) && Sorted(less, r) && multiset(r) == multiset(s)
  {
    r := [];
    for i := 0 to |s|
      invariant r == Sort(less, s[..i])
    {
      assert s[..i + 1][..i] == s[..i];
      r := Insert(less, r, s[i]);
    }
    assert s[..|s|] == s;
    SortSorts(less, s);
  }

  /** What each element shows as. */
  function Image<T, U>(f: T -> U, s: seq<T>): (r: seq<U>)
    ensures |r| == |s| && forall i :: 0 <= i < |r| ==> r[i] == f(s[i])
  {
    seq(|s|, i requires 0 <= i < |s| => f(s[i]))
  }

  lemma {:induction false} RemoveOne<T>(s: seq<T>, x: T) returns (i: nat)
    requires x in multiset(s)
    ensures i < |s| && s[i] == x && multiset(s[..i] + s[i + 1..]) == multiset(s) - multiset{x}
  {
    assert x in s;
    i :| 0 <= i < |s| && s[i] == x;
    assert s == s[..i] + [s[i]] + s[i + 1..];
    assert multiset(s) == multiset(s[..i]) + multiset{x} + multiset(s[i + 1..]);
  }

  /** How many elements are below `v`. */
  function Below<T>(less: (T, T) -> bool, v: T, s: seq<T>): nat {
    if s == [] then 0 else (if less(s[0], v) then 1 else 0) + Below(less, v, s[1..])
  }

  lemma {:induction false} BelowConcat<T>(less: (T, T) -> bool, v: T, a: seq<T>, b: seq<T>)
    ensures Below(less, v, a + b) == Below(less, v, a) + Below(less, v, b)
  {
    if a == [] {
      assert a + b == b;
    } else {
      assert (a + b)[1..] == a[1..] + b;
      BelowConcat(less, v, a[1..], b);
    }
  }

  lemma {:induction false} BelowPermutes<T>(less: (T, T) -> bool, v: T, s: seq<T>, t: seq<T>)
    requires multiset(s) == multiset(t)
    ensures |s| == |t| && Below(less, v, s) == Below(less, v, t)
    decreases |s|
  {
    assert |s| == |multiset(s)| && |t| == |multiset(t)|;
    if s != [] {
      assert s == [s[0]] + s[1..];
      assert s[0] in multiset(s);
      var i := RemoveOne(t, s[0]);
      BelowPermutes(less, v, s[1..], t[..i] + t[i + 1..]);
      BelowConcat(less, v, t[..i], t[i + 1..]);
      assert t == t[..i] + ([t[i]] + t[i + 1..]);
      BelowConcat(less, v, t[..i], [t[i]] + t[i + 1..]);
      assert ([t[i]] + t[i + 1..])[1..] == t[i + 1..];
    }
  }

  lemma {:induction false} BelowAll<T>(less: (T, T) -> bool, v: T, s: seq<T>)
    ensures (forall i :: 0 <= i < |s| ==> less(s[i], v)) ==> Below(less, v, s) == |s|
    ensures (forall i :: 0 <= i < |s| ==> !less(s[i], v)) ==> Below(less, v, s) == 0
    ensures Below(less, v, s) <= |s|
  {
    if s != [] {
      BelowAll(less, v, s[1..]);
    }
  }

  /** In two orderings of the same elements, those in the same place are never strictly ordered. */
  lemma SamePlaceTies<T(!new)>(less: (T, T) -> bool, s: seq<T>, t: seq<T>, i: nat)
    requires StrictWeakOrder(less) && Sorted(less, s) && Sorted(less, t) && multiset(s) == multiset(t) && i < |s|
    ensures i < |t| && !less(s[i], t[i])
  {
    assert |s| == |multiset(s)| && |t| == |multiset(t)|;
    BelowPermutes(less, t[i], s, t);
    if less(s[i], t[i]) {
      var v, low, high := t[i], s[..i + 1], t[i..];
      assert s == low + s[i + 1..] && t == t[..i] + high;
      BelowConcat(less, v, low, s[i + 1..]);
      BelowConcat(less, v, t[..i], high);
      forall j | 0 <= j < |low| ensures less(low[j], v) {
        assert j < i ==> !less(s[i], s[j]);
      }
      BelowAll(less, v, low);
      forall j | 0 <= j < |high| ensures !less(high[j], v) {
        assert high[j] == t[i + j];
        assert j > 0 ==> !less(t[i + j], t[i]);
      }
      BelowAll(less, v, high);
      BelowAll(less, v, t[..i]);
    }
  }

  /** If ties look the same, any two sorted orderings of the same elements look the same. */
  lemma SortedLooksUnique<T(!new), U>(less: (T, T) -> bool, f: T -> U, s: seq<T>, t: seq<T>)
    requires StrictWeakOrder(less) && Sorted(less, s) && Sorted(less, t) && multiset(s) == multiset(t)
    requires forall a, b :: !less(a, b) && !less(b, a) ==> f(a) == f(b)
    ensures Image(f, s) == Image(f, t)
  {
    assert |s| == |multiset(s)| && |t| == |multiset(t)|;
    forall i | 0 <= i < |s| ensures f(s[i]) == f(t[i]) {
      SamePlaceTies(less, s, t, i);
      SamePlaceTies(less, t, s, i);
    }
  }
}
