/** Keeping the newest `keep` of a set of numbered things: zone backups by time stamp, snapshots by id. */
module Retention {

  function Above(s: set<nat>, k: nat): set<nat> {
    set j | j in s && j > k
  }

  /** The members with fewer than `keep` members above them. */
  function Newest(s: set<nat>, keep: nat): set<nat> {
    set k | k in s && |Above(s, k)| < keep
  }

  function NewestEntries<V>(m: map<nat, V>, keep: nat): (r: map<nat, V>)
    ensures r.Keys == Newest(m.Keys, keep)
    ensures forall k :: k in r ==> r[k] == m[k]
  {
    map k | k in Newest(m.Keys, keep) :: m[k]
  }

  lemma {:induction false} MaxExists(s: set<nat>) returns (x: nat)
    requires s != {}
    ensures x in s && forall j :: j in s ==> j <= x
    decreases |s|
  {
    x :| x in s;
    if s != {x} {
      assert s - {x} != {};
      var y := MaxExists(s - {x});
      assert forall j :: j in s ==> j == x || j in s - {x};
      x := if y > x then y else x;
    }
  }

  lemma NewestPeel(s: set<nat>, keep: nat, x: nat)
    requires x in s && (forall j :: j in s ==> j <= x) && keep > 0
    ensures Newest(s, keep) == Newest(s - {x}, keep - 1) + {x}
  {
    assert Above(s, x) == {};
    forall k | k in s && k != x ensures |Above(s, k)| == |Above(s - {x}, k)| + 1 {
      assert Above(s, k) == Above(s - {x}, k) + {x};
    }
  }

  lemma NewestEmpty(s: set<nat>, keep: nat)
    requires keep == 0 || s == {}
    ensures Newest(s, keep) == {}
  {
  }

  /** Exactly `min(keep, |s|)` members stay. */
  lemma {:induction false} NewestSize(s: set<nat>, keep: nat)
    ensures |Newest(s, keep)| == if |s| < keep then |s| else keep
    decreases |s|
  {
    if keep == 0 || s == {} {
      NewestEmpty(s, keep);
    } else {
      var x := MaxExists(s);
      NewestSize(s - {x}, keep - 1);
      NewestOneMore(s, keep, x);
    }
  }

  lemma NewestOneMore(s: set<nat>, keep: nat, x: nat)
    requires x in s && (forall j :: j in s ==> j <= x) && keep > 0
    ensures |Newest(s, keep)| == |Newest(s - {x}, keep - 1)| + 1 && |s| == |s - {x}| + 1
  {
    NewestPeel(s, keep, x);
  }

  /** Every member that stays is newer than every one that goes. */
  lemma NewestOrder(s: set<nat>, keep: nat, a: nat, b: nat)
    requires a in Newest(s, keep) && b in s && b !in Newest(s, keep)
    ensures a > b
  {
    if a <= b {
      assert Above(s, b) <= Above(s, a);
      SubsetSize(Above(s, b), Above(s, a));
    }
  }

  /** What is added stays exactly when fewer than `keep` others are newer than it. */
  lemma AddedStays(s: set<nat>, keep: nat, x: nat)
    ensures x in Newest(s + {x}, keep) <==> |Above(s, x)| < keep
  {
    assert Above(s + {x}, x) == Above(s, x);
  }

  lemma AddedNewestStays(s: set<nat>, keep: nat, x: nat)
    requires keep > 0 && forall j :: j in s ==> j < x
    ensures x in Newest(s + {x}, keep)
  {
    assert Above(s, x) == {};
    AddedStays(s, keep, x);
  }

  lemma DropOldest(s: set<nat>, keep: nat, x: nat)
    requires x in s && (forall j :: j in s ==> x <= j) && |s| > keep
    ensures Newest(s - {x}, keep) == Newest(s, keep)
  {
    assert Above(s, x) == s - {x};
    forall k | k in s && k != x ensures Above(s - {x}, k) == Above(s, k) {
    }
  }

  method Oldest(s: set<nat>) returns (x: nat)
    requires s != {}
    ensures x in s && forall j :: j in s ==> x <= j
  {
    x :| x in s;
    var rest := s - {x};
    while rest != {}
      invariant rest <= s && x in s
      invariant forall j :: j in s ==> j in rest || x <= j
      decreases |rest|
    {
      var y :| y in rest;
      if y < x {
        x := y;
      }
      rest := rest - {y};
    }
  }

  /** `pruneBackups`: delete from the oldest on until at most `keep` are left. */
  method Prune(names: set<nat>, keep: nat) returns (left: set<nat>)
    ensures left == Newest(names, keep)
  {
    left := names;
    while |left| > keep
      invariant left <= names && Newest(left, keep) == Newest(names, keep)
      decreases |left|
    {
      assert left != {};
      var x := Oldest(left);
      DropOldest(left, keep, x);
      left := left - {x};
    }
    AllStay(left, keep);
  }

  lemma AllStay(s: set<nat>, keep: nat)
    requires |s| <= keep
    ensures Newest(s, keep) == s
  {
    forall k | k in s ensures |Above(s, k)| < keep {
      assert Above(s, k) <= s - {k};
      SubsetSize(Above(s, k), s - {k});
    }
  }

  lemma {:induction false} SubsetSize(a: set<nat>, b: set<nat>)
    requires a <= b
    ensures |a| <= |b|
    decreases |a|
  {
    if a != {} {
      var x :| x in a;
      SubsetSize(a - {x}, b - {x});
    }
  }

  /** Pruning an already pruned set to fewer gives the same as pruning the full set. */
  lemma NewestOfNewest(s: set<nat>, keep: nat, fewer: nat)
    requires fewer <= keep
    ensures Newest(Newest(s, keep), fewer) == Newest(s, fewer)
  {
    forall k | k in Newest(s, keep) ensures Above(Newest(s, keep), k) == Above(s, k) {
      forall j | j in Above(s, k) ensures j in Newest(s, keep) {
        assert Above(s, j) <= Above(s, k);
        SubsetSize(Above(s, j), Above(s, k));
      }
    }
  }

  /** Adding the newest member to a pruned set and pruning again is pruning the full set. */
  lemma PruneStep(s: set<nat>, keep: nat, x: nat)
    requires keep > 0 && forall j :: j in s ==> j < x
    ensures Newest(Newest(s, keep) + {x}, keep) == Newest(s + {x}, keep)
  {
    var kept := Newest(s, keep);
    NewestPeel(s + {x}, keep, x);
    NewestPeel(kept + {x}, keep, x);
    assert s + {x} - {x} == s && kept + {x} - {x} == kept;
    NewestOfNewest(s, keep, keep - 1);
  }
}
