/**
 * Restoring a snapshot of a dynamic zone (internal/recordmut): the forward delta of
 * `restoreOps`, performed under the rules of RFC 2136, and exactly when it succeeds.
 */
module Restore {
  import opened Update

  /** The records a restore is about: the operator's, at names this zone is authoritative for. */
  predicate Ours(own: string -> bool, id: Ident) {
    Operator(id) && own(id.name)
  }

  /**
   * `dels` and `adds` list, in any order, what live has and want lacks, and the reverse; and both
   * list the records of `redo`, which are in both zones but are deleted and added anew.
   */
  ghost predicate IsPlan(own: string -> bool, want: Zone, live: Zone, redo: set<Ident>, dels: seq<Ident>,
                         adds: seq<Ident>) {
    && (forall id :: id in redo ==> id in live && id in want && id.rtype != NS)
    && (forall id :: id in dels <==> id in live && Ours(own, id) && (id !in want || id in redo))
    && (forall id :: id in adds <==> id in want && Ours(own, id) && (id !in live || id in redo))
  }

  function DelOps(ids: seq<Ident>): (r: seq<Op>)
    ensures |r| == |ids|
    ensures forall i :: 0 <= i < |r| ==> r[i] == DelRr(ids[i])
  {
    seq(|ids|, i requires 0 <= i < |ids| => DelRr(ids[i]))
  }

  function AddOps(ids: seq<Ident>, want: Zone): (r: seq<Op>)
    requires forall i :: 0 <= i < |ids| ==> ids[i] in want
    ensures |r| == |ids|
    ensures forall i :: 0 <= i < |r| ==> r[i] == Add(ids[i], want[ids[i]])
  {
    seq(|ids|, i requires 0 <= i < |ids| => Add(ids[i], want[ids[i]]))
  }

  /** The zone after the restore's one UPDATE: deletions first, then additions. */
  function Restored(sv: Server, live: Zone, want: Zone, dels: seq<Ident>, adds: seq<Ident>): Zone
    requires forall i :: 0 <= i < |adds| ==> adds[i] in want
  {
    PerformAll(sv, live, DelOps(dels) + AddOps(adds, want))
  }

  /**
   * Our records are the snapshot's, each other record is as it was; kept records keep their TTL,
   * and added ones, anew or not, have the snapshot's.
   */
  ghost predicate RestoredExactly(own: string -> bool, want: Zone, live: Zone, redo: set<Ident>, now: Zone) {
    && (forall id :: Ours(own, id) ==> (id in now <==> id in want))
    && (forall id :: !Ours(own, id) ==> (id in now <==> id in live))
    && (forall id :: id in now ==>
          now[id]
          == if id in live && !(id in redo && Ours(own, id)) then live[id] else if id in want then want[id] else 0)
  }

  /** Live and snapshot share an apex NS, or live has none. */
  ghost predicate SharesNs(sv: Server, want: Zone, live: Zone) {
    (forall k :: k in live ==> !IsApexNs(sv, k)) || (exists k :: k in live && k in want && IsApexNs(sv, k))
  }

  /** No record to be added conflicts with another record of the snapshot. */
  ghost predicate AddsFit(own: string -> bool, want: Zone, live: Zone, redo: set<Ident>) {
    forall a, b :: a in want && Ours(own, a) && (a !in live || a in redo) && b in want && Ours(own, b)
      ==> !Conflict(a, b)
  }

  // ----- Deletions -----

  lemma WithoutFirst(z: Zone, dels: seq<Ident>)
    requires dels != []
    ensures (z - {dels[0]}) - (set d | d in dels[1..]) == z - (set d | d in dels)
  {
    assert dels == [dels[0]] + dels[1..];
  }

  lemma {:induction false} DeletesAll(sv: Server, z: Zone, dels: seq<Ident>, anchor: Ident)
    requires forall i :: 0 <= i < |dels| ==> Operator(dels[i])
    requires anchor in z && IsApexNs(sv, anchor) && anchor !in dels
    ensures PerformAll(sv, z, DelOps(dels)) == z - (set d | d in dels)
    decreases |dels|
  {
    if dels != [] {
      assert DelOps(dels)[1..] == DelOps(dels[1..]);
      DeletesAll(sv, z - {dels[0]}, dels[1..], anchor);
      WithoutFirst(z, dels);
    } else {
      assert z - (set d | d in dels) == z;
    }
  }

  lemma {:induction false} DeletesNoNs(sv: Server, z: Zone, dels: seq<Ident>)
    requires forall i :: 0 <= i < |dels| ==> Operator(dels[i]) && !IsApexNs(sv, dels[i])
    ensures PerformAll(sv, z, DelOps(dels)) == z - (set d | d in dels)
    decreases |dels|
  {
    if dels != [] {
      assert DelOps(dels)[1..] == DelOps(dels[1..]);
      DeletesNoNs(sv, z - {dels[0]}, dels[1..]);
      WithoutFirst(z, dels);
    } else {
      assert z - (set d | d in dels) == z;
    }
  }

  // ----- Additions -----

  /** Adding records that fit adds exactly them. */
  lemma {:induction false} AddsAll(sv: Server, z: Zone, adds: seq<Ident>, want: Zone)
    requires forall i :: 0 <= i < |adds| ==> adds[i] in want && Operator(adds[i])
    requires forall k, i :: k in z && 0 <= i < |adds| ==> !Conflict(k, adds[i])
    requires forall i, j :: 0 <= i < |adds| && 0 <= j < |adds| ==> !Conflict(adds[i], adds[j])
    requires forall i :: 0 <= i < |adds| && adds[i] in z ==> z[adds[i]] == want[adds[i]]
    ensures var t := PerformAll(sv, z, AddOps(adds, want));
            && (forall k :: k in t <==> k in z || k in adds)
            && (forall k :: k in z ==> k in t && t[k] == z[k])
            && (forall k :: k in adds && k !in z ==> k in t && t[k] == want[k])
    decreases |adds|
  {
    if adds != [] {
      var id := adds[0];
      AddFits(sv, z, id, want[id]);
      var z' := z[id := want[id]];
      assert AddOps(adds, want)[1..] == AddOps(adds[1..], want);
      assert adds == [id] + adds[1..];
      AddsAll(sv, z', adds[1..], want);
    }
  }

  lemma AddFits(sv: Server, z: Zone, id: Ident, ttl: nat)
    requires Operator(id) && (forall k :: k in z ==> !Conflict(k, id)) && (id in z ==> z[id] == ttl)
    ensures AddOne(sv, z, id, ttl) == z[id := ttl]
  {
    if id.rtype == CNAME {
      assert !HasOther(z, id.name);
      assert Without(z, id.name, CNAME)[id := ttl] == z[id := ttl];
    } else {
      assert !HasCname(z, id.name);
    }
  }

  // ----- Failure is visible -----

  lemma {:induction false} NsStays(sv: Server, z: Zone, ops: seq<Op>)
    requires HasApexNs(sv, z)
    requires forall i :: 0 <= i < |ops| ==> ops[i].DelRr?
    ensures exists k :: k in z && IsApexNs(sv, k) && k in PerformAll(sv, z, ops)
    decreases |ops|
  {
    if ops != [] {
      PerformKeepsApexNs(sv, z, ops[0]);
      NsStays(sv, Perform(sv, z, ops[0]), ops[1..]);
      var k :| k in Perform(sv, z, ops[0]) && IsApexNs(sv, k) && k in PerformAll(sv, z, ops);
      assert k in z;
    }
  }

  lemma {:induction false} NsSurvivesAdds(sv: Server, z: Zone, ops: seq<Op>, k: Ident)
    requires k in z && k.rtype == NS
    requires forall i :: 0 <= i < |ops| ==> ops[i].Add?
    ensures k in PerformAll(sv, z, ops)
    decreases |ops|
  {
    if ops != [] {
      NsSurvivesAdds(sv, Perform(sv, z, ops[0]), ops[1..], k);
    }
  }

  /** Two conflicting records that are not both there never come to be both there. */
  lemma {:induction false} NeverBoth(sv: Server, z: Zone, ops: seq<Op>, a: Ident, b: Ident)
    requires Conflict(a, b) && !(a in z && b in z)
    requires forall i :: 0 <= i < |ops| ==> ops[i].Add? || ops[i].DelRr?
    ensures !(a in PerformAll(sv, z, ops) && b in PerformAll(sv, z, ops))
    decreases |ops|
  {
    if ops != [] {
      NeverBoth(sv, Perform(sv, z, ops[0]), ops[1..], a, b);
    }
  }

  /** A record deleted by name is gone, unless the server protects it. */
  lemma {:induction false} DeletedGone(sv: Server, z: Zone, dels: seq<Ident>, id: Ident)
    requires id !in z || (id in dels && Operator(id) && id.rtype != NS)
    ensures id !in PerformAll(sv, z, DelOps(dels))
    decreases |dels|
  {
    if dels != [] {
      assert DelOps(dels)[1..] == DelOps(dels[1..]);
      assert dels == [dels[0]] + dels[1..];
      DeletedGone(sv, Perform(sv, z, DelRr(dels[0])), dels[1..], id);
    }
  }

  // ----- The theorem -----

  lemma AddsMeetNoConflict(own: string -> bool, want: Zone, live: Zone, redo: set<Ident>,
                           dels: seq<Ident>, adds: seq<Ident>, k: Ident, i: nat)
    requires IsPlan(own, want, live, redo, dels, adds) && AddsFit(own, want, live, redo)
    requires k in live && k !in dels && i < |adds|
    ensures !Conflict(k, adds[i])
  {
    PlanMembers(own, want, live, redo, dels, adds);
    if Conflict(k, adds[i]) {
      assert Ours(own, k);
    }
  }

  lemma RestoreSucceeds(sv: Server, own: string -> bool, want: Zone, live: Zone, redo: set<Ident>,
                        dels: seq<Ident>, adds: seq<Ident>)
    requires IsPlan(own, want, live, redo, dels, adds) && own(sv.apex)
    requires SharesNs(sv, want, live) && AddsFit(own, want, live, redo)
    ensures forall i :: 0 <= i < |adds| ==> adds[i] in want
    ensures RestoredExactly(own, want, live, redo, Restored(sv, live, want, dels, adds))
  {
    PlanMembers(own, want, live, redo, dels, adds);
    PerformConcat(sv, live, DelOps(dels), AddOps(adds, want));
    if anchor :| anchor in live && anchor in want && IsApexNs(sv, anchor) {
      DeletesAll(sv, live, dels, anchor);
    } else {
      DeletesNoNs(sv, live, dels);
    }
    var mid := live - (set d | d in dels);
    forall k, i | k in mid && 0 <= i < |adds| ensures !Conflict(k, adds[i]) {
      AddsMeetNoConflict(own, want, live, redo, dels, adds, k, i);
    }
    AddsAll(sv, mid, adds, want);
    AddedExactly(own, want, live, redo, dels, adds, mid, PerformAll(sv, mid, AddOps(adds, want)));
  }

  lemma AddedExactly(own: string -> bool, want: Zone, live: Zone, redo: set<Ident>, dels: seq<Ident>, adds: seq<Ident>,
                     mid: Zone, now: Zone)
    requires IsPlan(own, want, live, redo, dels, adds) && mid == live - (set d | d in dels)
    requires forall k :: k in now <==> k in mid || k in adds
    requires forall k :: k in mid ==> k in now && now[k] == mid[k]
    requires forall k :: k in adds && k !in mid ==> k in now && now[k] == want[k]
    ensures RestoredExactly(own, want, live, redo, now)
  {
  }

  lemma PlanMembers(own: string -> bool, want: Zone, live: Zone, redo: set<Ident>, dels: seq<Ident>, adds: seq<Ident>)
    requires IsPlan(own, want, live, redo, dels, adds)
    ensures forall i :: 0 <= i < |adds| ==>
              adds[i] in want && Ours(own, adds[i]) && (adds[i] !in live || adds[i] in redo)
    ensures forall i :: 0 <= i < |dels| ==>
              dels[i] in live && Ours(own, dels[i]) && (dels[i] !in want || dels[i] in redo)
  {
    forall i | 0 <= i < |adds| ensures adds[i] in want && Ours(own, adds[i]) && (adds[i] !in live || adds[i] in redo) {
      assert adds[i] in adds;
    }
    forall i | 0 <= i < |dels| ensures dels[i] in live && Ours(own, dels[i]) && (dels[i] !in want || dels[i] in redo) {
      assert dels[i] in dels;
    }
  }

  lemma RestoreFails(sv: Server, own: string -> bool, want: Zone, live: Zone, redo: set<Ident>,
                     dels: seq<Ident>, adds: seq<Ident>)
    requires IsPlan(own, want, live, redo, dels, adds) && own(sv.apex)
    requires !SharesNs(sv, want, live) || !AddsFit(own, want, live, redo)
    ensures forall i :: 0 <= i < |adds| ==> adds[i] in want
    ensures !RestoredExactly(own, want, live, redo, Restored(sv, live, want, dels, adds))
  {
    PlanMembers(own, want, live, redo, dels, adds);
    PerformConcat(sv, live, DelOps(dels), AddOps(adds, want));
    var mid := PerformAll(sv, live, DelOps(dels));
    if !SharesNs(sv, want, live) {
      NsStays(sv, live, DelOps(dels));
      var k :| k in live && IsApexNs(sv, k) && k in mid;
      NsSurvivesAdds(sv, mid, AddOps(adds, want), k);
      assert Ours(own, k) && k !in want;
    } else {
      var a, b :| a in want && Ours(own, a) && (a !in live || a in redo) && b in want && Ours(own, b) && Conflict(a, b);
      DeletedGone(sv, live, dels, a);
      NeverBoth(sv, mid, AddOps(adds, want), a, b);
    }
  }

  /**
   * Restore correctness: performing the delta, in whatever order its deletions and its
   * additions are listed, leaves exactly the snapshot's operator records at our names and
   * every SOA, DNSSEC and child-zone record untouched - if and only if live shares an apex
   * NS with the snapshot (or has none) and no addition conflicts with the snapshot's CNAMEs.
   */
  lemma RestoreExact(sv: Server, own: string -> bool, want: Zone, live: Zone, redo: set<Ident>,
                     dels: seq<Ident>, adds: seq<Ident>)
    requires IsPlan(own, want, live, redo, dels, adds) && own(sv.apex)
    ensures forall i :: 0 <= i < |adds| ==> adds[i] in want
    ensures RestoredExactly(own, want, live, redo, Restored(sv, live, want, dels, adds))
            <==> SharesNs(sv, want, live) && AddsFit(own, want, live, redo)
  {
    if SharesNs(sv, want, live) && AddsFit(own, want, live, redo) {
      RestoreSucceeds(sv, own, want, live, redo, dels, adds);
    } else {
      RestoreFails(sv, own, want, live, redo, dels, adds);
    }
  }

  /** Without a shared apex NS: the last one of the live zone stays beside the snapshot's. */
  lemma DisjointNsStays(sv: Server)
    ensures var a, b := Ident(sv.apex, NS, "a."), Ident(sv.apex, NS, "b.");
            var live, want := map[a := 1], map[b := 1];
            && IsPlan(name => true, want, live, {}, [a], [b]) && !SharesNs(sv, want, live)
            && Restored(sv, live, want, [a], [b]) == map[a := 1, b := 1]
  {
    var a, b := Ident(sv.apex, NS, "a."), Ident(sv.apex, NS, "b.");
    var live, want := map[a := 1], map[b := 1];
    assert a != b;
    var ops := DelOps([a]) + AddOps([b], want);
    assert ops == [DelRr(a), Add(b, 1)];
    assert ops[1..] == [Add(b, 1)] && ops[1..][1..] == [];
    assert LastNs(sv, live, a);
    assert DelOne(sv, live, a) == live;
    assert PerformAll(sv, live, ops[1..]) == AddOne(sv, live, b, 1);
    assert AddOne(sv, live, b, 1) == map[a := 1, b := 1];
  }

  /** After an exact restore a second plan has nothing to do. */
  lemma SecondPlanEmpty(sv: Server, own: string -> bool, want: Zone, live: Zone, redo: set<Ident>, now: Zone,
                        dels: seq<Ident>, adds: seq<Ident>)
    requires RestoredExactly(own, want, live, redo, now) && IsPlan(own, want, now, {}, dels, adds)
    ensures dels == [] && adds == []
  {
    HasMember(dels);
    HasMember(adds);
  }

  lemma HasMember(s: seq<Ident>)
    ensures s != [] ==> exists x :: x in s
  {
    if s != [] {
      assert s[0] in s;
    }
  }
}
