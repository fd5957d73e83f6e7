/**
 * What a restore may touch, by record type: SOA (6), RRSIG (46), NSEC (47), DNSKEY (48), NSEC3 (50),
 * NSEC3PARAM (51), CDS (59) and CDNSKEY (60) are the server's own, all other types the operator's.
 */
module RestoreScope {
  import opened Text
  import opened Ownership
  import opened RecordMut

  /** One list of a plan: only records of that side, none of the server's types. */
  lemma SideTypes(names: Names, a: seq<Record>, b: map<Key, Record>, out: seq<Record>, rr: Record)
    requires Difference(names, Keyed(names, a), b, out) && rr in out
    ensures rr in a && rr.rtype !in {6, 46, 47, 48, 50, 51, 59, 60}
  {
    KeyedMembers(names, a);
  }

  /** No operation of `restoreOps` is on a record of the server's types, whatever the lists. */
  lemma PlanTypes(names: Names, want: seq<Record>, live: seq<Record>, dels: seq<Record>, adds: seq<Record>)
    requires Difference(names, Keyed(names, live), Keyed(names, want), dels)
    requires Difference(names, Keyed(names, want), Keyed(names, live), adds)
    ensures forall rr :: rr in dels ==> rr in live && rr.rtype !in {6, 46, 47, 48, 50, 51, 59, 60}
    ensures forall rr :: rr in adds ==> rr in want && rr.rtype !in {6, 46, 47, 48, 50, 51, 59, 60}
  {
    forall rr | rr in dels ensures rr in live && rr.rtype !in {6, 46, 47, 48, 50, 51, 59, 60} {
      SideTypes(names, live, Keyed(names, want), dels, rr);
    }
    forall rr | rr in adds ensures rr in want && rr.rtype !in {6, 46, 47, 48, 50, 51, 59, 60} {
      SideTypes(names, want, Keyed(names, live), adds, rr);
    }
  }

  /** Each side of a plan is listed by text. */
  lemma SideInOrder(names: Names, a: map<Key, Record>, b: map<Key, Record>, out: seq<Record>, i: nat, j: nat)
    requires Difference(names, a, b, out) && i < j < |out|
    ensures !Less(TextOf(names, out[j]), TextOf(names, out[i]))
  {
    assert !TextLess(names)(out[j], out[i]);
  }

  /** A snapshot is restorable exactly if it has a record of a type that is not the server's own. */
  lemma RestorableIs(rrs: seq<Record>)
    ensures Restorable(rrs) <==> exists rr :: rr in rrs && rr.rtype !in {6, 46, 47, 48, 50, 51, 59, 60}
  {
    if rr :| rr in rrs && rr.rtype !in {6, 46, 47, 48, 50, 51, 59, 60} {
      var i :| 0 <= i < |rrs| && rrs[i] == rr;
    }
  }

  /** A record of any other type is listed under its key, unless the other side has that key. */
  lemma SideCovers(names: Names, a: seq<Record>, b: seq<Record>, out: seq<Record>, rr: Record)
    requires Difference(names, Keyed(names, a), Keyed(names, b), out)
    requires rr in a && rr.rtype !in {6, 46, 47, 48, 50, 51, 59, 60}
    requires forall x :: x in b ==> KeyOf(names, x) != KeyOf(names, rr)
    ensures exists x :: x in out && KeyOf(names, x) == KeyOf(names, rr)
  {
    KeyedMembers(names, a);
    KeyedMembers(names, b);
    var x := Keyed(names, a)[KeyOf(names, rr)];
    assert KeyOf(names, x) == KeyOf(names, rr);
    assert x in out;
  }

  /** Every record of another type that one list has and the other lacks is in the plan of `restoreOps`. */
  lemma PlanCovers(names: Names, want: seq<Record>, live: seq<Record>, dels: seq<Record>, adds: seq<Record>, rr: Record)
    requires Difference(names, Keyed(names, live), Keyed(names, want), dels)
    requires Difference(names, Keyed(names, want), Keyed(names, live), adds)
    requires rr.rtype !in {6, 46, 47, 48, 50, 51, 59, 60}
    ensures rr in live && (forall x :: x in want ==> KeyOf(names, x) != KeyOf(names, rr))
            ==> exists x :: x in dels && KeyOf(names, x) == KeyOf(names, rr)
    ensures rr in want && (forall x :: x in live ==> KeyOf(names, x) != KeyOf(names, rr))
            ==> exists x :: x in adds && KeyOf(names, x) == KeyOf(names, rr)
  {
    if rr in live && (forall x :: x in want ==> KeyOf(names, x) != KeyOf(names, rr)) {
      SideCovers(names, live, want, dels, rr);
    }
    if rr in want && (forall x :: x in live ==> KeyOf(names, x) != KeyOf(names, rr)) {
      SideCovers(names, want, live, adds, rr);
    }
  }

  /**
   * The plan of `RestorePlan`, seen by the server: exactly the records at names the target owns, of
   * types other than the server's own, that one zone has and the other lacks (or shows in another dress).
   */
  lemma PlanExactly(names: Names, zones: seq<string>, target: string,
                    want: seq<Record>, live: seq<Record>, dels: seq<Record>, adds: seq<Record>, id: U.Ident)
    requires Comparable(names, want, live) && Planned(names, zones, target, want, live, dels, adds)
    ensures id in Idents(dels)
            <==> && id in ZoneOf(live) && (id !in ZoneOf(want) || id in Redressed(names, want, live))
                 && MostSpecific(zones, id.name + ".") == target && id.rtype !in {6, 46, 47, 48, 50, 51, 59, 60}
    ensures id in Idents(adds)
            <==> && id in ZoneOf(want) && (id !in ZoneOf(live) || id in Redressed(names, want, live))
                 && MostSpecific(zones, id.name + ".") == target && id.rtype !in {6, 46, 47, 48, 50, 51, 59, 60}
  {
    PlanIsPlan(names, zones, target, want, live, dels, adds);
  }

  // ----- The zone after the restore -----

  /** No operation is on a record of the server's types. */
  predicate LeavesTypes(ops: seq<U.Op>) {
    forall i :: 0 <= i < |ops| ==>
      (ops[i].Add? || ops[i].DelRr?) && ops[i].id.rtype !in {6, 46, 47, 48, 50, 51, 59, 60}
  }

  predicate SameAt(z: U.Zone, now: U.Zone, id: U.Ident) {
    (id in now <==> id in z) && (id in z && id in now ==> now[id] == z[id])
  }

  lemma {:induction false} PerformLeaves(sv: U.Server, z: U.Zone, ops: seq<U.Op>, id: U.Ident)
    requires LeavesTypes(ops) && id.rtype in {6, 46, 47, 48, 50, 51, 59, 60}
    ensures SameAt(z, U.PerformAll(sv, z, ops), id)
    decreases |ops|
  {
    if ops != [] {
      PerformLeaves(sv, U.Perform(sv, z, ops[0]), ops[1..], id);
    }
  }

  lemma WireLeaves(dels: seq<Record>, adds: seq<Record>)
    requires forall rr :: rr in dels || rr in adds ==> rr.rtype !in {6, 46, 47, 48, 50, 51, 59, 60}
    ensures LeavesTypes(WireAll(Ops(DelRR, dels) + Ops(AddRR, adds)))
  {
    assert forall i :: 0 <= i < |dels| ==> dels[i] in dels;
    assert forall i :: 0 <= i < |adds| ==> adds[i] in adds;
  }

  /**
   * Whatever snapshot and live zone are, restored exactly or not: each record of the server's own
   * types is after the restore what it was before it.
   */
  lemma ServerTypesStay(sv: U.Server, names: Names, zones: seq<string>, target: string, z: U.Zone,
                        want: seq<Record>, live: seq<Record>, dels: seq<Record>, adds: seq<Record>, id: U.Ident)
    requires Planned(names, zones, target, want, live, dels, adds)
    requires id.rtype in {6, 46, 47, 48, 50, 51, 59, 60}
    ensures var now := U.PerformAll(sv, z, WireAll(Ops(DelRR, dels) + Ops(AddRR, adds)));
            (id in now <==> id in z) && (id in z && id in now ==> now[id] == z[id])
  {
    PlanTypes(names, OwnedBy(zones, target, want), OwnedBy(zones, target, live), dels, adds);
    WireLeaves(dels, adds);
    PerformLeaves(sv, z, WireAll(Ops(DelRR, dels) + Ops(AddRR, adds)), id);
  }
}
