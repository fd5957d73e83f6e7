/**
 * Snapshots and undo (internal/store/snapshots.go with `recordmut.Editor.Apply`): every change
 * to a dynamic zone stores the zone first; restoring a stored snapshot undoes the change.
 */
module Undo {
  import opened Update
  import opened Restore
  import opened Retention

  /** A row of the snapshot table: a zone's records as transferred before a change. */
  datatype Snapshot = Snapshot(zone: string, content: Zone)

  function IdsOf(rows: map<nat, Snapshot>, zone: string): set<nat> {
    set k | k in rows && rows[k].zone == zone
  }

  /** The ids that stay of a zone's: the newest `keep`, or all when `keep` is not positive. */
  function Retained(ids: set<nat>, keep: int): set<nat> {
    if keep <= 0 then ids else Newest(ids, keep)
  }

  /** Few enough later ids for this one to stay. */
  predicate StillKept(ids: set<nat>, keep: int, id: nat) {
    keep <= 0 || |Above(ids, id)| < keep
  }

  /** Insert a row, then delete the rows of its zone that are not among the newest `keep`. */
  function PutRow(rows: map<nat, Snapshot>, id: nat, snap: Snapshot, keep: int): map<nat, Snapshot> {
    var all := rows[id := snap];
    map k | k in all && (all[k].zone != snap.zone || k in Retained(IdsOf(all, snap.zone), keep)) :: all[k]
  }

  /** The snapshot table: rows by increasing id. */
  class SnapshotStore {
    var rows: map<nat, Snapshot>
    var last: nat

    ghost predicate Valid()
      reads this
    {
      forall k :: k in rows ==> k <= last
    }

    constructor ()
      ensures Valid() && rows == map[] && last == 0
    {
      rows, last := map[], 0;
    }

    /** `SnapshotPut`: insert and prune in one transaction. */
    method Put(snap: Snapshot, keep: int) returns (id: nat)
      requires Valid()
      modifies this
      ensures Valid() && id == old(last) + 1 && last == id
      ensures rows == PutRow(old(rows), id, snap, keep)
      ensures id in rows && rows[id] == snap
    {
      last := last + 1;
      id := last;
      var all := rows[id := snap];
      if keep > 0 {
        var ids := IdsOf(all, snap.zone);
        var left := Prune(ids, keep);
        assert id in left by {
          AddedNewestStays(ids - {id}, keep, id);
          assert ids - {id} + {id} == ids;
        }
        rows := map k | k in all && (all[k].zone != snap.zone || k in left) :: all[k];
      } else {
        rows := all;
        assert PutRow(old(rows), id, snap, keep) == all by {
          assert forall k :: k in all && all[k].zone == snap.zone ==> k in IdsOf(all, snap.zone);
        }
      }
    }

    /** `SnapshotByID`. */
    method ById(id: nat) returns (ok: bool, snap: Snapshot)
      ensures ok == (id in rows) && (ok ==> snap == rows[id])
    {
      if id in rows {
        return true, rows[id];
      }
      return false, Snapshot("", map[]);
    }

    /** `SnapshotLatest`: the highest id of the zone. */
    method Latest(zone: string) returns (ok: bool, id: nat)
      ensures ok == (IdsOf(rows, zone) != {})
      ensures ok ==> id in rows && rows[id].zone == zone && forall k :: k in rows && rows[k].zone == zone ==> k <= id
    {
      var todo := IdsOf(rows, zone);
      ok, id := false, 0;
      while todo != {}
        invariant todo <= IdsOf(rows, zone)
        invariant ok ==> id in IdsOf(rows, zone)
        invariant !ok ==> todo == IdsOf(rows, zone)
        invariant forall k :: k in IdsOf(rows, zone) ==> k in todo || (ok && k <= id)
        decreases |todo|
      {
        var k :| k in todo;
        if !ok || k > id {
          ok, id := true, k;
        }
        todo := todo - {k};
      }
      forall k | k in rows && rows[k].zone == zone ensures ok && k <= id {
        assert k in IdsOf(rows, zone);
      }
    }
  }

  // ----- Runs -----

  /** Each zone's server and authority, and the snapshots retained a zone: all if `keep` is not positive. */
  datatype Env = Env(server: string -> Server, own: (string, string) -> bool, keep: int)

  /** The zones, the snapshot table, and every snapshot ever taken: number `i` has id `i + 1`. */
  datatype World = World(zones: map<string, Zone>, rows: map<nat, Snapshot>, taken: seq<Snapshot>)

  datatype Action =
    | Change(zone: string, ops: seq<Op>)    // goddns: refused without operations, else snapshot and one UPDATE
    | Refused(zone: string)                 // goddns: snapshot, and an UPDATE the server refuses
    | Elsewhere(zone: string, ops: seq<Op>) // some other client's UPDATE

  /** The action stores a snapshot of its zone. */
  predicate Snaps(a: Action) {
    a.Refused? || (a.Change? && a.ops != [])
  }

  function Step(env: Env, w: World, a: Action): World {
    if a.zone !in w.zones then w
    else
      var z := w.zones[a.zone];
      var next := if a.Refused? then w else w.(zones := w.zones[a.zone := PerformAll(env.server(a.zone), z, a.ops)]);
      if !Snaps(a) then next
      else
        var snap := Snapshot(a.zone, z);
        next.(rows := PutRow(w.rows, |w.taken| + 1, snap, env.keep), taken := w.taken + [snap])
  }

  function Run(env: Env, w: World, actions: seq<Action>): World
    decreases |actions|
  {
    if actions == [] then w else Run(env, Step(env, w, actions[0]), actions[1..])
  }

  /** The ids of every snapshot of a zone ever taken. */
  function TakenIds(taken: seq<Snapshot>, zone: string): set<nat> {
    set i | 0 <= i < |taken| && taken[i].zone == zone :: i + 1
  }

  ghost predicate Inv(env: Env, w: World) {
    && (forall zn :: zn in w.zones ==> Consistent(w.zones[zn]))
    && (forall i :: 0 <= i < |w.taken| ==> Consistent(w.taken[i].content) && w.taken[i].zone in w.zones)
    && (forall k :: k in w.rows ==> 1 <= k <= |w.taken| && w.rows[k] == w.taken[k - 1])
    && (forall zn :: IdsOf(w.rows, zn) == Retained(TakenIds(w.taken, zn), env.keep))
  }

  lemma TakenGrows(taken: seq<Snapshot>, snap: Snapshot, zone: string)
    ensures TakenIds(taken + [snap], zone) == TakenIds(taken, zone) + (if snap.zone == zone then {|taken| + 1} else {})
  {
    var all := taken + [snap];
    forall x | x in TakenIds(all, zone)
      ensures x in TakenIds(taken, zone) + (if snap.zone == zone then {|taken| + 1} else {})
    {
      var i :| 0 <= i < |all| && all[i].zone == zone && x == i + 1;
      assert i < |taken| ==> taken[i] == all[i];
    }
    forall x | x in TakenIds(taken, zone) ensures x in TakenIds(all, zone) {
      var i :| 0 <= i < |taken| && taken[i].zone == zone && x == i + 1;
      assert all[i] == taken[i];
    }
    if snap.zone == zone {
      assert all[|taken|] == snap;
    }
  }

  /** A put prunes its own zone and leaves every other zone's rows alone. */
  lemma PutIds(rows: map<nat, Snapshot>, id: nat, snap: Snapshot, keep: int, zn: string)
    requires id !in rows
    ensures IdsOf(PutRow(rows, id, snap, keep), zn)
            == if zn == snap.zone then Retained(IdsOf(rows, zn) + {id}, keep) else IdsOf(rows, zn)
  {
    var all := rows[id := snap];
    assert IdsOf(all, snap.zone) == IdsOf(rows, snap.zone) + {id};
  }

  lemma PutKeepsNewest(env: Env, w: World, snap: Snapshot, zn: string)
    requires |w.taken| + 1 !in w.rows
    requires IdsOf(w.rows, zn) == Retained(TakenIds(w.taken, zn), env.keep)
    ensures IdsOf(PutRow(w.rows, |w.taken| + 1, snap, env.keep), zn)
            == Retained(TakenIds(w.taken + [snap], zn), env.keep)
  {
    var id := |w.taken| + 1;
    TakenGrows(w.taken, snap, zn);
    PutIds(w.rows, id, snap, env.keep, zn);
    if zn == snap.zone {
      if env.keep > 0 {
        PruneStep(TakenIds(w.taken, zn), env.keep, id);
      }
    } else {
      assert TakenIds(w.taken, zn) + {} == TakenIds(w.taken, zn);
    }
  }

  /** Before any snapshot, consistent zones satisfy the invariant. */
  lemma InitialInv(env: Env, zones: map<string, Zone>)
    requires forall zn :: zn in zones ==> Consistent(zones[zn])
    ensures Inv(env, World(zones, map[], []))
  {
    var w := World(zones, map[], []);
    forall zn ensures IdsOf(w.rows, zn) == Retained(TakenIds(w.taken, zn), env.keep) {
      assert IdsOf(w.rows, zn) == {} && TakenIds(w.taken, zn) == {};
    }
  }

  lemma StepKeepsInv(env: Env, w: World, a: Action)
    requires Inv(env, w)
    ensures Inv(env, Step(env, w, a))
  {
    if a.zone in w.zones {
      var t, z := Step(env, w, a), w.zones[a.zone];
      if !a.Refused? {
        UpdatesKeep(env.server(a.zone), z, a.ops);
      }
      if Snaps(a) {
        var snap := Snapshot(a.zone, z);
        forall zn ensures IdsOf(t.rows, zn) == Retained(TakenIds(t.taken, zn), env.keep) {
          PutKeepsNewest(env, w, snap, zn);
        }
        forall k | k in t.rows ensures 1 <= k <= |t.taken| && t.rows[k] == t.taken[k - 1] {
        }
      }
    }
  }

  /** Over every run the table holds, for each zone, exactly the newest `keep` snapshots (or all), unaltered. */
  lemma {:induction false} RunKeepsInv(env: Env, w: World, actions: seq<Action>)
    requires Inv(env, w)
    ensures Inv(env, Run(env, w, actions))
    ensures w.taken <= Run(env, w, actions).taken
    decreases |actions|
  {
    if actions != [] {
      StepKeepsInv(env, w, actions[0]);
      RunKeepsInv(env, Step(env, w, actions[0]), actions[1..]);
    }
  }

  /** The zones as they were before each change sent, accepted or refused, in order. */
  function BeforeChanges(env: Env, w: World, actions: seq<Action>): seq<Snapshot>
    decreases |actions|
  {
    if actions == [] then []
    else
      var a := actions[0];
      (if a.zone in w.zones && (a.Refused? || (a.Change? && a.ops != [])) then [Snapshot(a.zone, w.zones[a.zone])]
       else [])
      + BeforeChanges(env, Step(env, w, a), actions[1..])
  }

  /** Every change that goddns sends is preceded by a snapshot of its zone, and nothing else takes one. */
  lemma {:induction false} ChangesAreSnapped(env: Env, w: World, actions: seq<Action>)
    ensures Run(env, w, actions).taken == w.taken + BeforeChanges(env, w, actions)
    decreases |actions|
  {
    if actions == [] {
      assert w.taken + [] == w.taken;
    } else {
      ChangesAreSnapped(env, Step(env, w, actions[0]), actions[1..]);
    }
  }

  /** The rows of one zone, by id. */
  function RowsOf(rows: map<nat, Snapshot>, zone: string): map<nat, Snapshot> {
    map k | k in rows && rows[k].zone == zone :: rows[k]
  }

  /**
   * In every run from an empty table it holds, of each zone's snapshots ever taken, as many as
   * `keep` allows (all of them if `keep` is not positive), each as it was taken, and none of those
   * that went is newer than one that stayed.
   */
  lemma NewestSnapshotsStay(env: Env, zones: map<string, Zone>, actions: seq<Action>, zn: string)
    requires forall z :: z in zones ==> Consistent(zones[z])
    ensures var w := Run(env, World(zones, map[], []), actions);
            var held, all := RowsOf(w.rows, zn), TakenIds(w.taken, zn);
            && (forall k :: k in held ==> k in all && 1 <= k <= |w.taken| && held[k] == w.taken[k - 1])
            && |held| == (if env.keep > 0 && |all| > env.keep then env.keep else |all|)
            && (forall a, b :: a in held && b in all && b !in held ==> a > b)
  {
    InitialInv(env, zones);
    RunKeepsInv(env, World(zones, map[], []), actions);
    var w := Run(env, World(zones, map[], []), actions);
    var held, all := RowsOf(w.rows, zn), TakenIds(w.taken, zn);
    assert held.Keys == IdsOf(w.rows, zn) == Retained(all, env.keep);
    assert |held| == |held.Keys|;
    if env.keep > 0 {
      NewestSize(all, env.keep);
      forall a, b | a in held && b in all && b !in held ensures a > b {
        NewestOrder(all, env.keep, a, b);
      }
    }
  }

  // ----- Undo -----

  /** The zone has records for a restore to re-create. */
  ghost predicate HasOurs(own: string -> bool, z: Zone) {
    exists id :: id in z && Ours(own, id)
  }

  /** `RestorePlan`, and `Apply` if there is something to do: a snapshot without our records is refused. */
  ghost function AfterRestore(env: Env, w: World, zn: string, want: Zone, dels: seq<Ident>, adds: seq<Ident>): World
    requires forall i :: 0 <= i < |adds| ==> adds[i] in want
  {
    if !HasOurs(name => env.own(zn, name), want) then w
    else Step(env, w, Change(zn, DelOps(dels) + AddOps(adds, want)))
  }

  /** One restore to a consistent snapshot `want`, in any reachable world. */
  lemma UndoStep(env: Env, w: World, zn: string, want: Zone, dels: seq<Ident>, adds: seq<Ident>)
    requires Inv(env, w) && zn in w.zones && Consistent(want)
    requires env.own(zn, env.server(zn).apex)
    requires IsPlan(name => env.own(zn, name), want, w.zones[zn], {}, dels, adds)
    ensures forall i :: 0 <= i < |adds| ==> adds[i] in want
    ensures RestoreDone(env, w, zn, want, dels, adds)
  {
    var own := name => env.own(zn, name);
    ConsistentAddsFit(own, want, w.zones[zn]);
    RestoreExact(env.server(zn), own, want, w.zones[zn], {}, dels, adds);
    var change := Change(zn, DelOps(dels) + AddOps(adds, want));
    if Snaps(change) {
      SnapshotOfUndo(env, w, change);
    }
    if !HasOurs(own, want) {
      RefusedExact(env.server(zn), own, want, w.zones[zn]);
    }
  }

  /** Without a restore, the zone is as wanted exactly if there is nothing of ours in it either. */
  lemma RefusedExact(sv: Server, own: string -> bool, want: Zone, live: Zone)
    requires !HasOurs(own, want) && own(sv.apex)
    ensures RestoredExactly(own, want, live, {}, live) <==> !HasOurs(own, live)
    ensures !HasOurs(own, live) ==> SharesNs(sv, want, live)
  {
    forall k | k in live && !HasOurs(own, live) ensures !IsApexNs(sv, k) {
      assert !Ours(own, k);
    }
    if HasOurs(own, live) {
      var id :| id in live && Ours(own, id);
      assert id !in want;
    }
  }

  /** What a restore does: when it is exact, that it touches no other zone, and its own snapshot. */
  ghost predicate RestoreDone(env: Env, w: World, zn: string, want: Zone, dels: seq<Ident>, adds: seq<Ident>)
    requires zn in w.zones && forall i :: 0 <= i < |adds| ==> adds[i] in want
  {
    var own := name => env.own(zn, name);
    var done := AfterRestore(env, w, zn, want, dels, adds);
    && zn in done.zones
    && (RestoredExactly(own, want, w.zones[zn], {}, done.zones[zn])
        <==> SharesNs(env.server(zn), want, w.zones[zn]) && (HasOurs(own, want) || !HasOurs(own, w.zones[zn])))
    && (forall other :: other != zn && other in w.zones ==> other in done.zones && done.zones[other] == w.zones[other])
    && (if HasOurs(own, want) && (dels != [] || adds != []) then
          |w.taken| + 1 in done.rows && done.rows[|w.taken| + 1] == Snapshot(zn, w.zones[zn])
        else done == w)
  }

  lemma ConsistentAddsFit(own: string -> bool, want: Zone, live: Zone)
    requires Consistent(want)
    ensures AddsFit(own, want, live, {})
  {
  }

  /**
   * Undo over whole runs. Take any reachable world, a change to a zone, and any further updates
   * by goddns or others. While the snapshot taken before the change is among the newest `keep`
   * of its zone (always, if `keep` is not positive) it is still in the table, and it is the zone as it was.
   * Restoring it then, with no update between transfer and UPDATE, gives back exactly the zone's operator
   * records from before the change - if and only if the zone now shares an apex NS with the snapshot (or has
   * none), and the snapshot has operator records if the zone does - and touches no other zone. If there is
   * anything to do it stores its own snapshot, so it can be undone as well.
   */
  lemma UndoChange(env: Env, w: World, zn: string, ops: seq<Op>, more: seq<Action>, later: World,
                   dels: seq<Ident>, adds: seq<Ident>)
    requires Inv(env, w) && zn in w.zones && env.own(zn, env.server(zn).apex) && ops != []
    requires later == Run(env, Step(env, w, Change(zn, ops)), more) && zn in later.zones
    requires StillKept(TakenIds(later.taken, zn), env.keep, |w.taken| + 1)
    requires IsPlan(name => env.own(zn, name), w.zones[zn], later.zones[zn], {}, dels, adds)
    ensures |w.taken| + 1 in later.rows && later.rows[|w.taken| + 1] == Snapshot(zn, w.zones[zn])
    ensures forall i :: 0 <= i < |adds| ==> adds[i] in w.zones[zn]
    ensures RestoreDone(env, later, zn, w.zones[zn], dels, adds)
  {
    SnapshotSurvives(env, w, zn, ops, more);
    UndoStep(env, later, zn, w.zones[zn], dels, adds);
  }

  /** The snapshot taken before a change is in the table while it is among the newest, and unaltered. */
  lemma SnapshotSurvives(env: Env, w: World, zn: string, ops: seq<Op>, more: seq<Action>)
    requires Inv(env, w) && zn in w.zones && ops != []
    requires StillKept(TakenIds(Run(env, Step(env, w, Change(zn, ops)), more).taken, zn), env.keep, |w.taken| + 1)
    ensures var id, later := |w.taken| + 1, Run(env, Step(env, w, Change(zn, ops)), more);
            && Inv(env, later) && id in later.rows && later.rows[id] == Snapshot(zn, w.zones[zn])
            && Consistent(w.zones[zn])
  {
    var id, changed := |w.taken| + 1, Step(env, w, Change(zn, ops));
    var later := Run(env, changed, more);
    StepKeepsInv(env, w, Change(zn, ops));
    RunKeepsInv(env, changed, more);
    assert later.taken[|w.taken|] == changed.taken[|w.taken|] == Snapshot(zn, w.zones[zn]);
    assert id in TakenIds(later.taken, zn);
    assert id in IdsOf(later.rows, zn);
  }

  /** The newest snapshot is never pruned. */
  lemma SnapshotOfUndo(env: Env, w: World, a: Action)
    requires Inv(env, w) && Snaps(a) && a.zone in w.zones
    ensures var t := Step(env, w, a);
            |w.taken| + 1 in t.rows && t.rows[|w.taken| + 1] == Snapshot(a.zone, w.zones[a.zone])
  {
    var t, id := Step(env, w, a), |w.taken| + 1;
    StepKeepsInv(env, w, a);
    TakenGrows(w.taken, Snapshot(a.zone, w.zones[a.zone]), a.zone);
    if env.keep > 0 {
      AddedNewestStays(TakenIds(w.taken, a.zone), env.keep, id);
    }
    assert id in IdsOf(t.rows, a.zone);
  }
}
