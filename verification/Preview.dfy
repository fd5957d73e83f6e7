/** The preview of a change (`buildResult` of internal/recordmut): what it says will be added and removed. */
module Preview {
  import opened Text
  import opened RecordMut

  /** The first record with a key, as a list of at most one. */
  function FirstWithKey(names: Names, key: Key, live: seq<Record>): seq<Record> {
    if live == [] then []
    else if KeyOf(names, live[0]) == key then [live[0]]
    else FirstWithKey(names, key, live[1..])
  }

  /** The records at a name, of one type or (without one) of any. */
  function Named(name: string, rtype: Option<nat>, live: seq<Record>): seq<Record> {
    if live == [] then []
    else
      var n := |live| - 1;
      Named(name, rtype, live[..n])
      + (if EqualFold(live[n].name, name) && (rtype.None? || live[n].rtype == rtype.value) then [live[n]] else [])
  }

  /** What the preview lists as removed by one operation. */
  function RemovedBy(names: Names, op: Op, live: seq<Record>): seq<Record> {
    match op.action
    case AddRR => []
    case DelRR => FirstWithKey(names, KeyOf(names, op.rr), live)
    case DelRRset => Named(op.rr.name, Some(op.rr.rtype), live)
    case DelName => Named(op.rr.name, None, live)
  }

  function RemovedByAll(names: Names, ops: seq<Op>, live: seq<Record>): seq<Record> {
    if ops == [] then []
    else var n := |ops| - 1; RemovedByAll(names, ops[..n], live) + RemovedBy(names, ops[n], live)
  }

  function AddedByAll(ops: seq<Op>): seq<Record> {
    if ops == [] then []
    else var n := |ops| - 1; AddedByAll(ops[..n]) + (if ops[n].action.AddRR? then [ops[n].rr] else [])
  }

  function Texts(names: Names, rrs: seq<Record>): (r: seq<string>)
    ensures |r| == |rrs| && forall i :: 0 <= i < |r| ==> r[i] == TextOf(names, rrs[i])
  {
    seq(|rrs|, i requires 0 <= i < |rrs| => TextOf(names, rrs[i]))
  }

  method ListFirst(names: Names, key: Key, live: seq<Record>) returns (out: seq<string>)
    ensures out == Texts(names, FirstWithKey(names, key, live))
  {
    for i := 0 to |live|
      invariant FirstWithKey(names, key, live) == FirstWithKey(names, key, live[i..])
    {
      if KeyOf(names, live[i]) == key {
        return [TextOf(names, live[i])];
      }
    }
    return [];
  }

  method ListNamed(names: Names, name: string, rtype: Option<nat>, live: seq<Record>) returns (out: seq<string>)
    ensures out == Texts(names, Named(name, rtype, live))
  {
    out := [];
    for i := 0 to |live|
      invariant out == Texts(names, Named(name, rtype, live[..i]))
    {
      assert live[..i + 1][..i] == live[..i];
      if EqualFold(live[i].name, name) && (rtype.None? || live[i].rtype == rtype.value) {
        out := out + [TextOf(names, live[i])];
      }
    }
    assert live[..|live|] == live;
  }

  lemma TextsConcat(names: Names, a: seq<Record>, b: seq<Record>)
    ensures Texts(names, a + b) == Texts(names, a) + Texts(names, b)
  {
  }

  method ListRemoved(names: Names, op: Op, live: seq<Record>) returns (out: seq<string>)
    ensures out == Texts(names, RemovedBy(names, op, live))
  {
    match op.action
    case AddRR => out := [];
    case DelRR => out := ListFirst(names, KeyOf(names, op.rr), live);
    case DelRRset => out := ListNamed(names, op.rr.name, Some(op.rr.rtype), live);
    case DelName => out := ListNamed(names, op.rr.name, None, live);
  }

  lemma RemovedStep(names: Names, ops: seq<Op>, live: seq<Record>, i: nat)
    requires i < |ops|
    ensures Texts(names, RemovedByAll(names, ops[..i + 1], live))
            == Texts(names, RemovedByAll(names, ops[..i], live)) + Texts(names, RemovedBy(names, ops[i], live))
  {
    assert ops[..i + 1][..i] == ops[..i];
    TextsConcat(names, RemovedByAll(names, ops[..i], live), RemovedBy(names, ops[i], live));
  }

  lemma AddedStep(names: Names, ops: seq<Op>, i: nat)
    requires i < |ops|
    ensures Texts(names, AddedByAll(ops[..i + 1]))
            == Texts(names, AddedByAll(ops[..i])) + (if ops[i].action.AddRR? then [TextOf(names, ops[i].rr)] else [])
  {
    assert ops[..i + 1][..i] == ops[..i];
    TextsConcat(names, AddedByAll(ops[..i]), if ops[i].action.AddRR? then [ops[i].rr] else []);
  }

  /** `buildResult`. */
  method BuildResult(names: Names, ops: seq<Op>, live: seq<Record>) returns (added: seq<string>, removed: seq<string>)
    ensures added == Texts(names, AddedByAll(ops))
    ensures removed == Texts(names, RemovedByAll(names, ops, live))
  {
    added, removed := [], [];
    for i := 0 to |ops|
      invariant added == Texts(names, AddedByAll(ops[..i]))
      invariant removed == Texts(names, RemovedByAll(names, ops[..i], live))
    {
      AddedStep(names, ops, i);
      RemovedStep(names, ops, live, i);
      if ops[i].action.AddRR? {
        added := added + [TextOf(names, ops[i].rr)];
      }
      var more := ListRemoved(names, ops[i], live);
      removed := removed + more;
    }
    assert ops[..|ops|] == ops;
  }

  // ----- The preview of a restore -----

  lemma {:induction false} FirstWithKeyIs(names: Names, key: Key, live: seq<Record>)
    ensures var r := FirstWithKey(names, key, live);
            && |r| <= 1 && (forall rr :: rr in r ==> rr in live && KeyOf(names, rr) == key)
            && (forall rr :: rr in live && KeyOf(names, rr) == key ==> |r| == 1)
  {
    if live != [] && KeyOf(names, live[0]) != key {
      FirstWithKeyIs(names, key, live[1..]);
      assert live == [live[0]] + live[1..];
    }
  }

  lemma {:induction false} DelsAddNothing(dels: seq<Record>)
    ensures AddedByAll(Ops(DelRR, dels)) == []
  {
    if dels != [] {
      var n := |dels| - 1;
      assert Ops(DelRR, dels)[..n] == Ops(DelRR, dels[..n]);
      DelsAddNothing(dels[..n]);
    }
  }

  predicate SameKey(names: Names, a: Record, b: Record) {
    KeyOf(names, a) == KeyOf(names, b)
  }

  predicate SameKeys(names: Names, a: seq<Record>, b: seq<Record>) {
    |a| == |b| && forall i :: 0 <= i < |a| ==> SameKey(names, a[i], b[i])
  }

  lemma FirstOf(names: Names, rr: Record, live: seq<Record>)
    requires rr in live
    ensures var r := FirstWithKey(names, KeyOf(names, rr), live);
            |r| == 1 && r[0] in live && KeyOf(names, r[0]) == KeyOf(names, rr)
  {
    FirstWithKeyIs(names, KeyOf(names, rr), live);
    var r := FirstWithKey(names, KeyOf(names, rr), live);
    assert r[0] in r;
  }

  lemma RemovedSnoc(names: Names, dels: seq<Record>, live: seq<Record>)
    requires dels != []
    ensures var n := |dels| - 1;
            RemovedByAll(names, Ops(DelRR, dels), live)
            == RemovedByAll(names, Ops(DelRR, dels[..n]), live) + FirstWithKey(names, KeyOf(names, dels[n]), live)
  {
    var n := |dels| - 1;
    assert Ops(DelRR, dels)[..n] == Ops(DelRR, dels[..n]);
  }

  predicate Within(rrs: seq<Record>, live: seq<Record>) {
    forall i :: 0 <= i < |rrs| ==> rrs[i] in live
  }

  /** The previewed removals are live records, one for each deletion and with its key. */
  predicate Shows(names: Names, removed: seq<Record>, dels: seq<Record>, live: seq<Record>) {
    SameKeys(names, removed, dels) && Within(removed, live)
  }

  lemma SameKeysSnoc(names: Names, a: seq<Record>, b: seq<Record>, x: Record, y: Record)
    requires SameKeys(names, a, b) && SameKey(names, x, y)
    ensures SameKeys(names, a + [x], b + [y])
  {
    forall i | 0 <= i < |a + [x]| ensures SameKey(names, (a + [x])[i], (b + [y])[i]) {
      if i < |a| {
        assert SameKey(names, a[i], b[i]);
      }
    }
  }

  lemma WithinSnoc(a: seq<Record>, live: seq<Record>, x: Record)
    requires Within(a, live) && x in live
    ensures Within(a + [x], live)
  {
  }

  lemma ShowsSnoc(names: Names, removed: seq<Record>, dels: seq<Record>, live: seq<Record>, f: seq<Record>, x: Record)
    requires Shows(names, removed, dels, live)
    requires |f| == 1 && f[0] in live && SameKey(names, f[0], x)
    ensures Shows(names, removed + f, dels + [x], live)
  {
    assert f == [f[0]];
    SameKeysSnoc(names, removed, dels, f[0], x);
    WithinSnoc(removed, live, f[0]);
  }

  lemma WithinFront(rrs: seq<Record>, live: seq<Record>)
    requires Within(rrs, live) && rrs != []
    ensures Within(rrs[..|rrs| - 1], live) && rrs[|rrs| - 1] in live
  {
  }

  lemma PreviewOfDel(names: Names, front: seq<Record>, x: Record, live: seq<Record>)
    requires DelsShow(names, front, live) && x in live
    ensures DelsShow(names, front + [x], live)
  {
    FirstOf(names, x, live);
    var all, f := front + [x], FirstWithKey(names, KeyOf(names, x), live);
    assert all[..|front|] == front;
    RemovedSnoc(names, all, live);
    ShowsSnoc(names, RemovedByAll(names, Ops(DelRR, front), live), front, live, f, x);
  }

  predicate DelsShow(names: Names, dels: seq<Record>, live: seq<Record>) {
    Shows(names, RemovedByAll(names, Ops(DelRR, dels), live), dels, live)
  }

  lemma NoDelsShow(names: Names, live: seq<Record>)
    ensures DelsShow(names, [], live)
  {
    assert Ops(DelRR, []) == [];
    assert RemovedByAll(names, [], live) == [];
  }

  /** Induction over a list grown at its end. */
  lemma {:induction false} GrowAtEnd(p: seq<Record> -> bool, live: seq<Record>, rrs: seq<Record>)
    requires p([]) && forall front, x :: p(front) && x in live ==> p(front + [x])
    requires Within(rrs, live)
    ensures p(rrs)
    decreases |rrs|
  {
    if rrs != [] {
      WithinFront(rrs, live);
      GrowAtEnd(p, live, rrs[..|rrs| - 1]);
      assert rrs == rrs[..|rrs| - 1] + [rrs[|rrs| - 1]];
    }
  }

  lemma PreviewOfDels(names: Names, dels: seq<Record>, live: seq<Record>)
    requires Within(dels, live)
    ensures DelsShow(names, dels, live)
  {
    var p := (rrs: seq<Record>) => DelsShow(names, rrs, live);
    NoDelsShow(names, live);
    forall front, x | p(front) && x in live ensures p(front + [x]) {
      PreviewOfDel(names, front, x, live);
    }
    GrowAtEnd(p, live, dels);
  }

  lemma PreviewOfAdd(names: Names, ops: seq<Op>, x: Record, live: seq<Record>)
    ensures AddedByAll(ops + [Op(AddRR, x)]) == AddedByAll(ops) + [x]
    ensures RemovedByAll(names, ops + [Op(AddRR, x)], live) == RemovedByAll(names, ops, live)
  {
    var all := ops + [Op(AddRR, x)];
    assert all[..|all| - 1] == ops;
  }

  lemma {:induction false} PreviewOfAdds(names: Names, dels: seq<Op>, adds: seq<Record>, live: seq<Record>)
    ensures AddedByAll(dels + Ops(AddRR, adds)) == AddedByAll(dels) + adds
    ensures RemovedByAll(names, dels + Ops(AddRR, adds), live) == RemovedByAll(names, dels, live)
    decreases |adds|
  {
    if adds == [] {
      assert dels + Ops(AddRR, adds) == dels;
    } else {
      var front, x := adds[..|adds| - 1], adds[|adds| - 1];
      assert dels + Ops(AddRR, adds) == (dels + Ops(AddRR, front)) + [Op(AddRR, x)];
      PreviewOfAdds(names, dels, front, live);
      PreviewOfAdd(names, dels + Ops(AddRR, front), x, live);
      assert AddedByAll(dels) + adds == (AddedByAll(dels) + front) + [x];
    }
  }

  /** The live records a plan is previewed against: all of them, or those the zone owns. */
  ghost predicate ShowsOwned(zones: seq<string>, target: string, live: seq<Record>, shown: seq<Record>) {
    (forall rr :: rr in OwnedBy(zones, target, live) ==> rr in shown) && (forall rr :: rr in shown ==> rr in live)
  }

  lemma DelsShown(names: Names, zones: seq<string>, target: string, want: seq<Record>, live: seq<Record>,
                  dels: seq<Record>, adds: seq<Record>, shown: seq<Record>)
    requires Planned(names, zones, target, want, live, dels, adds) && ShowsOwned(zones, target, live, shown)
    ensures Within(dels, shown)
  {
    KeyedMembers(names, OwnedBy(zones, target, live));
    forall i | 0 <= i < |dels| ensures dels[i] in shown {
      assert dels[i] in dels;
    }
  }

  lemma SameKeysSameIdents(names: Names, live: seq<Record>, removed: seq<Record>, dels: seq<Record>)
    requires Faithful(names, live) && SameKeys(names, removed, dels) && Within(removed, live) && Within(dels, live)
    ensures Idents(removed) == Idents(dels)
  {
    forall i | 0 <= i < |dels| ensures IdentOf(removed[i]) == IdentOf(dels[i]) {
      assert KeyAgrees(names, removed[i], dels[i]);
    }
  }

  /**
   * The preview of a restore is the restore: it lists as added the snapshot's records of ours
   * that live lacks, and as removed, each once, live's records of ours that the snapshot lacks;
   * a record the two show in different dress is listed on both sides.
   */
  lemma RestorePreview(names: Names, zones: seq<string>, target: string, want: seq<Record>, live: seq<Record>,
                       dels: seq<Record>, adds: seq<Record>, shown: seq<Record>)
    requires Comparable(names, want, live) && ShowsOwned(zones, target, live, shown)
    requires Planned(names, zones, target, want, live, dels, adds)
    ensures var ops := Ops(DelRR, dels) + Ops(AddRR, adds);
            var removed := RemovedByAll(names, ops, shown);
            && AddedByAll(ops) == adds
            && Idents(removed) == Idents(dels)
            && var own, redo := Own(zones, target), Redressed(names, want, live);
            && (forall id :: id in Idents(removed)
                  <==> id in ZoneOf(live) && R.Ours(own, id) && (id !in ZoneOf(want) || id in redo))
            && (forall id :: id in Idents(adds)
                  <==> id in ZoneOf(want) && R.Ours(own, id) && (id !in ZoneOf(live) || id in redo))
  {
    DelsShown(names, zones, target, want, live, dels, adds, shown);
    DelsAddNothing(dels);
    PreviewOfDels(names, dels, shown);
    PreviewOfAdds(names, Ops(DelRR, dels), adds, shown);
    SameKeysSameIdents(names, live, RemovedByAll(names, Ops(DelRR, dels), shown), dels);
    PlanIsPlan(names, zones, target, want, live, dels, adds);
  }

  /** On known types the preview of a restore lists exactly the two set differences. */
  lemma RestorePreviewKnown(names: Names, zones: seq<string>, target: string, want: seq<Record>, live: seq<Record>,
                            dels: seq<Record>, adds: seq<Record>, shown: seq<Record>)
    requires ValidNames(names) && U.NS in names.types && Known(names, want) && Known(names, live)
    requires ShowsOwned(zones, target, live, shown) && Planned(names, zones, target, want, live, dels, adds)
    ensures var ops, own := Ops(DelRR, dels) + Ops(AddRR, adds), Own(zones, target);
            && (forall id :: id in Idents(RemovedByAll(names, ops, shown))
                  <==> id in ZoneOf(live) && R.Ours(own, id) && id !in ZoneOf(want))
            && (forall id :: id in Idents(AddedByAll(ops))
                  <==> id in ZoneOf(want) && R.Ours(own, id) && id !in ZoneOf(live))
  {
    KnownComparable(names, want, live);
    RestorePreview(names, zones, target, want, live, dels, adds, shown);
  }

  // ----- What a deletion selects -----

  predicate Qualified(name: string) {
    name != "" && name[|name| - 1] == '.'
  }

  lemma FoldIsCanon(a: string, b: string)
    requires Qualified(a) && Qualified(b)
    ensures EqualFold(a, b) <==> Canon(a) == Canon(b)
  {
    if EqualFold(a, b) {
      assert Canon(a) == Upper(a)[..|a| - 1] && Canon(b) == Upper(b)[..|b| - 1];
    }
    if Canon(a) == Canon(b) {
      assert |a| == |b|;
      assert forall i :: 0 <= i < |a| - 1 ==> Upper(a)[i] == Canon(a)[i] && Upper(b)[i] == Canon(b)[i];
    }
  }

  /** The operation deletes records like this one. */
  predicate Selects(op: Op, id: U.Ident) {
    match op.action
    case AddRR => false
    case DelRR => id == IdentOf(op.rr)
    case DelRRset => id.name == Canon(op.rr.name) && id.rtype == op.rr.rtype
    case DelName => id.name == Canon(op.rr.name)
  }

  predicate SelectedBy(ops: seq<Op>, id: U.Ident) {
    exists i :: 0 <= i < |ops| && Selects(ops[i], id)
  }

  lemma {:induction false} NamedIs(name: string, rtype: Option<nat>, live: seq<Record>)
    ensures forall rr :: rr in Named(name, rtype, live)
              <==> rr in live && EqualFold(rr.name, name) && (rtype.None? || rr.rtype == rtype.value)
  {
    if live != [] {
      var n := |live| - 1;
      NamedIs(name, rtype, live[..n]);
      assert live == live[..n] + [live[n]];
    }
  }

  /** Names are fully qualified, and the key of a record to delete tells live records apart as the server does. */
  ghost predicate Tame(names: Names, op: Op, live: seq<Record>) {
    && Qualified(op.rr.name)
    && (forall rr :: rr in live ==> Qualified(rr.name))
    && (op.action.DelRR? ==> forall rr :: rr in live ==> KeyAgrees(names, rr, op.rr))
  }

  lemma RemovedAreSelected(names: Names, op: Op, live: seq<Record>, rr: Record)
    requires Tame(names, op, live) && rr in RemovedBy(names, op, live)
    ensures rr in live && Selects(op, IdentOf(rr))
  {
    if op.action.DelRR? {
      FirstWithKeyIs(names, KeyOf(names, op.rr), live);
      assert KeyAgrees(names, rr, op.rr);
    } else {
      NamedIs(op.rr.name, if op.action.DelRRset? then Some(op.rr.rtype) else None, live);
      FoldIsCanon(rr.name, op.rr.name);
    }
  }

  lemma SelectedAreRemoved(names: Names, op: Op, live: seq<Record>, rr: Record) returns (r: Record)
    requires Tame(names, op, live) && rr in live && Selects(op, IdentOf(rr))
    ensures r in RemovedBy(names, op, live) && IdentOf(r) == IdentOf(rr)
  {
    r := rr;
    if op.action.DelRR? {
      FirstWithKeyIs(names, KeyOf(names, op.rr), live);
      assert KeyAgrees(names, rr, op.rr);
      r := RemovedBy(names, op, live)[0];
      assert r in RemovedBy(names, op, live) && r in live;
      assert KeyAgrees(names, r, op.rr);
    } else {
      NamedIs(op.rr.name, if op.action.DelRRset? then Some(op.rr.rtype) else None, live);
      FoldIsCanon(rr.name, op.rr.name);
    }
  }

  /** The preview of one operation lists the live records it selects. */
  lemma PreviewSelects(names: Names, op: Op, live: seq<Record>, id: U.Ident)
    requires Tame(names, op, live)
    ensures id in Idents(RemovedBy(names, op, live)) <==> id in ZoneOf(live) && Selects(op, id)
  {
    var removed := RemovedBy(names, op, live);
    ZoneMembers(live);
    if id in Idents(removed) {
      var i :| 0 <= i < |removed| && IdentOf(removed[i]) == id;
      assert removed[i] in removed;
      RemovedAreSelected(names, op, live, removed[i]);
    }
    if id in ZoneOf(live) && Selects(op, id) {
      var rr :| rr in live && IdentOf(rr) == id;
      var r := SelectedAreRemoved(names, op, live, rr);
      var i :| 0 <= i < |removed| && removed[i] == r;
      assert Idents(removed)[i] == id;
    }
  }

  lemma IdentsConcat(a: seq<Record>, b: seq<Record>)
    ensures Idents(a + b) == Idents(a) + Idents(b)
  {
  }

  lemma PreviewStep(names: Names, front: seq<Op>, op: Op, live: seq<Record>, id: U.Ident)
    ensures id in Idents(RemovedByAll(names, front + [op], live))
            <==> id in Idents(RemovedByAll(names, front, live)) || id in Idents(RemovedBy(names, op, live))
  {
    assert (front + [op])[..|front|] == front;
    IdentsConcat(RemovedByAll(names, front, live), RemovedBy(names, op, live));
  }

  /** The preview of a list of operations lists the live records some operation selects. */
  lemma {:induction false} PreviewSelectsAll(names: Names, ops: seq<Op>, live: seq<Record>, id: U.Ident)
    requires forall i :: 0 <= i < |ops| ==> Tame(names, ops[i], live)
    ensures id in Idents(RemovedByAll(names, ops, live)) <==> id in ZoneOf(live) && SelectedBy(ops, id)
    decreases |ops|
  {
    if ops == [] {
      assert RemovedByAll(names, ops, live) == [];
    } else {
      var front, op := ops[..|ops| - 1], ops[|ops| - 1];
      assert ops == front + [op];
      PreviewSelectsAll(names, front, live, id);
      PreviewSelects(names, op, live, id);
      PreviewStep(names, front, op, live, id);
      SelectedLast(front, op, id);
    }
  }

  lemma SelectedLast(front: seq<Op>, op: Op, id: U.Ident)
    ensures SelectedBy(front + [op], id) <==> SelectedBy(front, id) || Selects(op, id)
  {
    var ops := front + [op];
    if SelectedBy(front, id) {
      var i :| 0 <= i < |front| && Selects(front[i], id);
      assert Selects(ops[i], id);
    }
    if Selects(op, id) {
      assert Selects(ops[|front|], id);
    }
  }

  lemma SelectedFirst(ops: seq<Op>, id: U.Ident)
    requires ops != []
    ensures SelectedBy(ops, id) <==> Selects(ops[0], id) || SelectedBy(ops[1..], id)
  {
    if SelectedBy(ops[1..], id) {
      var i :| 0 <= i < |ops[1..]| && Selects(ops[1..][i], id);
      assert Selects(ops[i + 1], id);
    }
    if SelectedBy(ops, id) && !Selects(ops[0], id) {
      var i :| 0 <= i < |ops| && Selects(ops[i], id);
      assert Selects(ops[1..][i - 1], id);
    }
  }

  // ----- What a list of deletions removes -----

  predicate Deletions(ops: seq<Op>) {
    forall i :: 0 <= i < |ops| ==> !ops[i].action.AddRR?
  }

  predicate DeletesRr(op: Op, id: U.Ident) {
    op.action.DelRR? && IdentOf(op.rr) == id
  }

  /** Some operation deletes this very record. */
  predicate DeletedByName(ops: seq<Op>, id: U.Ident) {
    exists i :: 0 <= i < |ops| && DeletesRr(ops[i], id)
  }

  /** No operation of the list can delete this record: an apex SOA, or an apex NS not deleted by name. */
  predicate Shielded(sv: U.Server, ops: seq<Op>, id: U.Ident) {
    id.name == sv.apex && (id.rtype == U.SOA || (id.rtype == U.NS && !DeletedByName(ops, id)))
  }

  lemma DeletedFirst(ops: seq<Op>, id: U.Ident)
    requires ops != []
    ensures DeletedByName(ops, id) <==> DeletesRr(ops[0], id) || DeletedByName(ops[1..], id)
    ensures DeletedByName(ops, id) ==> SelectedBy(ops, id)
  {
    if DeletedByName(ops[1..], id) {
      var i :| 0 <= i < |ops[1..]| && DeletesRr(ops[1..][i], id);
      assert DeletesRr(ops[i + 1], id);
    }
    if DeletedByName(ops, id) {
      var i :| 0 <= i < |ops| && DeletesRr(ops[i], id);
      assert Selects(ops[i], id);
      assert i > 0 ==> DeletesRr(ops[1..][i - 1], id);
    }
  }

  lemma WireTail(sv: U.Server, z: U.Zone, ops: seq<Op>)
    requires ops != []
    ensures U.PerformAll(sv, z, WireAll(ops)) == U.PerformAll(sv, U.Perform(sv, z, Wire(ops[0])), WireAll(ops[1..]))
  {
    assert WireAll(ops)[1..] == WireAll(ops[1..]);
  }

  /** Deletions only delete, only what they select, and nothing shielded. */
  lemma {:induction false} DeletionsKeep(sv: U.Server, z: U.Zone, ops: seq<Op>, id: U.Ident)
    requires Deletions(ops)
    ensures id in U.PerformAll(sv, z, WireAll(ops)) ==> id in z
    ensures id in z && (!SelectedBy(ops, id) || Shielded(sv, ops, id)) ==> id in U.PerformAll(sv, z, WireAll(ops))
    decreases |ops|
  {
    if ops != [] {
      WireTail(sv, z, ops);
      SelectedFirst(ops, id);
      if Shielded(sv, ops, id) && id.rtype != U.SOA {
        DeletedFirst(ops, id);
      }
      DeletionsKeep(sv, U.Perform(sv, z, Wire(ops[0])), ops[1..], id);
    }
  }

  /** This operation deletes the record, if another apex NS is there should it be one. */
  lemma DeletesNow(sv: U.Server, z: U.Zone, op: Op, id: U.Ident, anchor: U.Ident)
    requires Selects(op, id) && !(id.name == sv.apex && id.rtype == U.SOA)
    requires U.IsApexNs(sv, id) ==> DeletesRr(op, id) && id != anchor && anchor in z && U.IsApexNs(sv, anchor)
    ensures id !in U.Perform(sv, z, Wire(op))
  {
  }

  lemma AnchorStays(sv: U.Server, z: U.Zone, op: Op, anchor: U.Ident)
    requires !op.action.AddRR? && !DeletesRr(op, anchor) && anchor in z && U.IsApexNs(sv, anchor)
    ensures anchor in U.Perform(sv, z, Wire(op))
  {
  }

  /** With an apex NS that no operation deletes by name, whatever is selected and not shielded goes. */
  lemma {:induction false} DeletionsDelete(sv: U.Server, z: U.Zone, ops: seq<Op>, id: U.Ident, anchor: U.Ident)
    requires Deletions(ops) && SelectedBy(ops, id) && !(id.name == sv.apex && id.rtype == U.SOA)
    requires U.IsApexNs(sv, id) ==>
               id != anchor && DeletedByName(ops, id) && anchor in z && U.IsApexNs(sv, anchor)
                 && !DeletedByName(ops, anchor)
    ensures id !in U.PerformAll(sv, z, WireAll(ops))
    decreases |ops|
  {
    WireTail(sv, z, ops);
    SelectedFirst(ops, id);
    DeletedFirst(ops, id);
    DeletedFirst(ops, anchor);
    var z' := U.Perform(sv, z, Wire(ops[0]));
    if Selects(ops[0], id) && (U.IsApexNs(sv, id) ==> DeletesRr(ops[0], id)) {
      DeletesNow(sv, z, ops[0], id, anchor);
      DeletionsKeep(sv, z', ops[1..], id);
    } else {
      if U.IsApexNs(sv, id) {
        AnchorStays(sv, z, ops[0], anchor);
        DeletedSelected(ops[1..], id);
      }
      DeletionsDelete(sv, z', ops[1..], id, anchor);
    }
  }

  lemma DeletedSelected(ops: seq<Op>, id: U.Ident)
    requires DeletedByName(ops, id)
    ensures SelectedBy(ops, id)
  {
    DeletedFirst(ops, id);
  }

  /** Nothing selected is shielded, and if an apex NS is selected, another is left alone. */
  ghost predicate Unprotected(sv: U.Server, z: U.Zone, ops: seq<Op>) {
    && (forall id :: id in z && SelectedBy(ops, id) ==> !Shielded(sv, ops, id))
    && ((exists id :: id in z && SelectedBy(ops, id) && U.IsApexNs(sv, id))
        ==> exists k :: k in z && U.IsApexNs(sv, k) && !DeletedByName(ops, k))
  }

  lemma UnprotectedGoes(sv: U.Server, z: U.Zone, ops: seq<Op>, id: U.Ident)
    requires Deletions(ops) && Unprotected(sv, z, ops) && id in z && SelectedBy(ops, id)
    ensures id !in U.PerformAll(sv, z, WireAll(ops))
  {
    if U.IsApexNs(sv, id) {
      var k :| k in z && U.IsApexNs(sv, k) && !DeletedByName(ops, k);
      DeletionsDelete(sv, z, ops, id, k);
    } else {
      DeletionsDelete(sv, z, ops, id, id);
    }
  }

  /** If everything selected goes, nothing was protected. */
  lemma GoneUnprotected(sv: U.Server, z: U.Zone, ops: seq<Op>)
    requires Deletions(ops)
    requires forall id :: id in z && SelectedBy(ops, id) ==> id !in U.PerformAll(sv, z, WireAll(ops))
    ensures Unprotected(sv, z, ops)
  {
    forall id | id in z && SelectedBy(ops, id) ensures !Shielded(sv, ops, id) {
      DeletionsKeep(sv, z, ops, id);
    }
    if id :| id in z && SelectedBy(ops, id) && U.IsApexNs(sv, id) {
      U.UpdatesKeep(sv, z, WireAll(ops));
      var k :| k in U.PerformAll(sv, z, WireAll(ops)) && U.IsApexNs(sv, k);
      DeletionsKeep(sv, z, ops, k);
      if ops != [] {
        DeletedFirst(ops, k);
      }
    }
  }

  /**
   * A preview of any list of deletions says exactly which records the message will remove if and
   * only if the list selects no apex SOA and no apex NS record the server will keep: an apex NS
   * must be deleted by name, and one be left. Otherwise it lists a record that stays.
   */
  lemma PreviewExact(sv: U.Server, names: Names, ops: seq<Op>, live: seq<Record>)
    requires Deletions(ops) && forall i :: 0 <= i < |ops| ==> Tame(names, ops[i], live)
    ensures var z := ZoneOf(live);
            (forall id :: id in Idents(RemovedByAll(names, ops, live))
              <==> id in z && id !in U.PerformAll(sv, z, WireAll(ops)))
            <==> Unprotected(sv, z, ops)
  {
    var z := ZoneOf(live);
    forall id ensures id in Idents(RemovedByAll(names, ops, live)) <==> id in z && SelectedBy(ops, id) {
      PreviewSelectsAll(names, ops, live, id);
    }
    forall id | id in z && !SelectedBy(ops, id) ensures id in U.PerformAll(sv, z, WireAll(ops)) {
      DeletionsKeep(sv, z, ops, id);
    }
    if Unprotected(sv, z, ops) {
      forall id | id in z && SelectedBy(ops, id) ensures id !in U.PerformAll(sv, z, WireAll(ops)) {
        UnprotectedGoes(sv, z, ops, id);
      }
    }
    if forall id :: id in z && SelectedBy(ops, id) ==> id !in U.PerformAll(sv, z, WireAll(ops)) {
      GoneUnprotected(sv, z, ops);
    }
  }

  lemma OneByName(name: string, rtype: nat, rr: Record)
    requires EqualFold(rr.name, name) && rr.rtype == rtype
    ensures Named(name, Some(rtype), [rr]) == [rr]
  {
    assert [rr][..0] == [];
    assert Named(name, Some(rtype), []) == [];
  }

  lemma OneOp(names: Names, op: Op, live: seq<Record>)
    ensures RemovedByAll(names, [op], live) == RemovedBy(names, op, live)
  {
    assert [op][..0] == [];
    assert RemovedByAll(names, [], live) == [];
  }

  lemma OneOnTheWire(sv: U.Server, z: U.Zone, op: Op)
    ensures U.PerformAll(sv, z, WireAll([op])) == U.Perform(sv, z, Wire(op))
  {
    var ops := WireAll([op]);
    assert ops[1..] == [];
  }

  /** Deleting the NS records of the apex: the preview lists them, and the server keeps them. */
  lemma ApexPreviewOverstates(names: Names, ns: Record, sv: U.Server)
    requires ns.rtype == U.NS && Canon(ns.name) == sv.apex
    ensures var ops := [Op(DelRRset, ns)];
            && IdentOf(ns) in Idents(RemovedByAll(names, ops, [ns]))
            && IdentOf(ns) in U.PerformAll(sv, ZoneOf([ns]), WireAll(ops))
  {
    var op := Op(DelRRset, ns);
    OneByName(ns.name, U.NS, ns);
    OneOp(names, op, [ns]);
    assert Idents([ns])[0] == IdentOf(ns);
    ZoneMembers([ns]);
    assert ns in [ns];
    OneOnTheWire(sv, ZoneOf([ns]), op);
  }
}
