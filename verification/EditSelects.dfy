/**
 * Which records an edit takes out of a zone and which it puts in, on the meaning of the text
 * before and after it, operation by operation.
 */
module EditSelects {
  import opened Text
  import opened Resolver
  import opened ZoneFile
  import opened Surgery
  import opened Preservation
  import opened EditTheorem
  import opened Sessions

  /** The two records differ at most in the third field of their data, which in an SOA is the serial. */
  predicate SameButSerial(a: Rr, b: Rr) {
    && a == b.(rdata := a.rdata) && |a.rdata| == |b.rdata|
    && forall k :: 0 <= k < |a.rdata| && k != 2 ==> a.rdata[k] == b.rdata[k]
  }

  /** Record `i` is the last SOA. */
  predicate IsLastSoa(rrs: seq<Rr>, i: nat)
    requires i < |rrs|
  {
    rrs[i].rtype == 6 && forall j :: i < j < |rrs| ==> rrs[j].rtype != 6
  }

  /** The records with the last SOA's serial replaced, and nothing else changed. */
  function Renumbered(rrs: seq<Rr>, serial: nat): (r: seq<Rr>)
    ensures |r| == |rrs|
    ensures forall i :: 0 <= i < |r| ==> SameButSerial(r[i], rrs[i])
    ensures forall i :: 0 <= i < |r| ==> if !IsLastSoa(rrs, i) then r[i] == rrs[i]
                                         else |r[i].rdata| > 2 ==> r[i].rdata[2] == Dec(serial)
  {
    match LastSoa(rrs)
    case Some(k) => if |rrs[k].rdata| > 2 then rrs[k := WithSerial(rrs[k], serial)] else rrs
    case None => rrs
  }

  /** The records for which `gone` does not hold, in order. */
  function Except(rrs: seq<Rr>, gone: Rr -> bool): seq<Rr> {
    if rrs == [] then []
    else (if gone(rrs[0]) then [] else [rrs[0]]) + Except(rrs[1..], gone)
  }

  /** None of them is left, and every other record is there as often as before. */
  lemma {:induction false} ExceptCounts(rrs: seq<Rr>, gone: Rr -> bool, rr: Rr)
    ensures multiset(Except(rrs, gone))[rr] == if gone(rr) then 0 else multiset(rrs)[rr]
  {
    if rrs != [] {
      ExceptCounts(rrs[1..], gone, rr);
      assert rrs == [rrs[0]] + rrs[1..];
    }
  }

  lemma {:induction false} KeepIsExcept(rrs: seq<Rr>, dead: set<nat>, n: nat, gone: Rr -> bool)
    requires forall i: nat :: i < |rrs| ==> (n + i in dead <==> gone(rrs[i]))
    ensures Keep(rrs, dead, n) == Except(rrs, gone)
    decreases |rrs|
  {
    if rrs != [] {
      assert 0 + n in dead <==> gone(rrs[0]);
      forall i: nat | i < |rrs[1..]| ensures n + 1 + i in dead <==> gone(rrs[1..][i]) {
        assert n + (i + 1) in dead <==> gone(rrs[i + 1]);
      }
      KeepIsExcept(rrs[1..], dead, n + 1, gone);
    }
  }

  lemma {:induction false} KeepAllButOne(rrs: seq<Rr>, dead: set<nat>, i: nat, n: nat)
    requires i < |rrs| && forall k :: k in dead <==> k == n + i
    ensures Keep(rrs, dead, n) == rrs[..i] + rrs[i + 1..]
    decreases |rrs|
  {
    if i == 0 {
      KeepAll(rrs[1..], dead, n + 1);
    } else {
      KeepAllButOne(rrs[1..], dead, i - 1, n + 1);
      WithoutTail(rrs, i);
    }
  }

  lemma WithoutTail(rrs: seq<Rr>, i: nat)
    requires 0 < i < |rrs|
    ensures [rrs[0]] + (rrs[1..][..i - 1] + rrs[1..][i..]) == rrs[..i] + rrs[i + 1..]
  {
  }

  lemma {:induction false} KeepAll(rrs: seq<Rr>, dead: set<nat>, n: nat)
    requires forall i :: n <= i ==> i !in dead
    ensures Keep(rrs, dead, n) == rrs
    decreases |rrs|
  {
    if rrs != [] {
      KeepAll(rrs[1..], dead, n + 1);
    }
  }

  // ----- One batch -----

  /**
   * The file took these operations, under the conditions that are exact for an edit to mean what was
   * asked: what the text meant before, and what it means after.
   */
  ghost predicate Took(lib: Lib, origin: string, data: string, f: File, ops: seq<Op>, serial: nat,
                       was: seq<Rr>, now: seq<Rr>) {
    && Editable(lib, origin, data, f, ops, serial) && KeepsTtls(lib, data, f, ops)
    && SerialPlaced(f) && f.serialTok.Some?
    && Meaning(lib, origin, data).rrs == was
    && Meaning(lib, origin, Edited(lib, f, ops, serial)) == Resolved(now, true)
  }

  lemma TookMeans(lib: Lib, origin: string, data: string, f: File, ops: seq<Op>, serial: nat,
                  was: seq<Rr>, now: seq<Rr>)
    requires Took(lib, origin, data, f, ops, serial, was, now)
    ensures now == Keep(Renumbered(was, serial), DeadRrs(lib, was, ops), 0) + AddedRrs(ops)
  {
    EditPreservesMeaning(lib, origin, data, f, ops, serial);
    IntendedIs(lib, origin, data, f, ops, serial);
  }

  lemma OneAdded(op: Op)
    ensures AddedRrs([op]) == if op.action.AddRR? && op.rr.Some? then [op.rr.value] else []
  {
    assert [op][..0] == [];
    assert AddedRrs([op][..0]) == [];
  }

  /** The same owner without case or trailing dot, type and data; and TTL and spelling, without a mnemonic. */
  predicate SameRecord(lib: Lib, a: Rr, b: Rr) {
    && Upper(TrimDot(a.name)) == Upper(TrimDot(b.name)) && a.rtype == b.rtype
    && if a.rtype in lib.names then a.rdata == b.rdata
       else a.name == b.name && a.ttl == b.ttl && Spell(a.rdata, 0) == Spell(b.rdata, 0)
  }

  /** Types without a mnemonic are compared as printed, which tells records apart if no owner has a tab. */
  predicate Tellable(lib: Lib, rrs: seq<Rr>, rr: Rr) {
    rr.rtype in lib.names || ('\t' !in rr.name && forall i :: 0 <= i < |rrs| ==> '\t' !in rrs[i].name)
  }

  lemma SameKeySame(lib: Lib, a: Rr, b: Rr)
    requires ValidLib(lib) && (b.rtype in lib.names || ('\t' !in a.name && '\t' !in b.name))
    ensures SameKey(lib, a, b) <==> SameRecord(lib, a, b)
  {
    if '\t' !in a.name && '\t' !in b.name {
      SameKeyTells(lib, a, b);
    } else if a.rtype !in lib.names {
      assert TypeName(lib, b.rtype) in lib.codes;
    }
  }

  /** What an operation takes out of a list of records: number `i` is one of them. */
  predicate Takes(lib: Lib, rrs: seq<Rr>, op: Op, i: nat)
    requires i < |rrs|
  {
    && op.rr.Some?
    && var rr := op.rr.value;
       match op.action
       case DelName => Upper(rrs[i].name) == Upper(rr.name)
       case DelRRset => Upper(rrs[i].name) == Upper(rr.name) && rrs[i].rtype == rr.rtype
       case DelRR => SameRecord(lib, rrs[i], rr) && forall j :: 0 <= j < i ==> !SameRecord(lib, rrs[j], rr)
       case _ => false
  }

  lemma HitsTakes(lib: Lib, rrs: seq<Rr>, op: Op, i: nat)
    requires ValidLib(lib) && i < |rrs| && (op.action.DelRR? && op.rr.Some? ==> Tellable(lib, rrs, op.rr.value))
    ensures HitsRr(lib, rrs, op, i) <==> Takes(lib, rrs, op, i)
  {
    if op.action.DelRR? && op.rr.Some? {
      forall j | 0 <= j <= i ensures SameKey(lib, rrs[j], op.rr.value) <==> SameRecord(lib, rrs[j], op.rr.value) {
        SameKeySame(lib, rrs[j], op.rr.value);
      }
    }
  }

  ghost predicate AllTellable(lib: Lib, rrs: seq<Rr>, ops: seq<Op>) {
    forall k :: 0 <= k < |ops| && ops[k].action.DelRR? && ops[k].rr.Some? ==> Tellable(lib, rrs, ops[k].rr.value)
  }

  /** The numbers of the records that some operation takes. */
  ghost function Gone(lib: Lib, rrs: seq<Rr>, ops: seq<Op>): set<nat> {
    set i, k | 0 <= i < |rrs| && 0 <= k < |ops| && Takes(lib, rrs, ops[k], i) :: i
  }

  /**
   * After a batch: the records that none of its operations takes, each operation looking at the
   * zone before the batch, in order and unchanged but for the SOA's serial; then the added ones.
   */
  lemma BatchTakes(lib: Lib, origin: string, data: string, f: File, ops: seq<Op>, serial: nat,
                   was: seq<Rr>, now: seq<Rr>)
    requires Took(lib, origin, data, f, ops, serial, was, now) && AllTellable(lib, was, ops)
    ensures now == Keep(Renumbered(was, serial), Gone(lib, was, ops), 0) + AddedRrs(ops)
  {
    TookMeans(lib, origin, data, f, ops, serial, was, now);
    forall i | 0 <= i < |was| ensures i in DeadRrs(lib, was, ops) <==> i in Gone(lib, was, ops) {
      forall k | 0 <= k < |ops| ensures HitsRr(lib, was, ops[k], i) <==> Takes(lib, was, ops[k], i) {
        HitsTakes(lib, was, ops[k], i);
      }
    }
    assert DeadRrs(lib, was, ops) == Gone(lib, was, ops);
  }

  /** What is added are the records of the additions, in order. */
  lemma {:induction false} AddedConcat(a: seq<Op>, b: seq<Op>)
    ensures AddedRrs(a + b) == AddedRrs(a) + AddedRrs(b)
    decreases |b|
  {
    if b == [] {
      assert a + b == a;
    } else {
      AddedConcat(a, b[..|b| - 1]);
      assert (a + b)[..|a + b| - 1] == a + b[..|b| - 1];
    }
  }

  // ----- One operation -----

  lemma DeadByOne(lib: Lib, rrs: seq<Rr>, op: Op, i: nat)
    ensures i in DeadRrs(lib, rrs, [op]) <==> i < |rrs| && HitsRr(lib, rrs, op, i)
  {
    if i < |rrs| && HitsRr(lib, rrs, op, i) {
      assert HitsRr(lib, rrs, [op][0], i);
    }
  }

  /** What is left of the records when those for which `gone` holds are deleted: none of them, all others. */
  ghost predicate LeavesAllBut(rrs: seq<Rr>, gone: Rr -> bool, now: seq<Rr>) {
    && now == Except(rrs, gone)
    && forall r :: multiset(now)[r] == if gone(r) then 0 else multiset(rrs)[r]
  }

  lemma DeadAreGone(lib: Lib, was: seq<Rr>, op: Op, serial: nat, gone: Rr -> bool)
    requires forall i: nat :: i < |was| ==> (i in DeadRrs(lib, was, [op]) <==> gone(Renumbered(was, serial)[i]))
    ensures LeavesAllBut(Renumbered(was, serial), gone, Keep(Renumbered(was, serial), DeadRrs(lib, was, [op]), 0))
  {
    var mid := Renumbered(was, serial);
    forall i: nat | i < |mid| ensures 0 + i in DeadRrs(lib, was, [op]) <==> gone(mid[i]) {
    }
    KeepIsExcept(mid, DeadRrs(lib, was, [op]), 0, gone);
    ExceptLeaves(mid, gone);
  }

  lemma ExceptLeaves(rrs: seq<Rr>, gone: Rr -> bool)
    ensures LeavesAllBut(rrs, gone, Except(rrs, gone))
  {
    forall r ensures multiset(Except(rrs, gone))[r] == if gone(r) then 0 else multiset(rrs)[r] {
      ExceptCounts(rrs, gone, r);
    }
  }

  /** The records at a name, in any case, and of a type. */
  function AtNameAndType(name: string, rtype: nat): Rr -> bool {
    (r: Rr) => Upper(r.name) == Upper(name) && r.rtype == rtype
  }

  function AtName(name: string): Rr -> bool {
    (r: Rr) => Upper(r.name) == Upper(name)
  }

  lemma RrsetDead(lib: Lib, was: seq<Rr>, rr: Rr, serial: nat)
    ensures forall i: nat :: i < |was| ==>
              (i in DeadRrs(lib, was, [Op(DelRRset, Some(rr))])
               <==> AtNameAndType(rr.name, rr.rtype)(Renumbered(was, serial)[i]))
  {
    forall i: nat | i < |was|
      ensures i in DeadRrs(lib, was, [Op(DelRRset, Some(rr))])
              <==> AtNameAndType(rr.name, rr.rtype)(Renumbered(was, serial)[i])
    {
      DeadByOne(lib, was, Op(DelRRset, Some(rr)), i);
    }
  }

  lemma NameDead(lib: Lib, was: seq<Rr>, rr: Rr, serial: nat)
    ensures forall i: nat :: i < |was| ==>
              (i in DeadRrs(lib, was, [Op(DelName, Some(rr))]) <==> AtName(rr.name)(Renumbered(was, serial)[i]))
  {
    forall i: nat | i < |was|
      ensures i in DeadRrs(lib, was, [Op(DelName, Some(rr))]) <==> AtName(rr.name)(Renumbered(was, serial)[i])
    {
      DeadByOne(lib, was, Op(DelName, Some(rr)), i);
    }
  }

  /** One operation that adds nothing. */
  lemma TookOne(lib: Lib, origin: string, data: string, f: File, op: Op, serial: nat, was: seq<Rr>, now: seq<Rr>)
    requires Took(lib, origin, data, f, [op], serial, was, now) && !op.action.AddRR?
    ensures now == Keep(Renumbered(was, serial), DeadRrs(lib, was, [op]), 0)
  {
    OneAdded(op);
    TookMeans(lib, origin, data, f, [op], serial, was, now);
  }

  /**
   * After deleting the RRset at a name and type no record of that name, in any case, and that type
   * is left, and every other record is there, in order and unchanged but for the SOA's serial.
   */
  lemma RrsetDeleted(lib: Lib, origin: string, data: string, f: File, rr: Rr, serial: nat,
                     was: seq<Rr>, now: seq<Rr>)
    requires Took(lib, origin, data, f, [Op(DelRRset, Some(rr))], serial, was, now)
    ensures LeavesAllBut(Renumbered(was, serial), AtNameAndType(rr.name, rr.rtype), now)
  {
    TookOne(lib, origin, data, f, Op(DelRRset, Some(rr)), serial, was, now);
    RrsetDead(lib, was, rr, serial);
    DeadAreGone(lib, was, Op(DelRRset, Some(rr)), serial, AtNameAndType(rr.name, rr.rtype));
  }

  /** After deleting a name no record at that name is left, and every other record is there. */
  lemma NameDeleted(lib: Lib, origin: string, data: string, f: File, rr: Rr, serial: nat,
                    was: seq<Rr>, now: seq<Rr>)
    requires Took(lib, origin, data, f, [Op(DelName, Some(rr))], serial, was, now)
    ensures LeavesAllBut(Renumbered(was, serial), AtName(rr.name), now)
  {
    TookOne(lib, origin, data, f, Op(DelName, Some(rr)), serial, was, now);
    NameDead(lib, was, rr, serial);
    DeadAreGone(lib, was, Op(DelName, Some(rr)), serial, AtName(rr.name));
  }

  /** The first record that is the same, or the length of the list. */
  lemma {:induction false} FirstSame(lib: Lib, rrs: seq<Rr>, rr: Rr, from: nat) returns (i: nat)
    requires from <= |rrs| && forall j :: 0 <= j < from ==> !SameRecord(lib, rrs[j], rr)
    ensures i <= |rrs| && forall j :: 0 <= j < i ==> !SameRecord(lib, rrs[j], rr)
    ensures i < |rrs| ==> SameRecord(lib, rrs[i], rr)
    decreases |rrs| - from
  {
    if from == |rrs| || SameRecord(lib, rrs[from], rr) {
      i := from;
    } else {
      i := FirstSame(lib, rrs, rr, from + 1);
    }
  }

  lemma DeadIsFirst(lib: Lib, rrs: seq<Rr>, rr: Rr, i: nat)
    requires ValidLib(lib) && Tellable(lib, rrs, rr)
    requires i <= |rrs| && forall j :: 0 <= j < i ==> !SameRecord(lib, rrs[j], rr)
    requires i < |rrs| ==> SameRecord(lib, rrs[i], rr)
    ensures DeadRrs(lib, rrs, [Op(DelRR, Some(rr))]) == if i < |rrs| then {i} else {}
  {
    var op := Op(DelRR, Some(rr));
    forall j: nat | j < |rrs| ensures j in DeadRrs(lib, rrs, [op]) <==> j == i {
      DeadByOne(lib, rrs, op, j);
      HitsTakes(lib, rrs, op, j);
    }
  }

  /**
   * Deleting a record takes out one record with that owner, type and data, the first, if there is
   * one, and nothing else.
   */
  lemma RecordDeleted(lib: Lib, origin: string, data: string, f: File, rr: Rr, serial: nat,
                      was: seq<Rr>, now: seq<Rr>)
    returns (i: nat)
    requires Took(lib, origin, data, f, [Op(DelRR, Some(rr))], serial, was, now) && Tellable(lib, was, rr)
    ensures i <= |was| && forall j :: 0 <= j < i ==> !SameRecord(lib, was[j], rr)
    ensures i < |was| ==> SameRecord(lib, was[i], rr)
    ensures now == if i < |was| then Renumbered(was, serial)[..i] + Renumbered(was, serial)[i + 1..]
                   else Renumbered(was, serial)
  {
    TookOne(lib, origin, data, f, Op(DelRR, Some(rr)), serial, was, now);
    i := FirstSame(lib, was, rr, 0);
    DeadIsFirst(lib, was, rr, i);
    KeepFirst(Renumbered(was, serial), i);
  }

  lemma KeepFirst(rrs: seq<Rr>, i: nat)
    requires i <= |rrs|
    ensures i < |rrs| ==> Keep(rrs, {i}, 0) == rrs[..i] + rrs[i + 1..]
    ensures i == |rrs| ==> Keep(rrs, {}, 0) == rrs
  {
    if i < |rrs| {
      KeepAllButOne(rrs, {i}, i, 0);
    } else {
      KeepAll(rrs, {}, 0);
    }
  }

  /** Adding a record leaves every other one and puts the added one last, as it was given. */
  lemma RecordAdded(lib: Lib, origin: string, data: string, f: File, rr: Rr, serial: nat,
                    was: seq<Rr>, now: seq<Rr>)
    requires Took(lib, origin, data, f, [Op(AddRR, Some(rr))], serial, was, now)
    ensures now == Renumbered(was, serial) + [rr]
  {
    var op := Op(AddRR, Some(rr));
    OneAdded(op);
    TookMeans(lib, origin, data, f, [op], serial, was, now);
    forall i: nat ensures i !in DeadRrs(lib, was, [op]) {
      DeadByOne(lib, was, op, i);
    }
    KeepAll(Renumbered(was, serial), DeadRrs(lib, was, [op]), 0);
  }
}
