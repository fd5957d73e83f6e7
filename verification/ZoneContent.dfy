/**
 * What internal/filezone writes: the new bytes of `Apply` (a surgical edit) and of
 * `ReplaceRaw` (a whole file with a normalized serial), and how the serial moves.
 */
module ZoneContent {
  import opened Text
  import opened Resolver
  import opened ZoneFile
  import opened Surgery
  import opened Preservation
  import opened EditTheorem
  import opened EditClosure
  import opened Serial
  import opened DomainNames

  // ----- The serial of a file -----

  function FirstSoaFrom(rrs: seq<Rr>, i: nat): (k: nat)
    requires i <= |rrs|
    ensures i <= k <= |rrs|
    ensures k < |rrs| ==> rrs[k].rtype == SOA
    ensures forall j :: i <= j < k ==> rrs[j].rtype != SOA
    decreases |rrs| - i
  {
    if i == |rrs| || rrs[i].rtype == SOA then i else FirstSoaFrom(rrs, i + 1)
  }

  /** `currentSerial`: the first SOA's serial, even when a later line stops the reader. */
  function CurrentSerial(lib: Lib, origin: string, data: string): Option<nat> {
    var rrs := Meaning(lib, origin, data).rrs;
    var k := FirstSoaFrom(rrs, 0);
    if k < |rrs| then Some(SerialOf(rrs[k])) else None
  }

  function SerialOrZero(lib: Lib, origin: string, data: string): nat {
    match CurrentSerial(lib, origin, data)
    case Some(s) => s
    case None => 0
  }

  predicate FirstOfType(rrs: seq<Rr>, rtype: nat, i: nat)
    requires i < |rrs|
  {
    rrs[i].rtype == rtype && forall j :: 0 <= j < i ==> rrs[j].rtype != rtype
  }

  method ReadSerial(lib: Lib, origin: string, data: string) returns (r: Option<nat>)
    ensures r == CurrentSerial(lib, origin, data)
    ensures r.None? ==> forall rr :: rr in Meaning(lib, origin, data).rrs ==> rr.rtype != 6
    ensures r.Some? ==> exists i :: 0 <= i < |Meaning(lib, origin, data).rrs|
                          && FirstOfType(Meaning(lib, origin, data).rrs, 6, i)
                          && r.value == SerialOf(Meaning(lib, origin, data).rrs[i])
  {
    var rrs := Meaning(lib, origin, data).rrs;
    for i := 0 to |rrs|
      invariant FirstSoaFrom(rrs, i) == FirstSoaFrom(rrs, 0)
      invariant forall j :: 0 <= j < i ==> rrs[j].rtype != 6
    {
      if rrs[i].rtype == SOA {
        assert FirstOfType(rrs, 6, i);
        return Some(SerialOf(rrs[i]));
      }
    }
    return None;
  }

  // ----- New bytes -----

  /** `dns.IsSubDomain(origin, name)`, by name suffix. */
  predicate InZone(origin: string, name: string) {
    var z, n := Upper(Fqdn(origin)), Upper(Fqdn(name));
    z == "." || n == z || (|n| > |z| && n[|n| - |z|..] == z && n[|n| - |z| - 1] == '.')
  }

  predicate OpInZone(origin: string, op: Op) {
    op.rr.Some? && InZone(origin, op.rr.value.name)
  }

  function Opening(lib: Lib, origin: string, data: string): Option<File> {
    Parsed(lib, Split(data), Meaning(lib, origin, data))
  }

  /** `compute`: every record in the zone, then a surgical edit. */
  ghost function Applied(lib: Lib, origin: string, cur: string, ops: seq<Op>, today: nat): Option<string> {
    var p := Opening(lib, origin, cur);
    if OpsInZone(origin, ops) && p.Some?
       && p.value.serialTok.Some? && SerialPlaced(p.value) && EditAccepts(lib, p.value, ops)
    then Some(Edited(lib, p.value, ops, NextSerial(SoaSerial(p.value), today)))
    else None
  }

  /** `normalizeRawSerial`: above the live serial, or refused. */
  function Normalized(lib: Lib, origin: string, cur: string, text: string, today: nat): Option<string> {
    var floor := SerialOrZero(lib, origin, cur);
    var p := Opening(lib, origin, text);
    if p.Some? && Surgical(p.value) && p.value.serialTok.Some? && SerialPlaced(p.value) then
      Some(Join(Bump(p.value, FloorSerial(SoaSerial(p.value), floor, today))))
    else
      match CurrentSerial(lib, origin, text)
      case Some(s) => if s <= floor then None else Some(text)
      case None => None
  }

  lemma OpeningPlaced(lib: Lib, origin: string, data: string)
    requires ValidLib(lib) && Opening(lib, origin, data).Some? && Surgical(Opening(lib, origin, data).value)
    ensures var f := Opening(lib, origin, data).value;
            Opened(lib, origin, data, f) && f.serialTok.Some? && SerialPlaced(f)
  {
    Placed(lib, origin, data, Opening(lib, origin, data).value);
  }

  predicate OpsInZone(origin: string, ops: seq<Op>) {
    forall k :: 0 <= k < |ops| ==> OpInZone(origin, ops[k])
  }

  method CheckOps(origin: string, ops: seq<Op>) returns (ok: bool)
    ensures ok == OpsInZone(origin, ops)
  {
    for k := 0 to |ops|
      invariant forall j :: 0 <= j < k ==> OpInZone(origin, ops[j])
    {
      if !OpInZone(origin, ops[k]) {
        return false;
      }
    }
    return true;
  }

  /** In the zone: the origin is the root, or its labels are the last ones of the name, in any case. */
  lemma InZoneIsUnder(origin: string, name: string)
    ensures InZone(origin, name) <==> Fqdn(origin) == "." || Under(Upper(Fqdn(origin)), Upper(Fqdn(name)))
  {
    EndsInIsUnder(Upper(Fqdn(origin)), Upper(Fqdn(name)));
    UpperDot(Fqdn(origin));
    InZoneIsEndsIn(origin, name);
  }

  lemma UpperDot(s: string)
    ensures Upper(s) == "." <==> s == "."
  {
    if Upper(s) == "." {
      assert Upper(s)[0] == UpperChar(s[0]);
    }
  }

  lemma InZoneIsEndsIn(origin: string, name: string)
    ensures InZone(origin, name) <==> Upper(Fqdn(origin)) == "." || EndsIn(Upper(Fqdn(origin)), Upper(Fqdn(name)))
  {
  }

  /** No edit brings in, or touches anything for, a record whose name is not at or below the zone. */
  lemma AppliedStaysInside(lib: Lib, origin: string, cur: string, ops: seq<Op>, today: nat)
    requires Fqdn(origin) != "."
    ensures (exists k :: 0 <= k < |ops| && ops[k].rr.Some?
                         && !Under(Upper(Fqdn(origin)), Upper(Fqdn(ops[k].rr.value.name))))
            ==> Applied(lib, origin, cur, ops, today).None?
    ensures Applied(lib, origin, cur, ops, today).Some?
            ==> forall rr :: rr in AddedRrs(ops) ==> Under(Upper(Fqdn(origin)), Upper(Fqdn(rr.name)))
  {
    forall k | 0 <= k < |ops| && OpInZone(origin, ops[k])
      ensures Under(Upper(Fqdn(origin)), Upper(Fqdn(ops[k].rr.value.name)))
    {
      InZoneIsUnder(origin, ops[k].rr.value.name);
    }
    forall rr | rr in AddedRrs(ops) && OpsInZone(origin, ops)
      ensures Under(Upper(Fqdn(origin)), Upper(Fqdn(rr.name)))
    {
      var k := AddedFrom(ops, rr);
    }
  }

  lemma {:induction false} AddedFrom(ops: seq<Op>, rr: Rr) returns (k: nat)
    requires rr in AddedRrs(ops)
    ensures k < |ops| && ops[k].action.AddRR? && ops[k].rr == Some(rr)
    decreases |ops|
  {
    var n := |ops| - 1;
    if ops[n].action.AddRR? && ops[n].rr == Some(rr) {
      k := n;
    } else {
      k := AddedFrom(ops[..n], rr);
    }
  }

  method Compute(lib: Lib, origin: string, cur: string, ops: seq<Op>, today: nat) returns (r: Option<string>)
    requires ValidLib(lib)
    ensures r == Applied(lib, origin, cur, ops, today)
  {
    var ok := CheckOps(origin, ops);
    if !ok {
      return None;
    }
    var p := Parse(lib, cur, Meaning(lib, origin, cur));
    if p.None? {
      return None;
    }
    if Surgical(p.value) {
      OpeningPlaced(lib, origin, cur);
    }
    var e := Edit(lib, p.value, ops, today);
    match e
    case Ok(text) => return Some(text);
    case Err(_) => return None;
  }

  method NormalizeRawSerial(lib: Lib, origin: string, cur: string, text: string, today: nat) returns (r: Option<string>)
    requires ValidLib(lib)
    ensures r == Normalized(lib, origin, cur, text, today)
  {
    var live := ReadSerial(lib, origin, cur);
    var floor := if live.Some? then live.value else 0;
    var p := Parse(lib, text, Meaning(lib, origin, text));
    if p.Some? && Surgical(p.value) {
      OpeningPlaced(lib, origin, text);
      var b := SerialFloor(p.value, floor, today);
      if b.Ok? {
        return Some(b.value);
      }
    }
    var s := ReadSerial(lib, origin, text);
    if s.None? || s.value <= floor {
      return None;
    }
    return Some(text);
  }

  // ----- One SOA -----

  ghost predicate OnlySoa(rrs: seq<Rr>, k: nat) {
    k < |rrs| && forall j :: 0 <= j < |rrs| ==> (rrs[j].rtype == SOA <==> j == k)
  }

  ghost predicate OneSoa(rrs: seq<Rr>) {
    exists k :: OnlySoa(rrs, k)
  }

  lemma OnlySoaFound(rrs: seq<Rr>, k: nat)
    requires OnlySoa(rrs, k)
    ensures LastSoa(rrs) == Some(k) && FirstSoaFrom(rrs, 0) == k
  {
  }

  /**
   * A file the serial promise covers: when it opens for in-place editing, it is sound and
   * has one SOA. A file that does not open is only ever replaced whole.
   */
  ghost predicate Tidy(lib: Lib, origin: string, data: string) {
    var p := Opening(lib, origin, data);
    p.Some? && Surgical(p.value) ==>
      Sound(lib, origin, data, p.value) && OneSoa(Meaning(lib, origin, data).rrs)
  }

  lemma OneSoaKept(rrs: seq<Rr>, dead: set<nat>, k: nat, adds: seq<Rr>)
    requires OnlySoa(rrs, k) && k !in dead && LastSoa(adds).None?
    ensures OneSoa(Keep(rrs, dead, 0) + adds)
  {
    var p := KeepAt(rrs, rrs, dead, 0, k);
    var kr := Keep(rrs, dead, 0);
    forall j | 0 <= j < |kr + adds| ensures (kr + adds)[j].rtype == SOA <==> j == p {
      if j < p {
        assert kr[j] in rrs[..k];
      } else if p < j < |kr| {
        assert kr[j] in rrs[k + 1..];
      } else if |kr| <= j {
        assert (kr + adds)[j] == adds[j - |kr|];
      }
    }
    assert OnlySoa(kr + adds, p);
  }

  /** Editing a tidy file with any new serial gives a tidy file with that serial. */
  lemma EditStaysTidy(lib: Lib, origin: string, data: string, f: File, ops: seq<Op>, serial: nat)
    requires Sound(lib, origin, data, f) && OneSoa(Meaning(lib, origin, data).rrs)
    requires EditAccepts(lib, f, ops) && AllPrintable(lib, AddedRrs(ops)) && AddsNoSoa(ops) && serial < UINT32
    ensures f.serialTok.Some? && SerialPlaced(f)
    ensures Tidy(lib, origin, Edited(lib, f, ops, serial))
    ensures CurrentSerial(lib, origin, Edited(lib, f, ops, serial)) == Some(serial)
    ensures CurrentSerial(lib, origin, data) == Some(SoaSerial(f))
  {
    var g := EditKeepsSound(lib, origin, data, f, ops, serial);
    BenignKeepsTtls(lib, origin, data, f, ops);
    var bumped := OutputRecords(lib, origin, data, f, ops, serial);
    OpenedRecords(lib, origin, data, f);
    var k :| OnlySoa(Meaning(lib, origin, data).rrs, k);
    OnlySoaFound(Meaning(lib, origin, data).rrs, k);
    SoaNotDead(lib, f, ops);
    BumpedOneSoa(Meaning(lib, origin, data).rrs, k, serial, Dead(lib, f, ops), AddedRrs(ops));
    var out := Edited(lib, f, ops, serial);
    OpenedRecords(lib, origin, out, g);
    var p :| OnlySoa(Meaning(lib, origin, out).rrs, p);
    OnlySoaFound(Meaning(lib, origin, out).rrs, p);
  }

  lemma BumpedOneSoa(rrs: seq<Rr>, k: nat, serial: nat, dead: set<nat>, adds: seq<Rr>)
    requires OnlySoa(rrs, k) && k !in dead && LastSoa(adds).None?
    ensures OneSoa(Keep(if |rrs[k].rdata| > 2 then rrs[k := WithSerial(rrs[k], serial)] else rrs, dead, 0) + adds)
  {
    var bumped := if |rrs[k].rdata| > 2 then rrs[k := WithSerial(rrs[k], serial)] else rrs;
    assert OnlySoa(bumped, k);
    OneSoaKept(bumped, dead, k, adds);
  }

  // ----- The serial grows -----

  lemma {:induction false} KeepNothing(lines: seq<string>, off: nat)
    ensures KeepLines(lines, {}, off) == lines
    decreases |lines|
  {
    KeepLinesAll(lines, {}, off);
  }

  lemma BumpIsEdit(lib: Lib, f: File, serial: nat)
    requires f.serialTok.Some? && SerialPlaced(f)
    ensures Join(Bump(f, serial)) == Edited(lib, f, [], serial)
  {
    assert DeletedLines(lib, f, []) == {};
    KeepNothing(Bump(f, serial), 0);
  }

  /** A committed `Apply` moves the serial exactly to the next one. */
  lemma AppliedGrows(lib: Lib, origin: string, cur: string, ops: seq<Op>, today: nat)
    requires ValidLib(lib) && Tidy(lib, origin, cur) && today < UINT32
    requires Applied(lib, origin, cur, ops, today).Some?
    requires AllPrintable(lib, AddedRrs(ops)) && AddsNoSoa(ops)
    ensures Tidy(lib, origin, Applied(lib, origin, cur, ops, today).value)
    ensures CurrentSerial(lib, origin, cur).Some?
    ensures CurrentSerial(lib, origin, Applied(lib, origin, cur, ops, today).value)
            == Some(NextSerial(CurrentSerial(lib, origin, cur).value, today))
  {
    var f := Opening(lib, origin, cur).value;
    EditStaysTidy(lib, origin, cur, f, ops, NextSerial(SoaSerial(f), today));
  }

  /**
   * What `ReplaceRaw` refuses: never a text that opens for editing, and of the others exactly those
   * without a serial above the live one; those it takes it leaves as they are.
   */
  lemma NormalizedTakes(lib: Lib, origin: string, cur: string, text: string, today: nat)
    requires ValidLib(lib)
    ensures var p, r := Opening(lib, origin, text), Normalized(lib, origin, cur, text, today);
            if p.Some? && Surgical(p.value) then r.Some?
            else var s := CurrentSerial(lib, origin, text);
                 r == if s.Some? && s.value > SerialOrZero(lib, origin, cur) then Some(text) else None
  {
    if Opening(lib, origin, text).Some? && Surgical(Opening(lib, origin, text).value) {
      OpeningPlaced(lib, origin, text);
    }
  }

  /** A committed `ReplaceRaw` lands above the live serial, unless a serial has reached the last one. */
  lemma NormalizedGrows(lib: Lib, origin: string, cur: string, text: string, today: nat)
    requires ValidLib(lib) && Tidy(lib, origin, text) && today < UINT32
    requires Normalized(lib, origin, cur, text, today).Some?
    requires SerialOrZero(lib, origin, cur) < UINT32 - 1 && SerialOrZero(lib, origin, text) < UINT32 - 1
    ensures Tidy(lib, origin, Normalized(lib, origin, cur, text, today).value)
    ensures CurrentSerial(lib, origin, Normalized(lib, origin, cur, text, today).value).Some?
    ensures CurrentSerial(lib, origin, Normalized(lib, origin, cur, text, today).value).value
            > SerialOrZero(lib, origin, cur)
  {
    var p := Opening(lib, origin, text);
    if p.Some? && Surgical(p.value) {
      OpeningPlaced(lib, origin, text);
      var f, floor := p.value, SerialOrZero(lib, origin, cur);
      NoOpAccepted(lib, f);
      EditStaysTidy(lib, origin, text, f, [], 0);
      FloorSerialExceeds(SoaSerial(f), floor, today);
      EditStaysTidy(lib, origin, text, f, [], FloorSerial(SoaSerial(f), floor, today));
      BumpIsEdit(lib, f, FloorSerial(SoaSerial(f), floor, today));
    }
  }

  lemma NoOpAccepted(lib: Lib, f: File)
    requires Surgical(f)
    ensures EditAccepts(lib, f, []) && AllPrintable(lib, AddedRrs([])) && AddsNoSoa([])
  {
  }
}
