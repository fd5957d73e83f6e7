/** internal/zonefile: `Parse`, `Edit` and `SerialFloor` over a zone file's text. */
module ZoneFile {
  import opened Text
  import opened Tokenizer
  import opened Resolver

  // ----- Serials -----

  /** `nextSerial`: uint32 arithmetic; `today` is the date base YYYYMMDD00. */
  function NextSerial(cur: nat, today: nat): nat {
    var next := (cur + 1) % UINT32;
    if today > next then today else next
  }

  // ----- The parsed file -----

  datatype Rec = Rec(rr: Rr, start: nat, end: nat, explicit: bool, explicitTtl: bool)

  datatype Reason = UsesInclude | UsesGenerate | MidFileOrigin | CountMismatch | NoSerial | SerialMismatch

  /** `soa` is the index of the SOA in `records`; `refused` is the source's `noSurgery`. */
  datatype File = File(
    lines: seq<string>,
    records: seq<Rec>,
    soa: Option<nat>,
    serialTok: Option<Tok>,
    hasTtlDirective: bool,
    refused: Option<Reason>)

  predicate Surgical(f: File) {
    f.refused.None?
  }

  function SoaSerial(f: File): nat {
    if f.soa.Some? && f.soa.value < |f.records| then SerialOf(f.records[f.soa.value].rr) else 0
  }

  predicate HasRecord(es: seq<Entry>) {
    exists i :: 0 <= i < |es| && es[i].kind.Record?
  }

  /** Why one entry, after the entries `before`, takes the file out of the safe subset. */
  function Offence(before: seq<Entry>, e: Entry): Option<Reason> {
    match e.kind
    case Directive(Include) => Some(UsesInclude)
    case Directive(Generate) => Some(UsesGenerate)
    case Directive(Origin) => if HasRecord(before) then Some(MidFileOrigin) else None
    case _ => None
  }

  /** The refusal reported: that of the last offending entry. */
  function Refusal(es: seq<Entry>): Option<Reason> {
    if es == [] then None
    else
      var n := |es| - 1;
      var o := Offence(es[..n], es[n]);
      if o.Some? then o else Refusal(es[..n])
  }

  predicate HasTtlDirective(es: seq<Entry>) {
    exists i :: 0 <= i < |es| && es[i].kind == Directive(Ttl)
  }

  function RecordEntries(es: seq<Entry>): seq<Entry> {
    if es == [] then []
    else (if es[0].kind.Record? then [es[0]] else []) + RecordEntries(es[1..])
  }

  /** `hasExplicitTTL` from token `i` on. */
  function StatesTtl(texts: seq<string>, i: nat, typeName: string): bool
    decreases |texts| - i
  {
    if i >= |texts| || EqualFold(texts[i], typeName) then false
    else if IsClass(texts[i]) then StatesTtl(texts, i + 1, typeName)
    else LooksLikeTtl(texts[i]) || StatesTtl(texts, i + 1, typeName)
  }

  predicate LooksLikeTtl(s: string) {
    && (forall i :: 0 <= i < |s| ==> IsDigit(s[i]) || Unit(s[i]) > 0)
    && (exists i :: 0 <= i < |s| && IsDigit(s[i]))
  }

  /** Digits and unit letters, at least one of them a digit. */
  lemma LooksLikeTtlIs(s: string)
    ensures LooksLikeTtl(s) <==> (forall c :: c in s ==> c in "0123456789" || c in "smhdwSMHDW")
                                 && exists c :: c in s && c in "0123456789"
  {
    forall i | 0 <= i < |s| ensures IsDigit(s[i]) || Unit(s[i]) > 0 <==> s[i] in "0123456789" || s[i] in "smhdwSMHDW" {
      UnitsAre(s[i]);
    }
    forall i | 0 <= i < |s| ensures IsDigit(s[i]) <==> s[i] in "0123456789" {
      var d := s[i] as int - '0' as int;
      assert 0 <= d < 10 ==> "0123456789"[d] == s[i];
    }
  }

  function ExplicitTtl(lib: Lib, toks: seq<Tok>, explicit: bool, rtype: nat): bool {
    StatesTtl(Texts(toks), if explicit && toks != [] then 1 else 0, TypeName(lib, rtype))
  }

  method HasExplicitTtl(lib: Lib, toks: seq<Tok>, explicit: bool, rtype: nat) returns (b: bool)
    ensures b == ExplicitTtl(lib, toks, explicit, rtype)
  {
    var typeName := TypeName(lib, rtype);
    var i := 0;
    if explicit && |toks| > 0 {
      i := 1;
    }
    while i < |toks|
      invariant 0 <= i <= |toks|
      invariant StatesTtl(Texts(toks), i, typeName) == ExplicitTtl(lib, toks, explicit, rtype)
    {
      var t := toks[i].text;
      if EqualFold(t, typeName) {
        return false;
      }
      if !IsClass(t) && LooksLikeTtl(t) {
        return true;
      }
      i := i + 1;
    }
    return false;
  }

  /** The index of the first token spelled SOA, or the number of tokens. */
  function FirstSoa(texts: seq<string>, i: nat): (k: nat)
    requires i <= |texts|
    ensures i <= k <= |texts|
    ensures k < |texts| ==> EqualFold(texts[k], "SOA")
    ensures forall j :: i <= j < k ==> !EqualFold(texts[j], "SOA")
    decreases |texts| - i
  {
    if i == |texts| || EqualFold(texts[i], "SOA") then i else FirstSoa(texts, i + 1)
  }

  function SerialToken(toks: seq<Tok>): Option<Tok> {
    var k := FirstSoa(Texts(toks), 0);
    if k + 3 < |toks| then Some(toks[k + 3]) else None
  }

  method LocateSerial(toks: seq<Tok>) returns (t: Option<Tok>)
    ensures t == SerialToken(toks)
  {
    for i := 0 to |toks|
      invariant FirstSoa(Texts(toks), i) == FirstSoa(Texts(toks), 0)
    {
      if EqualFold(toks[i].text, "SOA") {
        if i + 3 < |toks| {
          return Some(toks[i + 3]);
        }
        return None;
      }
    }
    return None;
  }

  function RecOf(lib: Lib, e: Entry, rr: Rr): Rec {
    Rec(rr, e.start, e.end, e.explicit, ExplicitTtl(lib, e.toks, e.explicit, rr.rtype))
  }

  function Recs(lib: Lib, es: seq<Entry>, rrs: seq<Rr>): (r: seq<Rec>)
    requires |es| == |rrs|
    ensures |r| == |es|
  {
    seq(|es|, i requires 0 <= i < |es| => RecOf(lib, es[i], rrs[i]))
  }

  /** The last SOA of a list. */
  function LastSoa(rrs: seq<Rr>): (k: Option<nat>)
    ensures k.Some? ==> k.value < |rrs| && rrs[k.value].rtype == SOA
    ensures k.Some? ==> forall j :: k.value < j < |rrs| ==> rrs[j].rtype != SOA
    ensures k.None? ==> forall j :: 0 <= j < |rrs| ==> rrs[j].rtype != SOA
  {
    if rrs == [] then None
    else if rrs[|rrs| - 1].rtype == SOA then Some(|rrs| - 1)
    else LastSoa(rrs[..|rrs| - 1])
  }

  /**
   * What `Parse` returns: none when the reader fails, otherwise the file. `rrs` is what
   * the reader made of the same text.
   */
  function Parsed(lib: Lib, lines: seq<string>, rrs: Resolved): Option<File> {
    var es := Entries(lines);
    var f := File(lines, [], None, None, HasTtlDirective(es), Refusal(es));
    if f.refused.Some? then Some(f)
    else if !rrs.ok then None
    else
      var recs := RecordEntries(es);
      if |recs| != |rrs.rrs| then Some(f.(refused := Some(CountMismatch)))
      else
        var soa := LastSoa(rrs.rrs);
        var tok := if soa.Some? then SerialToken(recs[soa.value].toks) else None;
        var g := f.(records := Recs(lib, recs, rrs.rrs), soa := soa, serialTok := tok);
        if soa.None? || tok.None? then Some(g.(refused := Some(NoSerial)))
        else if ParseUint32(tok.value.text) != Some(SerialOf(rrs.rrs[soa.value])) then
          Some(g.(refused := Some(SerialMismatch)))
        else Some(g)
  }

  method ScanDirectives(es: seq<Entry>) returns (hasTtl: bool, refused: Option<Reason>)
    ensures hasTtl == HasTtlDirective(es) && refused == Refusal(es)
  {
    hasTtl, refused := false, None;
    var seenRecord := false;
    for i := 0 to |es|
      invariant hasTtl == HasTtlDirective(es[..i])
      invariant refused == Refusal(es[..i])
      invariant seenRecord == HasRecord(es[..i])
    {
      assert es[..i + 1][..i] == es[..i];
      var e := es[i];
      match e.kind
      case Directive(Include) => refused := Some(UsesInclude);
      case Directive(Generate) => refused := Some(UsesGenerate);
      case Directive(Ttl) => hasTtl := true;
      case Directive(Origin) =>
        if seenRecord {
          refused := Some(MidFileOrigin);
        }
      case BlankLine =>
      case Record => seenRecord := true;
      assert es[..i + 1][i] == e;
      assert forall k :: 0 <= k < i ==> es[..i + 1][k] == es[..i][k];
    }
    assert es[..|es|] == es;
  }

  method SelectRecords(es: seq<Entry>) returns (recs: seq<Entry>)
    ensures recs == RecordEntries(es)
  {
    recs := [];
    assert es[0..] == es;
    for i := 0 to |es|
      invariant recs + RecordEntries(es[i..]) == RecordEntries(es)
    {
      assert es[i..][1..] == es[i + 1..];
      if es[i].kind.Record? {
        recs := recs + [es[i]];
      }
    }
  }

  /** The loop of `Parse` that zips record entries with the reader's records. */
  method ReadRec(lib: Lib, e: Entry, rr: Rr) returns (r: Rec)
    ensures r == RecOf(lib, e, rr)
  {
    var explicitTtl := HasExplicitTtl(lib, e.toks, e.explicit, rr.rtype);
    r := Rec(rr, e.start, e.end, e.explicit, explicitTtl);
  }

  lemma LastSoaStep(rrs: seq<Rr>, i: nat)
    requires i < |rrs|
    ensures LastSoa(rrs[..i + 1]) == if rrs[i].rtype == SOA then Some(i) else LastSoa(rrs[..i])
  {
    assert rrs[..i + 1][..i] == rrs[..i];
  }

  lemma RecsStep(lib: Lib, es: seq<Entry>, rrs: seq<Rr>, i: nat)
    requires |es| == |rrs| && i < |es|
    ensures Recs(lib, es[..i + 1], rrs[..i + 1]) == Recs(lib, es[..i], rrs[..i]) + [RecOf(lib, es[i], rrs[i])]
  {
  }

  method ZipRecords(lib: Lib, recs: seq<Entry>, rrs: seq<Rr>)
    returns (records: seq<Rec>, soa: Option<nat>, tok: Option<Tok>)
    requires |recs| == |rrs|
    ensures records == Recs(lib, recs, rrs)
    ensures soa == LastSoa(rrs)
    ensures tok == if soa.Some? then SerialToken(recs[soa.value].toks) else None
  {
    records, soa, tok := [], None, None;
    for i := 0 to |recs|
      invariant records == Recs(lib, recs[..i], rrs[..i])
      invariant soa == LastSoa(rrs[..i])
      invariant tok == if soa.Some? then SerialToken(recs[soa.value].toks) else None
    {
      LastSoaStep(rrs, i);
      RecsStep(lib, recs, rrs, i);
      var r := ReadRec(lib, recs[i], rrs[i]);
      records := records + [r];
      if rrs[i].rtype == SOA {
        soa := Some(i);
        tok := LocateSerial(recs[i].toks);
      }
    }
    assert rrs[..|recs|] == rrs && recs[..|recs|] == recs;
  }

  /** `Parse`: tokenize, refuse what cannot be mapped, zip entries with the reader's records. */
  method Parse(lib: Lib, data: string, rrs: Resolved) returns (r: Option<File>)
    ensures r == Parsed(lib, Split(data), rrs)
  {
    var lines := Split(data);
    var es := TokenizeEntries(lines);
    var hasTtl, refused := ScanDirectives(es);
    var f := File(lines, [], None, None, hasTtl, refused);
    if refused.Some? {
      return Some(f);
    }
    if !rrs.ok {
      return None;
    }
    var recs := SelectRecords(es);
    if |recs| != |rrs.rrs| {
      return Some(f.(refused := Some(CountMismatch)));
    }
    var records, soa, tok := ZipRecords(lib, recs, rrs.rrs);
    f := f.(records := records, soa := soa, serialTok := tok);
    if soa.None? || tok.None? {
      return Some(f.(refused := Some(NoSerial)));
    }
    if ParseUint32(tok.value.text) != Some(SoaSerial(f)) {
      return Some(f.(refused := Some(SerialMismatch)));
    }
    return Some(f);
  }

  // ----- Edit -----

  datatype Action = AddRR | DelRR | DelRRset | DelName | UnknownAction

  datatype Op = Op(action: Action, rr: Option<Rr>)

  datatype Failure = Unsafe | BadOperation

  datatype Result<+T> = Ok(value: T) | Err(error: Failure)

  /** The data in a record's `rrKey`: the fields, but the whole text for a type without a mnemonic. */
  function KeyData(lib: Lib, rr: Rr): seq<string> {
    if rr.rtype in lib.names then rr.rdata else [Print(lib, rr)]
  }

  /** Same `rrKey`: name without case, type mnemonic and data. */
  predicate SameKey(lib: Lib, a: Rr, b: Rr) {
    && EqualFold(TrimDot(a.name), TrimDot(b.name))
    && TypeName(lib, a.rtype) == TypeName(lib, b.rtype)
    && KeyData(lib, a) == KeyData(lib, b)
  }

  /**
   * Records with one key have one type. If it has a mnemonic the key is owner without case, type and
   * data; if not, the records agree in everything they print, the TTL included.
   */
  lemma SameKeyTells(lib: Lib, a: Rr, b: Rr)
    requires ValidLib(lib) && '\t' !in a.name && '\t' !in b.name
    ensures SameKey(lib, a, b) <==>
              && a.rtype == b.rtype && EqualFold(TrimDot(a.name), TrimDot(b.name))
              && if a.rtype in lib.names then a.rdata == b.rdata
                 else a.name == b.name && a.ttl == b.ttl && Spell(a.rdata, 0) == Spell(b.rdata, 0)
  {
    if a.rtype !in lib.names && b.rtype !in lib.names && Print(lib, a) == Print(lib, b) {
      GenericTextTells(a.name, a.ttl, a.rtype, Spell(a.rdata, 0), b.name, b.ttl, b.rtype, Spell(b.rdata, 0));
    }
  }

  predicate Matches(lib: Lib, op: Op, rr: Rr) {
    && op.rr.Some?
    && match op.action
       case DelRR => SameKey(lib, rr, op.rr.value)
       case DelRRset => EqualFold(rr.name, op.rr.value.name) && rr.rtype == op.rr.value.rtype
       case DelName => EqualFold(rr.name, op.rr.value.name)
       case _ => false
  }

  /** The records an operation deletes; an exact delete takes the first match only. */
  predicate Hits(lib: Lib, f: File, op: Op, i: nat)
    requires i < |f.records|
  {
    && Matches(lib, op, f.records[i].rr)
    && (op.action.DelRR? ==> forall j :: 0 <= j < i ==> !Matches(lib, op, f.records[j].rr))
  }

  predicate Targeted(lib: Lib, f: File, ops: seq<Op>, i: nat)
    requires i < |f.records|
  {
    exists k :: 0 <= k < |ops| && Hits(lib, f, ops[k], i)
  }

  /** `canDelete`: the line can go without changing what the next record means. */
  predicate CanDelete(f: File, i: nat)
    requires i < |f.records|
  {
    && f.soa != Some(i)
    && f.records[i].explicit && f.records[i].start == f.records[i].end
    && (i + 1 < |f.records| ==>
          && f.records[i + 1].explicit
          && (f.hasTtlDirective || f.records[i + 1].explicitTtl))
  }

  predicate WellFormedOp(op: Op) {
    op.rr.Some? && !op.action.UnknownAction?
  }

  /** `Edit` succeeds exactly when every operation is well formed and every hit can be deleted. */
  predicate EditAccepts(lib: Lib, f: File, ops: seq<Op>) {
    && Surgical(f)
    && (forall k :: 0 <= k < |ops| ==> WellFormedOp(ops[k]))
    && (forall i :: 0 <= i < |f.records| && Targeted(lib, f, ops, i) ==> CanDelete(f, i))
  }

  ghost function DeletedLines(lib: Lib, f: File, ops: seq<Op>): set<nat> {
    set i | 0 <= i < |f.records| && Targeted(lib, f, ops, i) :: f.records[i].start
  }

  /** Fields on a line: the first `tabs` each followed by a tab, the others joined by spaces. */
  function Spell(fields: seq<string>, tabs: nat): string {
    if fields == [] then ""
    else if |fields| == 1 && tabs == 0 then fields[0]
    else fields[0] + (if tabs > 0 then "\t" else " ") + Spell(fields[1..], if tabs > 0 then tabs - 1 else 0)
  }

  function Fields(lib: Lib, rr: Rr): seq<string> {
    [rr.name, Dec(rr.ttl), "IN", TypeName(lib, rr.rtype)] + rr.rdata
  }

  /**
   * The zone-file form of a record: owner, TTL, class and type, tab separated, then its data; in
   * the form of RFC 3597 if its type has no mnemonic.
   */
  function Print(lib: Lib, rr: Rr): string {
    if rr.rtype in lib.names then Spell(Fields(lib, rr), 4)
    else GenericText(rr.name, rr.ttl, rr.rtype, Spell(rr.rdata, 0))
  }

  function AddedRrs(ops: seq<Op>): seq<Rr> {
    if ops == [] then []
    else
      var n := |ops| - 1;
      AddedRrs(ops[..n]) + (if ops[n].action.AddRR? && ops[n].rr.Some? then [ops[n].rr.value] else [])
  }

  function Prints(lib: Lib, rrs: seq<Rr>): (r: seq<string>)
    ensures |r| == |rrs|
    ensures forall i :: 0 <= i < |r| ==> r[i] == Print(lib, rrs[i])
  {
    seq(|rrs|, i requires 0 <= i < |rrs| => Print(lib, rrs[i]))
  }

  /** Replace the text under a token's columns. */
  function Splice(line: string, start: nat, end: nat, text: string): string
    requires start <= end <= |line|
  {
    line[..start] + text + line[end..]
  }

  /** The serial token lies on a line of the file: what lets `Edit` index `lines`. */
  predicate SerialPlaced(f: File) {
    f.serialTok.Some? ==>
      && f.serialTok.value.line < |f.lines|
      && f.serialTok.value.start <= f.serialTok.value.end <= |f.lines[f.serialTok.value.line]|
  }

  function Bump(f: File, serial: nat): seq<string>
    requires SerialPlaced(f) && f.serialTok.Some?
  {
    var t := f.serialTok.value;
    f.lines[t.line := Splice(f.lines[t.line], t.start, t.end, Dec(serial))]
  }

  /** The lines whose number is not in `del`, the first being number `off`. */
  function KeepLines(lines: seq<string>, del: set<nat>, off: nat): seq<string>
    decreases |lines|
  {
    if lines == [] then []
    else (if off in del then [] else [lines[0]]) + KeepLines(lines[1..], del, off + 1)
  }

  /** `appendRecords`: new lines go before a trailing blank line. */
  function AppendLines(res: seq<string>, adds: seq<string>): seq<string> {
    if adds == [] then res
    else if res != [] && res[|res| - 1] == "" then res[..|res| - 1] + adds + [""]
    else res + adds
  }

  /** The input lines, the serial token rewritten, minus the deleted lines, plus the printed records. */
  ghost function EditedLines(lib: Lib, f: File, ops: seq<Op>, serial: nat): seq<string>
    requires SerialPlaced(f) && f.serialTok.Some?
  {
    AppendLines(
      KeepLines(Bump(f, serial), DeletedLines(lib, f, ops), 0),
      Prints(lib, AddedRrs(ops)))
  }

  ghost function HitLines(lib: Lib, f: File, op: Op): set<nat> {
    set i | 0 <= i < |f.records| && Hits(lib, f, op, i) :: f.records[i].start
  }

  /** `findExact`, `findRRset` and `findName`: the records an operation hits, in file order. */
  method FindTargets(lib: Lib, f: File, op: Op) returns (hits: seq<nat>)
    ensures forall i: nat :: i in hits <==> i < |f.records| && Hits(lib, f, op, i)
  {
    hits := [];
    for i := 0 to |f.records|
      invariant forall j: nat :: j in hits <==> j < i && Hits(lib, f, op, j)
      invariant op.action.DelRR? ==> forall j :: 0 <= j < i ==> !Matches(lib, op, f.records[j].rr)
    {
      if Matches(lib, op, f.records[i].rr) {
        hits := hits + [i];
        if op.action.DelRR? {
          return;
        }
      }
    }
  }

  /** The first lines of the records whose numbers are listed. */
  ghost function LinesOf(f: File, hits: seq<nat>): set<nat>
    requires forall j :: 0 <= j < |hits| ==> hits[j] < |f.records|
  {
    set j | 0 <= j < |hits| :: f.records[hits[j]].start
  }

  lemma HitLinesAre(lib: Lib, f: File, op: Op, hits: seq<nat>)
    requires forall i: nat :: i in hits <==> i < |f.records| && Hits(lib, f, op, i)
    ensures forall j :: 0 <= j < |hits| ==> hits[j] < |f.records|
    ensures HitLines(lib, f, op) == LinesOf(f, hits)
  {
    assert forall j :: 0 <= j < |hits| ==> hits[j] in hits;
    forall l | l in HitLines(lib, f, op) ensures l in LinesOf(f, hits) {
      var i: nat :| i < |f.records| && Hits(lib, f, op, i) && l == f.records[i].start;
      assert i in hits;
    }
  }

  lemma LinesOfStep(f: File, hits: seq<nat>, k: nat)
    requires k < |hits| && forall j :: 0 <= j < |hits| ==> hits[j] < |f.records|
    ensures LinesOf(f, hits[..k + 1]) == LinesOf(f, hits[..k]) + {f.records[hits[k]].start}
  {
    var a, b := hits[..k + 1], hits[..k];
    forall l | l in LinesOf(f, a) ensures l in LinesOf(f, b) + {f.records[hits[k]].start} {
      var j :| 0 <= j < |a| && l == f.records[a[j]].start;
      assert j < k ==> b[j] == a[j];
    }
    forall l | l in LinesOf(f, b) ensures l in LinesOf(f, a) {
      var j :| 0 <= j < |b| && l == f.records[b[j]].start;
      assert b[j] == a[j];
    }
    assert a[k] == hits[k];
  }

  /** The delete branches of `Edit`: every target must be deletable; its line is marked. */
  method DeleteTargets(lib: Lib, f: File, op: Op, del: set<nat>) returns (r: Result<set<nat>>)
    ensures r.Ok? <==> forall i :: 0 <= i < |f.records| && Hits(lib, f, op, i) ==> CanDelete(f, i)
    ensures r.Ok? ==> r.value == del + HitLines(lib, f, op)
  {
    var hits := FindTargets(lib, f, op);
    HitLinesAre(lib, f, op, hits);
    var out := del;
    for k := 0 to |hits|
      invariant out == del + LinesOf(f, hits[..k])
      invariant forall j :: 0 <= j < k ==> CanDelete(f, hits[j])
    {
      LinesOfStep(f, hits, k);
      if !CanDelete(f, hits[k]) {
        assert hits[k] in hits;
        return Err(Unsafe);
      }
      out := out + {f.records[hits[k]].start};
    }
    assert hits[..|hits|] == hits;
    forall i: nat | i < |f.records| && Hits(lib, f, op, i) ensures CanDelete(f, i) {
      assert i in hits;
    }
    return Ok(out);
  }

  lemma TargetedStep(lib: Lib, f: File, ops: seq<Op>, k: nat)
    requires k < |ops|
    ensures forall i :: 0 <= i < |f.records| ==>
              (Targeted(lib, f, ops[..k + 1], i) <==> Targeted(lib, f, ops[..k], i) || Hits(lib, f, ops[k], i))
    ensures DeletedLines(lib, f, ops[..k + 1]) == DeletedLines(lib, f, ops[..k]) + HitLines(lib, f, ops[k])
    ensures AddedRrs(ops[..k + 1]) == AddedRrs(ops[..k]) +
            (if ops[k].action.AddRR? && ops[k].rr.Some? then [ops[k].rr.value] else [])
  {
    assert ops[..k + 1][..k] == ops[..k];
    forall i | 0 <= i < |f.records|
      ensures Targeted(lib, f, ops[..k + 1], i) <==> Targeted(lib, f, ops[..k], i) || Hits(lib, f, ops[k], i)
    {
      if Targeted(lib, f, ops[..k], i) {
        var j :| 0 <= j < k && Hits(lib, f, ops[..k][j], i);
        assert Hits(lib, f, ops[..k + 1][j], i);
      }
      if Hits(lib, f, ops[k], i) {
        assert Hits(lib, f, ops[..k + 1][k], i);
      }
      if Targeted(lib, f, ops[..k + 1], i) {
        var j :| 0 <= j < k + 1 && Hits(lib, f, ops[..k + 1][j], i);
        assert j < k ==> Hits(lib, f, ops[..k][j], i);
      }
    }
  }

  /** The loop of `Edit` over its operations. */
  method CollectOps(lib: Lib, f: File, ops: seq<Op>) returns (r: Result<(set<nat>, seq<string>)>)
    requires Surgical(f)
    ensures r.Ok? <==> EditAccepts(lib, f, ops)
    ensures r.Ok? ==> r.value == (DeletedLines(lib, f, ops), Prints(lib, AddedRrs(ops)))
  {
    var del: set<nat> := {};
    var adds := [];
    for k := 0 to |ops|
      invariant del == DeletedLines(lib, f, ops[..k])
      invariant adds == Prints(lib, AddedRrs(ops[..k]))
      invariant forall j :: 0 <= j < k ==> WellFormedOp(ops[j])
      invariant forall i :: 0 <= i < |f.records| && Targeted(lib, f, ops[..k], i) ==> CanDelete(f, i)
    {
      TargetedStep(lib, f, ops, k);
      var op := ops[k];
      if !WellFormedOp(op) {
        return Err(BadOperation);
      }
      if op.action.AddRR? {
        adds := adds + [Print(lib, op.rr.value)];
      } else {
        var d := DeleteTargets(lib, f, op, del);
        if d.Err? {
          ghost var i :| 0 <= i < |f.records| && Hits(lib, f, op, i) && !CanDelete(f, i);
          assert Targeted(lib, f, ops, i);
          return Err(d.error);
        }
        del := d.value;
      }
    }
    assert ops[..|ops|] == ops;
    return Ok((del, adds));
  }

  /** The loop of `Edit` that drops deleted lines. */
  method DropLines(out: seq<string>, del: set<nat>) returns (res: seq<string>)
    ensures res == KeepLines(out, del, 0)
  {
    res := [];
    assert out[0..] == out;
    for i := 0 to |out|
      invariant res + KeepLines(out[i..], del, i) == KeepLines(out, del, 0)
    {
      assert out[i..][1..] == out[i + 1..];
      if i !in del {
        res := res + [out[i]];
      }
    }
  }

  /** `Edit`: collect deletions and additions, bump the serial in place, drop lines, append lines. */
  method Edit(lib: Lib, f: File, ops: seq<Op>, today: nat) returns (r: Result<string>)
    requires Surgical(f) ==> f.serialTok.Some? && SerialPlaced(f)
    ensures r.Ok? <==> EditAccepts(lib, f, ops)
    ensures r.Ok? ==> r.value == Join(EditedLines(lib, f, ops, NextSerial(SoaSerial(f), today)))
  {
    if f.refused.Some? {
      return Err(Unsafe);
    }
    var c := CollectOps(lib, f, ops);
    if c.Err? {
      return Err(c.error);
    }
    var (del, adds) := c.value;
    var t := f.serialTok.value;
    var out := f.lines[t.line := Splice(f.lines[t.line], t.start, t.end, Dec(NextSerial(SoaSerial(f), today)))];
    var res := DropLines(out, del);
    return Ok(Join(AppendLines(res, adds)));
  }

  /** `SerialFloor`: only the serial changes, to the successor of the larger of file and floor. */
  method SerialFloor(f: File, floor: nat, today: nat) returns (r: Result<string>)
    requires SerialPlaced(f)
    ensures r.Ok? <==> Surgical(f) && f.serialTok.Some?
    ensures r.Ok? ==> r.value == Join(Bump(f, FloorSerial(SoaSerial(f), floor, today)))
  {
    if f.refused.Some? || f.serialTok.None? {
      return Err(Unsafe);
    }
    var base := SoaSerial(f);
    if floor > base {
      base := floor;
    }
    return Ok(Join(Bump(f, NextSerial(base, today))));
  }

  function FloorSerial(cur: nat, floor: nat, today: nat): nat {
    NextSerial(if floor > cur then floor else cur, today)
  }
}
