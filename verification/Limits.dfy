/**
 * Inputs the in-place editor accepts on which it does not keep its promise, one for each
 * hypothesis of the theorems, and one input on which every hypothesis holds.
 */
module Limits {
  import opened Text
  import opened Tokenizer
  import opened Resolver
  import opened ZoneFile
  import opened Printing
  import opened Surgery
  import opened Preservation
  import opened EditTheorem
  import opened EditClosure
  import opened EditExact
  import opened Samples

  // ----- A small library -----

  /** The address 10.0.0.1 in the generic form of RFC 3597. */
  const GENERIC: seq<string> := ["\\#", "4", "0a000001"]

  /** A library that knows two types, reads the generic form of one address, and takes other data as written. */
  function SmallLib(): Lib {
    Lib(map[1 := "A", SOA := "SOA"], map["A" := 1, "SOA" := SOA],
        (t, data, scope) => if t == 1 && data == GENERIC then Some(["10.0.0.1"]) else Some(data))
  }

  lemma SmallLibValid()
    ensures ValidLib(SmallLib())
  {
    assert Upper("A") == "A" && Upper("SOA") == "SOA";
  }

  lemma ClassWords()
    ensures IsClass("IN") && IsClassWord("IN")
    ensures !IsClassWord("A") && !IsClassWord("SOA") && !IsClassWord("TYPE1") && !IsClassWord("60")
            && !IsClassWord("300")
  {
    assert Upper("IN") == "IN" && Upper("A") == "A" && Upper("SOA") == "SOA";
    assert Upper("60") == "60" && Upper("300") == "300" && Upper("TYPE1") == "TYPE1";
  }

  lemma TypeWords()
    ensures TypeOf(SmallLib(), "A") == Some(1) && TypeOf(SmallLib(), "SOA") == Some(SOA)
            && TypeOf(SmallLib(), "TYPE1") == Some(1)
    ensures TypeOf(SmallLib(), "60").None? && TypeOf(SmallLib(), "300").None?
  {
    assert Upper("A") == "A" && Upper("SOA") == "SOA" && Upper("60") == "60" && Upper("300") == "300"
      && Upper("TYPE1") == "TYPE1";
    assert "TYPE1"[..4] == "TYPE" && "TYPE1"[4..] == "1" && Upper("TYPE") == "TYPE";
    assert "1"[..0] == "" && Value("1") == 1;
  }

  lemma TtlWords()
    ensures TtlOf("60") == Some(60) && TtlOf("300") == Some(300) && TtlOf("900") == Some(900)
  {
    assert "60"[1..] == "0" && "0"[1..] == "" && "300"[1..] == "00" && "00"[1..] == "0" && "900"[1..] == "00";
    assert TtlFrom("", 0, 60) == Some(60) && TtlFrom("0", 0, 6) == Some(60);
    assert TtlFrom("", 0, 300) == Some(300) && TtlFrom("0", 0, 30) == Some(300) && TtlFrom("00", 0, 3) == Some(300);
    assert TtlFrom("", 0, 900) == Some(900) && TtlFrom("0", 0, 90) == Some(900) && TtlFrom("00", 0, 9) == Some(900);
  }

  // ----- Files of an SOA and two addresses -----

  const S_ROW: seq<string> := ["z.", "60", "IN", "SOA", "n", "m", "7", "1", "1", "1", "1"]
  const A_ROW: seq<string> := ["a.", "300", "IN", "A", "10.0.0.9"]
  const TTL_ROW: seq<string> := ["$TTL", "900"]

  function Rows(b: seq<string>, late: bool): seq<seq<string>> {
    [S_ROW, A_ROW, b] + (if late then [TTL_ROW] else [])
  }

  function ItemsOfRows(b: seq<string>, late: bool): seq<Item> {
    [Item(Record, true, S_ROW, 0), Item(Record, true, A_ROW, 0), Item(Record, true, b, 0)]
    + (if late then [Item(Directive(Ttl), false, TTL_ROW, 0)] else [])
  }

  /** The third row: an address of `b.`, read with the given header. */
  ghost predicate BRow(b: seq<string>, h: Head) {
    && PlainRow(b) && b[0] == "b." && h.rtype == 1 && HeadOf(SmallLib(), Item(Record, true, b, 0)) == Some(h)
    && (h.ttl.Some? || h.cls)
  }

  lemma PlainSRow()
    ensures PlainRow(S_ROW)
  {
  }

  lemma PlainARow()
    ensures PlainRow(A_ROW) && PlainRow(TTL_ROW)
  {
  }

  lemma PlainS()
    ensures PlainRow(S_ROW) && PlainRow(A_ROW) && PlainRow(TTL_ROW)
  {
    PlainSRow();
    PlainARow();
  }

  lemma Directives(b: seq<string>)
    requires b != [] && b[0] == "b."
    ensures RowItem(S_ROW) == Item(Record, true, S_ROW, 0) && RowItem(A_ROW) == Item(Record, true, A_ROW, 0)
    ensures RowItem(b) == Item(Record, true, b, 0) && RowItem(TTL_ROW) == Item(Directive(Ttl), false, TTL_ROW, 0)
  {
    assert |Upper("z.")| == 2 && |Upper("a.")| == 2 && |Upper("b.")| == 2;
    assert Upper("$TTL") == "$TTL";
  }

  lemma RowsPlain(b: seq<string>, late: bool)
    requires PlainRow(b)
    ensures PlainRows(Rows(b, late))
  {
    PlainS();
    AllPlain(S_ROW, A_ROW, b, TTL_ROW, late);
  }

  lemma AllPlain(s: seq<string>, a: seq<string>, b: seq<string>, t: seq<string>, late: bool)
    requires PlainRow(s) && PlainRow(a) && PlainRow(b) && PlainRow(t)
    ensures PlainRows([s, a, b] + (if late then [t] else []))
  {
  }

  lemma ItemsAre(s: seq<string>, a: seq<string>, b: seq<string>, t: seq<string>, late: bool)
    requires PlainRow(s) && PlainRow(a) && PlainRow(b) && PlainRow(t)
    requires PlainRows([s, a, b] + (if late then [t] else []))
    ensures RowItems([s, a, b] + (if late then [t] else []))
            == [RowItem(s), RowItem(a), RowItem(b)] + (if late then [RowItem(t)] else [])
  {
  }

  lemma RowsItems(b: seq<string>, late: bool)
    requires PlainRow(b) && b[0] == "b."
    ensures PlainRows(Rows(b, late)) && FileItems(TextOfRows(Rows(b, late))) == ItemsOfRows(b, late)
  {
    PlainS();
    RowsPlain(b, late);
    Directives(b);
    ItemsAre(S_ROW, A_ROW, b, TTL_ROW, late);
    RowsRead(Rows(b, late));
  }

  lemma HeadS()
    ensures HeadOf(SmallLib(), Item(Record, true, S_ROW, 0)) == Some(Head(Some(60), true, 3, SOA))
  {
    ClassWords();
    TypeWords();
    TtlWords();
    var lib := SmallLib();
    assert HeadFrom(lib, S_ROW, 3, Some(60), true) == Some(Head(Some(60), true, 3, SOA));
    assert HeadFrom(lib, S_ROW, 2, Some(60), false) == Some(Head(Some(60), true, 3, SOA));
  }

  lemma HeadA()
    ensures HeadOf(SmallLib(), Item(Record, true, A_ROW, 0)) == Some(Head(Some(300), true, 3, 1))
  {
    ClassWords();
    TypeWords();
    TtlWords();
    var lib := SmallLib();
    assert HeadFrom(lib, A_ROW, 3, Some(300), true) == Some(Head(Some(300), true, 3, 1));
    assert HeadFrom(lib, A_ROW, 2, Some(300), false) == Some(Head(Some(300), true, 3, 1));
  }

  // ----- What the reader makes of them -----

  /** The records: the SOA, `a.` and `b.`, which takes the TTL of `a.` if it states none. */
  function Records(b: seq<string>, h: Head): seq<Rr>
    requires h.at < |b|
  {
    [Rr("z.", SOA, 60, S_ROW[4..]), Rr("a.", 1, 300, ["10.0.0.9"]), BRecord(b, h, 300)]
  }

  function BRecord(b: seq<string>, h: Head, ttl: nat): Rr
    requires h.at < |b|
  {
    Rr("b.", 1, if h.ttl.Some? then h.ttl.value else ttl,
       if b[h.at + 1..] == GENERIC then ["10.0.0.1"] else b[h.at + 1..])
  }

  lemma ReadS(ctx: Ctx)
    ensures ReadRecord(SmallLib(), ctx, Item(Record, true, S_ROW, 0)) == Some(Rr("z.", SOA, 60, S_ROW[4..]))
    ensures AfterRecord(SmallLib(), ctx, Item(Record, true, S_ROW, 0)).ttl
            == if ctx.ttl.Directed? then ctx.ttl else Inherited(60)
  {
    HeadS();
    SevenReads();
    var data := S_ROW[4..];
    assert data[2] == "7" && data == ["n", "m", "7", "1", "1", "1", "1"];
    assert data[..2] + data[3..] == ["n", "m", "1", "1", "1", "1"];
    assert ["n", "m"] + ["7"] + ["1", "1", "1", "1"] == data;
    var d := data[..2] + data[3..];
    assert d[..2] == ["n", "m"] && d[2..] == ["1", "1", "1", "1"];
  }

  lemma SevenReads()
    ensures ParseUint32("7") == Some(7) && Dec(7) == "7"
  {
    assert "7"[..0] == "";
    assert Dec(7) == [Digit(7)] && Digit(7) == '7';
  }

  lemma ReadA(ctx: Ctx)
    ensures ReadRecord(SmallLib(), ctx, Item(Record, true, A_ROW, 0)) == Some(Rr("a.", 1, 300, ["10.0.0.9"]))
    ensures AfterRecord(SmallLib(), ctx, Item(Record, true, A_ROW, 0)).ttl
            == if ctx.ttl.Directed? then ctx.ttl else Inherited(300)
  {
    HeadA();
    assert A_ROW[4..] == ["10.0.0.9"];
  }

  lemma ReadB(b: seq<string>, h: Head, ctx: Ctx, ttl: nat)
    requires BRow(b, h) && ctx.ttl == Inherited(ttl)
    ensures ReadRecord(SmallLib(), ctx, Item(Record, true, b, 0)) == Some(BRecord(b, h, ttl))
  {
    assert "b."[1] == '.';
  }

  lemma ResolveRest(late: bool, ctx: Ctx)
    ensures Resolve(SmallLib(), ctx, if late then [Item(Directive(Ttl), false, TTL_ROW, 0)] else [])
            == Resolved([], true)
  {
    TtlWords();
    var t := Item(Directive(Ttl), false, TTL_ROW, 0);
    assert [t][1..] == [];
  }

  lemma ResolveB(b: seq<string>, h: Head, late: bool, ctx: Ctx, ttl: nat)
    requires BRow(b, h) && ctx.ttl == Inherited(ttl)
    ensures Resolve(SmallLib(), ctx, Tail(b, late)) == Resolved([BRecord(b, h, ttl)], true)
  {
    ReadB(b, h, ctx, ttl);
    var it, rest := Item(Record, true, b, 0), if late then [Item(Directive(Ttl), false, TTL_ROW, 0)] else [];
    assert ([it] + rest)[1..] == rest;
    ResolveRest(late, AfterRecord(SmallLib(), ctx, it));
  }

  function Tail(b: seq<string>, late: bool): seq<Item> {
    [Item(Record, true, b, 0)] + (if late then [Item(Directive(Ttl), false, TTL_ROW, 0)] else [])
  }

  lemma ItemsSplit(b: seq<string>, late: bool)
    ensures var items := ItemsOfRows(b, late);
            && |items| >= 3 && items[2..] == Tail(b, late)
            && items[0] == Item(Record, true, S_ROW, 0) && items[1] == Item(Record, true, A_ROW, 0)
  {
  }

  lemma ResolveItems(b: seq<string>, h: Head, late: bool, ctx: Ctx)
    requires BRow(b, h) && ctx.ttl == Unset
    ensures Resolve(SmallLib(), ctx, ItemsOfRows(b, late)) == Resolved(Records(b, h), true)
  {
    var lib, s, a := SmallLib(), Item(Record, true, S_ROW, 0), Item(Record, true, A_ROW, 0);
    ItemsSplit(b, late);
    ReadS(ctx);
    var ctx1 := AfterRecord(lib, ctx, s);
    ReadA(ctx1);
    var ctx2 := AfterRecord(lib, ctx1, a);
    ResolveB(b, h, late, ctx2, 300);
    ResolveTwo(lib, ctx, ItemsOfRows(b, late), Tail(b, late));
  }

  lemma MeaningIs(b: seq<string>, h: Head, late: bool)
    requires BRow(b, h)
    ensures Meaning(SmallLib(), "z.", TextOfRows(Rows(b, late))) == Resolved(Records(b, h), true)
  {
    RowsItems(b, late);
    MeaningItems(SmallLib(), "z.", TextOfRows(Rows(b, late)));
    ResolveItems(b, h, late, Start("z."));
  }

  lemma ResolveTwo(lib: Lib, ctx: Ctx, items: seq<Item>, rest: seq<Item>)
    requires |items| >= 2 && items[2..] == rest
    requires items[0].kind.Record? && items[1].kind.Record? && items[0].depth == 0 && items[1].depth == 0
    requires ReadRecord(lib, ctx, items[0]).Some?
    requires var ctx1 := AfterRecord(lib, ctx, items[0]);
             ReadRecord(lib, ctx1, items[1]).Some? && Resolve(lib, AfterRecord(lib, ctx1, items[1]), rest).ok
    ensures var ctx1 := AfterRecord(lib, ctx, items[0]);
            Resolve(lib, ctx, items)
            == Resolved([ReadRecord(lib, ctx, items[0]).value, ReadRecord(lib, ctx1, items[1]).value]
                        + Resolve(lib, AfterRecord(lib, ctx1, items[1]), rest).rrs, true)
  {
    assert items[1..][1..] == rest;
    assert items[1..][0] == items[1];
  }

  // ----- What opening and editing them says -----

  lemma RecordItemsAre(b: seq<string>, late: bool)
    ensures RecordItems(ItemsOfRows(b, late))
            == [Item(Record, true, S_ROW, 0), Item(Record, true, A_ROW, 0), Item(Record, true, b, 0)]
    ensures Orderly(ItemsOfRows(b, late), false)
  {
    var items := ItemsOfRows(b, late);
    var rest := if late then [Item(Directive(Ttl), false, TTL_ROW, 0)] else [];
    assert items[1..][1..][1..] == rest;
    assert items[1..][0] == items[1] && items[1..][1..][0] == items[2];
    assert late ==> rest[1..] == [];
    assert RecordItems(rest) == [] && Orderly(rest, true);
    assert RecordItems(items[1..][1..]) == [items[2]];
    assert RecordItems(items[1..]) == [items[1], items[2]];
  }

  lemma SoaPlainlySpelled()
    ensures SoaSpelled(SmallLib(), Item(Record, true, S_ROW, 0))
  {
    HeadS();
    assert |Upper("z.")| == 2 && |Upper("SOA")| == 3;
  }

  /** Every such file opens for editing, its SOA spelled plainly. */
  lemma Opens(b: seq<string>, h: Head, late: bool) returns (f: File)
    requires BRow(b, h)
    ensures Opened(SmallLib(), "z.", TextOfRows(Rows(b, late)), f) && SoaPlain(SmallLib(), TextOfRows(Rows(b, late)), f)
    ensures f.soa == Some(0) && SoaSerial(f) == 7
  {
    var data := TextOfRows(Rows(b, late));
    SmallLibValid();
    MeaningIs(b, h, late);
    RowsItems(b, late);
    RecordItemsAre(b, late);
    SoaPlainlySpelled();
    LastIsFirst(b, h);
    f := PlainFileOpens(SmallLib(), "z.", data);
    OpenedRecords(SmallLib(), "z.", data, f);
    SevenReads();
  }

  lemma LastIsFirst(b: seq<string>, h: Head)
    requires h.at < |b|
    ensures LastSoa(Records(b, h)) == Some(0)
  {
    LastSoaIs(Records(b, h), 0);
  }

  /** The deletion: every record at `a.`. */
  const DELETE_A := Op(DelName, Some(Rr("a.", 1, 300, ["10.0.0.9"])))

  lemma FirstThree(es: seq<Entry>)
    requires 3 <= |es| <= 4 && es[0].kind.Record? && es[1].kind.Record? && es[2].kind.Record?
    requires |es| == 4 ==> !es[3].kind.Record?
    ensures RecordEntries(es) == es[..3]
  {
    var rest := es[3..];
    assert es[1..][1..][1..] == rest && es[1..][0] == es[1] && es[1..][1..][0] == es[2];
    assert |rest| == 1 ==> rest[0] == es[3] && rest[1..] == [];
    assert RecordEntries(rest) == [];
    assert RecordEntries(es[1..][1..]) == [es[2]];
    assert RecordEntries(es[1..]) == [es[1], es[2]];
  }

  /** The entries: a line each, naming its owner. */
  ghost predicate ThreeEntries(es: seq<Entry>, b: seq<string>, late: bool) {
    && |es| == (if late then 4 else 3)
    && es[0].kind.Record? && es[1].kind.Record? && es[2].kind.Record? && (late ==> es[3].kind == Directive(Ttl))
    && es[1].explicit && es[1].start == es[1].end && es[2].explicit && Texts(es[2].toks) == b
  }

  lemma EntriesOfThree(es: seq<Entry>, b: seq<string>, late: bool)
    requires ThreeEntries(es, b, late)
    ensures RecordEntries(es) == es[..3] && HasTtlDirective(es) == late
  {
    FirstThree(es);
    if late {
      assert es[3].kind == Directive(Ttl);
    }
  }

  lemma RowsThree(b: seq<string>, late: bool)
    ensures var rows := Rows(b, late);
            |rows| == (if late then 4 else 3) && rows[0] == S_ROW && rows[1] == A_ROW && rows[2] == b
              && (late ==> rows[3] == TTL_ROW)
  {
  }

  lemma EntriesAre(b: seq<string>, late: bool)
    requires PlainRow(b) && b[0] == "b."
    ensures ThreeEntries(Entries(Split(TextOfRows(Rows(b, late)))), b, late)
  {
    RowsPlain(b, late);
    Directives(b);
    RowsThree(b, late);
    EntriesFromRows(Rows(b, late), b, late);
  }

  lemma EntriesFromRows(rows: seq<seq<string>>, b: seq<string>, late: bool)
    requires PlainRows(rows) && |rows| == (if late then 4 else 3) && rows[2] == b
    requires RowItem(rows[0]).kind.Record? && RowItem(rows[1]).kind.Record? && RowItem(b).kind.Record?
    requires late ==> RowItem(rows[3]).kind == Directive(Ttl)
    ensures ThreeEntries(Entries(Split(TextOfRows(rows))), b, late)
  {
    RowEntry(rows, 0);
    RowEntry(rows, 1);
    RowEntry(rows, 2);
    if late {
      RowEntry(rows, 3);
    }
  }

  /** What the opened file records of the three. */
  ghost predicate ThreeRecs(f: File, b: seq<string>, late: bool) {
    && |f.records| == 3 && f.soa == Some(0) && f.hasTtlDirective == late && Surgical(f)
    && f.records[0].rr.name == "z." && f.records[1].rr.name == "a." && f.records[2].rr.name == "b."
    && f.records[1].explicit && f.records[1].start == f.records[1].end && f.records[2].explicit
    && f.records[2].explicitTtl == StatesTtl(b, 1, "A")
  }

  lemma RecsOfThree(es: seq<Entry>, rrs: seq<Rr>, f: File, b: seq<string>, late: bool)
    requires ThreeEntries(es, b, late) && |rrs| == 3 && |f.records| == 3 && b != []
    requires rrs[0].name == "z." && rrs[1].name == "a." && rrs[2].name == "b." && rrs[2].rtype == 1
    requires forall i :: 0 <= i < 3 ==> f.records[i] == RecOf(SmallLib(), es[i], rrs[i])
    requires f.soa == Some(0) && f.hasTtlDirective == late && Surgical(f)
    ensures ThreeRecs(f, b, late)
  {
    assert f.records[0] == RecOf(SmallLib(), es[0], rrs[0]) && f.records[1] == RecOf(SmallLib(), es[1], rrs[1]);
    assert f.records[2] == RecOf(SmallLib(), es[2], rrs[2]);
    assert es[2].toks != [];
  }

  lemma RecsAre(b: seq<string>, h: Head, late: bool, f: File)
    requires BRow(b, h) && Opened(SmallLib(), "z.", TextOfRows(Rows(b, late)), f)
    ensures ThreeRecs(f, b, late)
  {
    var data := TextOfRows(Rows(b, late));
    var es := Entries(Split(data));
    MeaningIs(b, h, late);
    EntriesAre(b, late);
    EntriesOfThree(es, b, late);
    LastIsFirst(b, h);
    OpenedRecs(SmallLib(), "z.", data, f, es, Records(b, h));
    RecsOfThree(es, Records(b, h), f, b, late);
  }

  lemma OpenedRecs(lib: Lib, origin: string, data: string, f: File, es: seq<Entry>, rrs: seq<Rr>)
    requires Opened(lib, origin, data, f) && es == Entries(Split(data)) && Meaning(lib, origin, data).rrs == rrs
    requires |es| >= 3 && RecordEntries(es) == es[..3]
    ensures |f.records| == 3 == |rrs| && f.soa == LastSoa(rrs) && f.hasTtlDirective == HasTtlDirective(es)
            && Surgical(f)
    ensures forall i :: 0 <= i < 3 ==> f.records[i] == RecOf(lib, es[i], rrs[i])
  {
    OpenedRecords(lib, origin, data, f);
    var recs := RecordEntries(es);
    assert f.records[0] == RecOf(lib, recs[0], rrs[0]) && f.records[1] == RecOf(lib, recs[1], rrs[1]);
    assert f.records[2] == RecOf(lib, recs[2], rrs[2]);
  }

  lemma NamesDiffer()
    ensures !EqualFold("z.", "a.") && !EqualFold("b.", "a.")
  {
    assert Upper("a.")[0] == 'A' && Upper("b.")[0] == 'B' && Upper("z.")[0] == 'Z';
  }

  /** The deletion is accepted if the file has a `$TTL` or `b.` seems to state its TTL; it hits `a.` only. */
  lemma Accepts(f: File, b: seq<string>, late: bool)
    requires ThreeRecs(f, b, late)
    ensures EditAccepts(SmallLib(), f, [DELETE_A]) <==> late || StatesTtl(b, 1, "A")
    ensures Dead(SmallLib(), f, [DELETE_A]) == {1} && AddedRrs([DELETE_A]) == []
  {
    NamesDiffer();
    var ops := [DELETE_A];
    assert ops[0] == DELETE_A;
    forall i: nat | i < 3 ensures Targeted(SmallLib(), f, ops, i) <==> i == 1 {
      assert Hits(SmallLib(), f, ops[0], i) <==> i == 1;
    }
    assert WellFormedOp(DELETE_A);
    assert CanDelete(f, 1) <==> late || StatesTtl(b, 1, "A");
    assert Targeted(SmallLib(), f, ops, 1);
    assert [DELETE_A][..0] == [];
  }

  /** The deletion leaves every TTL alone exactly if `b.` states its own. */
  lemma Keeps(b: seq<string>, h: Head, late: bool)
    requires BRow(b, h)
    ensures TtlsSafe(SmallLib(), Unset, Unset, ItemsOfRows(b, late), {1}, 0) <==> h.ttl.Some?
  {
    HeadS();
    HeadA();
    TtlWords();
    ItemsSplit(b, late);
    var lib, items := SmallLib(), ItemsOfRows(b, late);
    var tail := Tail(b, late);
    assert items[1..][1..] == tail && items[1..][0] == items[1];
    var rest := if late then [Item(Directive(Ttl), false, TTL_ROW, 0)] else [];
    assert tail[1..] == rest;
    SafeRest(late, Inherited(300), Inherited(60));
    SafeRest(late, DefaultAfter(Inherited(300), h), DefaultAfter(Inherited(60), h));
    assert TtlsSafe(lib, Inherited(300), Inherited(60), tail, {1}, 2) <==> h.ttl.Some?;
    assert TtlsSafe(lib, Inherited(60), Inherited(60), items[1..], {1}, 1) <==> h.ttl.Some?;
  }

  lemma SafeRest(late: bool, full: Default, kept: Default)
    ensures TtlsSafe(SmallLib(), full, kept, if late then [Item(Directive(Ttl), false, TTL_ROW, 0)] else [], {1}, 3)
  {
    TtlWords();
    var t := Item(Directive(Ttl), false, TTL_ROW, 0);
    assert [t][1..] == [];
  }

  // ----- The limits -----

  /** An accepted edit of an opened file that takes its TTL from another record. */
  ghost predicate Strands(data: string, f: File, ops: seq<Op>) {
    && Opened(SmallLib(), "z.", data, f) && SoaPlain(SmallLib(), data, f) && EditAccepts(SmallLib(), f, ops)
    && AllPrintable(SmallLib(), AddedRrs(ops)) && f.serialTok.Some? && SerialPlaced(f)
    && !KeepsTtls(SmallLib(), data, f, ops)
    && (forall serial: nat :: serial < UINT32 ==>
          Meaning(SmallLib(), "z.", Edited(SmallLib(), f, ops, serial))
          != Resolved(Intended(SmallLib(), "z.", data, f, ops, serial), true))
  }

  /** Whenever `b.` states no TTL and the deletion of `a.` is accepted, the text loses the TTL of `b.`. */
  lemma StrandsB(b: seq<string>, h: Head, late: bool) returns (f: File)
    requires BRow(b, h) && h.ttl.None? && (late || StatesTtl(b, 1, "A"))
    ensures Strands(TextOfRows(Rows(b, late)), f, [DELETE_A])
    ensures Meaning(SmallLib(), "z.", TextOfRows(Rows(b, late))) == Resolved(Records(b, h), true)
  {
    var lib, data, ops := SmallLib(), TextOfRows(Rows(b, late)), [DELETE_A];
    f := Opens(b, h, late);
    RecsAre(b, h, late, f);
    Accepts(f, b, late);
    RowsItems(b, late);
    Keeps(b, h, late);
    MeaningIs(b, h, late);
    Placed(lib, "z.", data, f);
    forall serial: nat | serial < UINT32
      ensures Meaning(lib, "z.", Edited(lib, f, ops, serial))
              != Resolved(Intended(lib, "z.", data, f, ops, serial), true)
    {
      EditPreservesMeaning(lib, "z.", data, f, ops, serial);
    }
  }

  const B_PLAIN: seq<string> := ["b.", "IN", "A", "10.0.0.1"]
  const B_GENERIC: seq<string> := ["b.", "IN", "TYPE1", "\\#", "4", "0a000001"]
  const B_STATED: seq<string> := ["b.", "300", "IN", "A", "10.0.0.1"]

  lemma PlainBs()
    ensures PlainRow(B_PLAIN) && PlainRow(B_STATED)
  {
  }

  lemma PlainGeneric()
    ensures PlainRow(B_GENERIC)
  {
  }

  lemma HeadPlain()
    ensures BRow(B_PLAIN, Head(None, true, 2, 1))
  {
    PlainBs();
    ClassWords();
    TypeWords();
    assert HeadFrom(SmallLib(), B_PLAIN, 2, None, true) == Some(Head(None, true, 2, 1));
  }

  lemma HeadGeneric()
    ensures BRow(B_GENERIC, Head(None, true, 2, 1))
  {
    PlainGeneric();
    ClassWords();
    TypeWords();
    assert HeadFrom(SmallLib(), B_GENERIC, 2, None, true) == Some(Head(None, true, 2, 1));
  }

  lemma HeadStated()
    ensures BRow(B_STATED, Head(Some(300), true, 3, 1))
  {
    PlainBs();
    ClassWords();
    TypeWords();
    TtlWords();
    StatedFrom(B_STATED);
  }

  lemma StatedFrom(b: seq<string>)
    requires |b| == 5 && b[0] == "b." && b[1] == "300" && b[2] == "IN" && b[3] == "A"
    requires IsClassWord("IN") && !IsClassWord("300") && !IsClassWord("A")
    requires TypeOf(SmallLib(), "300").None? && TypeOf(SmallLib(), "A") == Some(1) && TtlOf("300") == Some(300)
    ensures HeadOf(SmallLib(), Item(Record, true, b, 0)) == Some(Head(Some(300), true, 3, 1))
  {
    assert HeadFrom(SmallLib(), b, 3, Some(300), true) == Some(Head(Some(300), true, 3, 1));
    assert HeadFrom(SmallLib(), b, 2, Some(300), false) == Some(Head(Some(300), true, 3, 1));
  }

  /**
   * In the generic form `hasExplicitTTL` does not know the type, reads on, and takes the length of the data
   * for a TTL.
   */
  lemma GenericStates()
    ensures StatesTtl(B_GENERIC, 1, "A")
  {
    ClassWords();
    assert |Upper("IN")| == 2 && |Upper("TYPE1")| == 5 && |Upper("A")| == 1 && |Upper("4")| == 1 && |Upper("\\#")| == 2;
    assert Upper("4")[0] == '4' && Upper("A")[0] == 'A';
    assert !LooksLikeTtl("TYPE1") by {
      assert "TYPE1"[0] == 'T' && Unit('T') == 0;
    }
    assert LooksLikeTtl("4") by {
      assert IsDigit("4"[0]);
    }
    assert StatesTtl(B_GENERIC, 4, "A");
    assert StatesTtl(B_GENERIC, 3, "A");
    assert StatesTtl(B_GENERIC, 2, "A");
  }

  lemma ThirdOf(b: seq<string>, h: Head, data: seq<string>)
    requires h.at < |b| && h.ttl.None? && data == (if b[h.at + 1..] == GENERIC then ["10.0.0.1"] else b[h.at + 1..])
    ensures Records(b, h)[2] == Rr("b.", 1, 300, data)
  {
  }

  /**
   * `$TTL` on the last line: the deletion of `a.` is accepted, because the file has a `$TTL` and
   * `b.` names its owner, yet `b.` took its TTL of 300 from `a.`, and the edited text means something else.
   */
  lemma LateTtlStrands() returns (f: File)
    ensures Strands(TextOfRows(Rows(B_PLAIN, true)), f, [DELETE_A])
    ensures var rrs := Meaning(SmallLib(), "z.", TextOfRows(Rows(B_PLAIN, true))).rrs;
            |rrs| == 3 && rrs[2] == Rr("b.", 1, 300, ["10.0.0.1"])
  {
    HeadPlain();
    f := StrandsB(B_PLAIN, Head(None, true, 2, 1), true);
    assert B_PLAIN[3..] == ["10.0.0.1"];
    ThirdOf(B_PLAIN, Head(None, true, 2, 1), ["10.0.0.1"]);
  }

  /** The type of `b.` written TYPE1: the same edit is accepted without any `$TTL`, and strands it as well. */
  lemma GenericTypeHidesTtl() returns (f: File)
    ensures Strands(TextOfRows(Rows(B_GENERIC, false)), f, [DELETE_A])
    ensures var rrs := Meaning(SmallLib(), "z.", TextOfRows(Rows(B_GENERIC, false))).rrs;
            |rrs| == 3 && rrs[2] == Rr("b.", 1, 300, ["10.0.0.1"])
  {
    HeadGeneric();
    GenericStates();
    f := StrandsB(B_GENERIC, Head(None, true, 2, 1), false);
    assert B_GENERIC[3..] == GENERIC;
    ThirdOf(B_GENERIC, Head(None, true, 2, 1), ["10.0.0.1"]);
  }

  // ----- Records that print -----

  const C_RR := Rr("c.", 1, 300, ["10.0.0.3"])
  const NEW_SOA := Rr("z.", SOA, 60, ["n", "m", "9", "1", "1", "1", "1"])

  lemma WholeWords()
    ensures WholeToken("c.") && WholeToken("10.0.0.3") && WholeToken("A")
  {
    PlainWhole("c.");
    PlainWhole("10.0.0.3");
    PlainWhole("A");
  }

  lemma WholeSoaWords()
    ensures WholeToken("z.") && WholeToken("SOA") && WholeToken("n") && WholeToken("m") && WholeToken("9")
            && WholeToken("1")
  {
    PlainWhole("z.");
    PlainWhole("SOA");
    PlainWhole("n");
    PlainWhole("m");
    PlainWhole("9");
    PlainWhole("1");
  }

  lemma AddressPrints()
    ensures Printable(SmallLib(), C_RR)
  {
    ClassWords();
    WholeWords();
    assert C_RR.rdata != GENERIC;
  }

  lemma NineReads()
    ensures ParseUint32("9") == Some(9) && Dec(9) == "9"
  {
    assert "9"[..0] == "";
    assert Dec(9) == [Digit(9)] && Digit(9) == '9';
  }

  lemma NewSoaData(scope: string)
    ensures DataOf(SmallLib(), SOA, NEW_SOA.rdata, scope) == Some(NEW_SOA.rdata)
  {
    NineReads();
    var data := NEW_SOA.rdata;
    assert data[2] == "9";
    var d := data[..2] + data[3..];
    assert d == ["n", "m", "1", "1", "1", "1"] && d[..2] == ["n", "m"] && d[2..] == ["1", "1", "1", "1"];
    assert ["n", "m"] + ["9"] + ["1", "1", "1", "1"] == data;
    assert SmallLib().read(SOA, d, scope) == Some(d);
  }

  lemma SoaPrints()
    ensures Printable(SmallLib(), NEW_SOA)
  {
    ClassWords();
    WholeSoaWords();
    var data := NEW_SOA.rdata;
    forall i | 0 <= i < |data| ensures WholeToken(data[i]) {
      assert data[i] == "n" || data[i] == "m" || data[i] == "9" || data[i] == "1";
    }
    forall scope ensures DataOf(SmallLib(), SOA, NEW_SOA.rdata, scope) == Some(NEW_SOA.rdata) {
      NewSoaData(scope);
    }
  }

  const ADD_C := Op(AddRR, Some(C_RR))
  const ADD_SOA := Op(AddRR, Some(NEW_SOA))

  /** A deletion and an addition: accepted like the deletion, and only the deletion hits. */
  lemma AcceptsBoth(f: File, b: seq<string>, late: bool)
    requires ThreeRecs(f, b, late)
    ensures EditAccepts(SmallLib(), f, [DELETE_A, ADD_C]) <==> late || StatesTtl(b, 1, "A")
    ensures Dead(SmallLib(), f, [DELETE_A, ADD_C]) == {1} && AddedRrs([DELETE_A, ADD_C]) == [C_RR]
  {
    Accepts(f, b, late);
    var one, ops := [DELETE_A], [DELETE_A, ADD_C];
    assert one[0] == ops[0] == DELETE_A && ops[1] == ADD_C;
    forall i: nat | i < 3 ensures Targeted(SmallLib(), f, ops, i) <==> Targeted(SmallLib(), f, one, i) {
      assert Hits(SmallLib(), f, ops[0], i) <==> Hits(SmallLib(), f, one[0], i);
      assert !Hits(SmallLib(), f, ops[1], i);
    }
    assert WellFormedOp(DELETE_A) && WellFormedOp(ADD_C);
    assert ops[..1] == one;
  }

  /** Adding alone hits nothing. */
  lemma AcceptsAddition(f: File, op: Op)
    requires Surgical(f) && op.action.AddRR? && op.rr.Some?
    ensures EditAccepts(SmallLib(), f, [op]) && Dead(SmallLib(), f, [op]) == {} && AddedRrs([op]) == [op.rr.value]
  {
    var ops := [op];
    assert WellFormedOp(op) && ops[..0] == [];
    forall i: nat | i < |f.records| ensures !Targeted(SmallLib(), f, ops, i) {
      assert !Hits(SmallLib(), f, ops[0], i);
    }
  }

  lemma OnePrints(rr: Rr)
    requires Printable(SmallLib(), rr)
    ensures AllPrintable(SmallLib(), [rr])
  {
  }

  /** The file opens, is sound, and takes the deletion and the addition with every serial. */
  lemma SoundFile() returns (f: File)
    ensures var data := TextOfRows(Rows(B_STATED, false));
            && Sound(SmallLib(), "z.", data, f) && ThreeRecs(f, B_STATED, false)
            && FileItems(data) == ItemsOfRows(B_STATED, false) && f.serialTok.Some? && SerialPlaced(f)
  {
    var h := Head(Some(300), true, 3, 1);
    HeadStated();
    f := Opens(B_STATED, h, false);
    RecsAre(B_STATED, h, false, f);
    RowsItems(B_STATED, false);
    StatedBenign();
    Placed(SmallLib(), "z.", TextOfRows(Rows(B_STATED, false)), f);
  }

  /**
   * A file and an edit that meet every hypothesis: it opens, is sound, a deletion and an addition
   * are accepted with every serial, and the text then means exactly what was asked.
   */
  lemma HypothesesMeet() returns (f: File)
    ensures var lib, data, ops := SmallLib(), TextOfRows(Rows(B_STATED, false)), [DELETE_A, ADD_C];
            && Sound(lib, "z.", data, f) && AddedRrs(ops) == [C_RR] && Dead(lib, f, ops) == {1}
            && (forall serial: nat :: serial < UINT32 ==> Editable(lib, "z.", data, f, ops, serial))
            && KeepsTtls(lib, data, f, ops) && f.serialTok.Some? && SerialPlaced(f)
            && (forall serial: nat :: serial < UINT32 ==>
                  Meaning(lib, "z.", Edited(lib, f, ops, serial))
                  == Resolved(Intended(lib, "z.", data, f, ops, serial), true))
  {
    var lib, data, ops := SmallLib(), TextOfRows(Rows(B_STATED, false)), [DELETE_A, ADD_C];
    f := SoundFile();
    StatedStates();
    AcceptsBoth(f, B_STATED, false);
    AddressPrints();
    OnePrints(C_RR);
    HeadStated();
    Keeps(B_STATED, Head(Some(300), true, 3, 1), false);
    forall serial: nat | serial < UINT32
      ensures Meaning(lib, "z.", Edited(lib, f, ops, serial))
              == Resolved(Intended(lib, "z.", data, f, ops, serial), true)
    {
      EditPreservesMeaning(lib, "z.", data, f, ops, serial);
    }
  }

  /** An SOA may be added: the edit is accepted, and whatever serial it writes, the file now has the added SOA's. */
  lemma AddedSoaCounts(serial: nat) returns (f: File, g: File)
    requires serial < UINT32
    ensures var lib, data := SmallLib(), TextOfRows(Rows(B_STATED, false));
            && Sound(lib, "z.", data, f) && EditAccepts(lib, f, [ADD_SOA]) && f.serialTok.Some? && SerialPlaced(f)
            && Opened(lib, "z.", Edited(lib, f, [ADD_SOA], serial), g) && SoaSerial(g) == 9
  {
    var lib, data := SmallLib(), TextOfRows(Rows(B_STATED, false));
    f := SoundFile();
    AcceptsAddition(f, ADD_SOA);
    SoaPrints();
    OnePrints(NEW_SOA);
    BenignKeepsTtls(lib, "z.", data, f, [ADD_SOA]);
    g := EditCloses(lib, "z.", data, f, [ADD_SOA], serial);
    NewSoaSerial();
  }

  lemma NewSoaSerial()
    ensures LastSoa([NEW_SOA]) == Some(0) && SerialOf(NEW_SOA) == 9
  {
    NineReads();
    LastSoaIs([NEW_SOA], 0);
  }

  lemma StatedStates()
    ensures StatesTtl(B_STATED, 1, "A")
  {
    ClassWords();
    assert |Upper("300")| == 3 && |Upper("A")| == 1 && !IsClass("300");
    assert LooksLikeTtl("300") by {
      assert IsDigit("300"[0]);
    }
  }

  lemma SpelledOut()
    ensures TypeSpelled(SmallLib(), Item(Record, true, S_ROW, 0))
            && TypeSpelled(SmallLib(), Item(Record, true, A_ROW, 0))
    ensures TypeSpelled(SmallLib(), Item(Record, true, B_STATED, 0))
  {
    HeadS();
    HeadA();
    HeadStated();
  }

  lemma StatedBenign()
    ensures BenignItems(SmallLib(), ItemsOfRows(B_STATED, false))
  {
    SpelledOut();
    var items := ItemsOfRows(B_STATED, false);
    forall it | it in items ensures it.kind == Record && TypeSpelled(SmallLib(), it) {
      assert it == items[0] || it == items[1] || it == items[2];
    }
  }

  // ----- What the edited text means -----

  lemma KeptItems(b: seq<string>, late: bool, s: Item)
    requires s.kind.Record?
    ensures KeepItems(ItemsOfRows(b, late)[0 := s], {1}, 0) == [s] + Tail(b, late)
  {
    ItemsSplit(b, late);
    var items := ItemsOfRows(b, late)[0 := s];
    assert items[1..][1..] == Tail(b, late) && items[1..][0] == Item(Record, true, A_ROW, 0);
    KeepTail(b, late);
    assert KeepItems(items[1..], {1}, 1) == Tail(b, late);
  }

  lemma KeepTail(b: seq<string>, late: bool)
    ensures KeepItems(Tail(b, late), {1}, 2) == Tail(b, late)
  {
    var t, rest := Tail(b, late), if late then [Item(Directive(Ttl), false, TTL_ROW, 0)] else [];
    assert t[1..] == rest;
    assert late ==> rest[1..] == [];
    assert KeepItems(rest, {1}, 3) == rest;
  }

  lemma SoaFirst(b: seq<string>, late: bool, s: nat)
    requires s < |ItemsOfRows(b, late)| && CountRecords(ItemsOfRows(b, late)[..s]) == 0
    ensures s == 0
  {
  }

  /** The SOA's row with another serial reads, and leaves the same TTL. */
  lemma ReadNewS(ctx: Ctx, serial: nat)
    requires serial < UINT32 && ctx.ttl == Unset
    ensures var s := Reserialed(Item(Record, true, S_ROW, 0), 6, serial);
            && s.kind.Record? && s.depth == 0 && ReadRecord(SmallLib(), ctx, s).Some?
            && AfterRecord(SmallLib(), ctx, s).ttl == Inherited(60)
  {
    HeadS();
    ReadS(ctx);
    ReserialRecord(SmallLib(), ctx, Item(Record, true, S_ROW, 0), serial);
  }

  lemma ResolveHeadTail(ctx: Ctx, s: Item, tail: seq<Item>)
    requires s.kind.Record? && s.depth == 0 && ReadRecord(SmallLib(), ctx, s).Some?
    requires Resolve(SmallLib(), AfterRecord(SmallLib(), ctx, s), tail).ok
    ensures Resolve(SmallLib(), ctx, [s] + tail)
            == Resolved([ReadRecord(SmallLib(), ctx, s).value]
              + Resolve(SmallLib(), AfterRecord(SmallLib(), ctx, s), tail).rrs, true)
  {
    assert ([s] + tail)[1..] == tail;
  }

  lemma EditedItems(b: seq<string>, h: Head, late: bool, f: File, serial: nat)
    requires BRow(b, h) && Editable(SmallLib(), "z.", TextOfRows(Rows(b, late)), f, [DELETE_A], serial)
    ensures SerialPlaced(f) && f.serialTok.Some?
    ensures FileItems(Edited(SmallLib(), f, [DELETE_A], serial))
            == [Reserialed(Item(Record, true, S_ROW, 0), 6, serial)] + Tail(b, late)
  {
    RowsItems(b, late);
    RecsAre(b, h, late, f);
    Accepts(f, b, late);
    var s := EditedEntries(SmallLib(), "z.", TextOfRows(Rows(b, late)), f, [DELETE_A], serial);
    EditedFrom(b, late, s, serial, FileItems(Edited(SmallLib(), f, [DELETE_A], serial)));
  }

  lemma EditedFrom(b: seq<string>, late: bool, s: nat, serial: nat, out: seq<Item>)
    requires EditedAs(SmallLib(), ItemsOfRows(b, late), s, serial, {1}, AddItems(SmallLib(), []), out)
    requires CountRecords(ItemsOfRows(b, late)[..s]) == 0
    ensures out == [Reserialed(Item(Record, true, S_ROW, 0), 6, serial)] + Tail(b, late)
  {
    SoaFirst(b, late, s);
    ItemsSplit(b, late);
    HeadS();
    var soa := Reserialed(Item(Record, true, S_ROW, 0), 6, serial);
    KeptItems(b, late, soa);
    NothingAdded(KeepItems(ItemsOfRows(b, late)[0 := soa], {1}, 0), out);
  }

  /** After the deletion, whatever the serial, `b.` without a TTL of its own has the SOA's 60, where it had 300. */
  lemma TtlAfterDeletion(b: seq<string>, h: Head, late: bool, f: File, serial: nat)
    requires BRow(b, h) && Editable(SmallLib(), "z.", TextOfRows(Rows(b, late)), f, [DELETE_A], serial)
    ensures SerialPlaced(f) && f.serialTok.Some?
    ensures var m := Meaning(SmallLib(), "z.", Edited(SmallLib(), f, [DELETE_A], serial));
            m.ok && |m.rrs| == 2 && m.rrs[1] == BRecord(b, h, 60)
  {
    var lib, ctx := SmallLib(), Start("z.");
    EditedItems(b, h, late, f, serial);
    var soa := Reserialed(Item(Record, true, S_ROW, 0), 6, serial);
    ReadNewS(ctx, serial);
    ResolveB(b, h, late, AfterRecord(lib, ctx, soa), 60);
    ResolveHeadTail(ctx, soa, Tail(b, late));
    MeaningItems(lib, "z.", Edited(lib, f, [DELETE_A], serial));
  }

  lemma NothingAdded(kept: seq<Item>, out: seq<Item>)
    requires out == kept + AddItems(SmallLib(), []) || out == AppendItems(kept, AddItems(SmallLib(), []))
    ensures out == kept
  {
  }

  // ----- The SOA's owner -----

  /** An SOA owned by `soa`: three tokens after the owner is the primary server, three after the type the serial. */
  const SOA_ROW: seq<string> := ["soa", "IN", "SOA", "7", "m", "7", "1", "1", "1", "1"]

  lemma PlainSoaRow()
    ensures PlainRow(SOA_ROW) && PlainRows([SOA_ROW])
  {
  }

  lemma SoaRowHead()
    ensures HeadOf(SmallLib(), Item(Record, true, SOA_ROW, 0)) == Some(Head(None, true, 2, SOA))
    ensures !SoaSpelled(SmallLib(), Item(Record, true, SOA_ROW, 0)) && FirstSoa(SOA_ROW, 0) == 0
    ensures RowItem(SOA_ROW) == Item(Record, true, SOA_ROW, 0)
  {
    ClassWords();
    TypeWords();
    assert HeadFrom(SmallLib(), SOA_ROW, 2, None, true) == Some(Head(None, true, 2, SOA));
    assert Upper("soa") == "SOA" && Upper("SOA") == "SOA";
  }

  lemma SoaRowReads(ctx: Ctx)
    ensures var r := ReadRecord(SmallLib(), ctx, Item(Record, true, SOA_ROW, 0));
            r.Some? && r.value.rtype == SOA && SerialOf(r.value) == 7
  {
    SoaRowHead();
    SevenReads();
    var data := SOA_ROW[3..];
    assert data[2] == "7" && data == ["7", "m", "7", "1", "1", "1", "1"];
    var d := data[..2] + data[3..];
    assert d == ["7", "m", "1", "1", "1", "1"] && d[..2] == ["7", "m"];
    assert SmallLib().read(SOA, d, ctx.scope) == Some(d);
  }

  lemma OneRowRead(row: seq<string>)
    requires PlainRow(row)
    ensures FileItems(TextOfRows([row])) == [RowItem(row)]
  {
    RowsRead([row]);
    assert RowItems([row]) == [RowItem(row)];
  }

  lemma SoaRowItems()
    ensures FileItems(TextOfRows([SOA_ROW])) == [Item(Record, true, SOA_ROW, 0)]
  {
    PlainSoaRow();
    SoaRowHead();
    OneRowRead(SOA_ROW);
  }

  lemma OneResolved(ctx: Ctx, it: Item)
    requires it.kind.Record? && it.depth == 0 && ReadRecord(SmallLib(), ctx, it).Some?
    ensures Resolve(SmallLib(), ctx, [it]) == Resolved([ReadRecord(SmallLib(), ctx, it).value], true)
  {
    assert [it][1..] == [];
  }

  lemma SoaRowMeaning()
    ensures FileItems(TextOfRows([SOA_ROW])) == [Item(Record, true, SOA_ROW, 0)]
    ensures var m := Meaning(SmallLib(), "z.", TextOfRows([SOA_ROW]));
            m.ok && |m.rrs| == 1 && m.rrs[0].rtype == SOA && SerialOf(m.rrs[0]) == 7
  {
    SoaRowItems();
    MeaningItems(SmallLib(), "z.", TextOfRows([SOA_ROW]));
    SoaRowReads(Start("z."));
    OneResolved(Start("z."), Item(Record, true, SOA_ROW, 0));
  }

  lemma OneEntry(es: seq<Entry>, row: seq<string>)
    requires |es| == 1 && es[0].kind.Record? && Texts(es[0].toks) == row && |row| > 3 && FirstSoa(row, 0) == 0
    ensures RecordEntries(es) == es && SerialToken(es[0].toks) == Some(es[0].toks[3]) && es[0].toks[3].text == row[3]
  {
    assert es[1..] == [] && es == [es[0]];
  }

  lemma SoaRowEntry()
    ensures var recs := RecordEntries(Entries(Split(TextOfRows([SOA_ROW]))));
            |recs| == 1 && SerialToken(recs[0].toks).Some? && SerialToken(recs[0].toks).value.text == "7"
  {
    PlainSoaRow();
    SoaRowHead();
    RowEntry([SOA_ROW], 0);
    OneEntry(Entries(Split(TextOfRows([SOA_ROW]))), SOA_ROW);
  }

  /** The file opens, its SOA not spelled plainly. */
  lemma SoaRowOpens() returns (f: File)
    ensures var data := TextOfRows([SOA_ROW]);
            Opened(SmallLib(), "z.", data, f) && SoaSerial(f) == 7 && !SoaPlain(SmallLib(), data, f)
  {
    var lib, data, it := SmallLib(), TextOfRows([SOA_ROW]), Item(Record, true, SOA_ROW, 0);
    SmallLibValid();
    SoaRowMeaning();
    SoaRowEntry();
    SoaRowHead();
    SevenReads();
    OneRecord(it);
    LastSoaIs(Meaning(lib, "z.", data).rrs, 0);
    f := FileOpens(lib, "z.", data, 0);
  }

  lemma OneRecord(it: Item)
    requires it.kind.Record?
    ensures RecordItems([it]) == [it] && Orderly([it], false)
  {
    assert [it][1..] == [];
  }

  lemma NothingAccepted(f: File)
    requires Surgical(f)
    ensures EditAccepts(SmallLib(), f, []) && AddedRrs([]) == []
  {
  }

  /**
   * An owner spelled `soa`: the token located is the name of the primary server, and since it
   * reads the same as the serial the cross-check of `Parse` lets it pass. The file opens, an edit
   * of no records is accepted, and with any new serial the edited text does not mean what was
   * asked: the primary server is renamed and the serial stays.
   */
  lemma SoaOwnerMisleads() returns (f: File)
    ensures var lib, data := SmallLib(), TextOfRows([SOA_ROW]);
            && Opened(lib, "z.", data, f) && EditAccepts(lib, f, []) && AllPrintable(lib, AddedRrs([]))
            && SoaSerial(f) == 7 && !SoaPlain(lib, data, f) && f.serialTok.Some? && SerialPlaced(f)
            && (forall serial: nat :: serial < UINT32 && serial != 7 ==>
                  Meaning(lib, "z.", Edited(lib, f, [], serial))
                  != Resolved(Intended(lib, "z.", data, f, [], serial), true))
  {
    var lib, data := SmallLib(), TextOfRows([SOA_ROW]);
    f := SoaRowOpens();
    NothingAccepted(f);
    Placed(lib, "z.", data, f);
    forall serial: nat | serial < UINT32 && serial != 7
      ensures Meaning(lib, "z.", Edited(lib, f, [], serial)) != Resolved(Intended(lib, "z.", data, f, [], serial), true)
    {
      EditMeansIntended(lib, "z.", data, f, [], serial);
    }
  }
}
