/**
 * The main theorem about in-place editing: `Edit` deletes exactly the targeted records,
 * appends exactly the added ones, advances the serial, and changes the meaning of no
 * other record; and its output can be edited again.
 */
module EditTheorem {
  import opened Text
  import opened Tokenizer
  import opened Resolver
  import opened ZoneFile
  import opened Rescan
  import opened Printing
  import opened Surgery
  import opened Preservation

  /** `f` is what `Parse` makes of `data`, and it may be edited in place. */
  ghost predicate Opened(lib: Lib, origin: string, data: string, f: File) {
    ValidLib(lib) && Parsed(lib, Split(data), Meaning(lib, origin, data)) == Some(f) && Surgical(f)
  }

  function FileItems(data: string): seq<Item> {
    ChunkItems(Chunks(Split(data)))
  }

  /** The numbers of the records the operations delete. */
  ghost function Dead(lib: Lib, f: File, ops: seq<Op>): set<nat> {
    set i | 0 <= i < |f.records| && Targeted(lib, f, ops, i)
  }

  // ----- What opening a file establishes -----

  lemma {:induction false} RecordItemsOf(es: seq<Entry>)
    ensures RecordItems(Items(es)) == Items(RecordEntries(es))
  {
    if es != [] {
      RecordItemsOf(es[1..]);
      assert Items(es)[1..] == Items(es[1..]);
    }
  }

  lemma MeaningItems(lib: Lib, origin: string, data: string)
    ensures Meaning(lib, origin, data) == Resolve(lib, Start(origin), FileItems(data))
    ensures RecordItems(FileItems(data)) == Items(RecordEntries(Entries(Split(data))))
  {
    ItemsOfEntries(Chunks(Split(data)), 0);
    RecordItemsOf(Entries(Split(data)));
  }

  lemma OpenedChunks(lib: Lib, origin: string, data: string)
    requires Meaning(lib, origin, data).ok
    ensures var cs := Chunks(Split(data));
            && Flatten(cs) == Split(data)
            && (forall i :: 0 <= i < |cs| ==> cs[i] != [] && Closed(cs[i]))
  {
    var cs := Chunks(Split(data));
    MeaningItems(lib, origin, data);
    FlattenChunks(Split(data));
    ResolveShape(lib, Start(origin), FileItems(data));
    forall i | 0 <= i < |cs| ensures NetDepth(cs[i]) <= 0 {
      assert FileItems(data)[i].depth == NetDepth(cs[i]);
    }
    ChunksClosed(Split(data));
  }

  lemma OpenedRecords(lib: Lib, origin: string, data: string, f: File)
    requires Opened(lib, origin, data, f)
    ensures var m := Meaning(lib, origin, data);
            var recs := RecordEntries(Entries(Split(data)));
            && f.lines == Split(data) && m.ok
            && |recs| == |m.rrs| == |f.records|
            && (forall i :: 0 <= i < |recs| ==> f.records[i] == RecOf(lib, recs[i], m.rrs[i]))
            && f.soa == LastSoa(m.rrs) && f.soa.Some?
            && f.serialTok == SerialToken(recs[f.soa.value].toks) && f.serialTok.Some?
            && SoaSerial(f) == SerialOf(m.rrs[f.soa.value])
            && Refusal(Entries(Split(data))).None?
            && f.hasTtlDirective == HasTtlDirective(Entries(Split(data)))
  {
  }

  /** The entry of the SOA, its type read by the resolver. */
  lemma {:induction false} ResolveAt(lib: Lib, ctx: Ctx, items: seq<Item>, s: nat)
    requires s < |items| && items[s].kind.Record? && Resolve(lib, ctx, items).ok
    ensures var r := CountRecords(items[..s]);
            && r < |Resolve(lib, ctx, items).rrs|
            && HeadOf(lib, items[s]).Some?
            && Resolve(lib, ctx, items).rrs[r].rtype == HeadOf(lib, items[s]).value.rtype
            && r < |RecordItems(items)| && RecordItems(items)[r] == items[s]
    decreases |items|
  {
    if s == 0 {
      assert items[..0] == [];
    } else {
      CountTail(items, s);
      ResolveTail(lib, ctx, items);
      ResolveAt(lib, NextCtx(lib, ctx, items[0]), items[1..], s - 1);
    }
  }

  /** The item of the SOA that `Edit` bumps. */
  ghost function SoaItem(data: string, f: File): Item
    requires f.soa.Some? && f.soa.value < |RecordItems(FileItems(data))|
  {
    RecordItems(FileItems(data))[f.soa.value]
  }

  /** The SOA of an opened file is spelled so that its serial is the token `Parse` located. */
  ghost predicate SoaPlain(lib: Lib, data: string, f: File) {
    f.soa.Some? && f.soa.value < |RecordItems(FileItems(data))| && SoaSpelled(lib, SoaItem(data, f))
  }

  // ----- The three steps of `Edit`, on entries -----

  /** Entry `s`, starting on line `o`, is record number `r`, made of tokens `toks`. */
  ghost predicate RecordAt(cs: seq<seq<string>>, items: seq<Item>, toks: seq<Tok>, r: nat, s: nat, o: nat) {
    && |cs| == |items|
    && s < |cs| && cs[s] != [] && KindOf(cs[s][0]).Record? && items[s].kind.Record?
    && o == |Flatten(cs[..s])|
    && CountRecords(items[..s]) == r
    && toks == TokensOf(cs[s], o)
    && Texts(toks) == items[s].texts
  }

  lemma RecordEntry(data: string, r: nat) returns (s: nat, o: nat)
    requires r < |RecordEntries(Entries(Split(data)))|
    ensures RecordAt(Chunks(Split(data)), FileItems(data), RecordEntries(Entries(Split(data)))[r].toks, r, s, o)
  {
    s, o := RecordChunk(Chunks(Split(data)), r);
  }

  lemma RecordChunk(cs: seq<seq<string>>, r: nat) returns (s: nat, o: nat)
    requires forall i :: 0 <= i < |cs| ==> cs[i] != []
    requires r < |RecordEntries(EntriesOf(cs, 0))|
    ensures RecordAt(cs, ChunkItems(cs), RecordEntries(EntriesOf(cs, 0))[r].toks, r, s, o)
  {
    s, o := FindChunk(cs, 0, r);
    assert ChunkItems(cs[..s]) == ChunkItems(cs)[..s];
    TextsOffset(cs[s], o, 0);
  }

  /** On an SOA spelled plainly, the located token is the serial the resolver reads. */
  lemma SerialTokenIs(lib: Lib, it: Item, toks: seq<Tok>)
    requires HeadOf(lib, it).Some? && HeadOf(lib, it).value.rtype == SOA && SoaSpelled(lib, it)
    requires Texts(toks) == it.texts && SerialToken(toks).Some?
    ensures HeadOf(lib, it).value.at + 3 < |toks| == |it.texts|
    ensures SerialToken(toks) == Some(toks[HeadOf(lib, it).value.at + 3])
  {
    SerialTokenExact(lib, it);
  }

  ghost predicate ItemAt(items: seq<Item>, s: nat, it: Item) {
    s < |items| && items[s] == it
  }

  lemma RecordTypeRead(lib: Lib, origin: string, data: string, toks: seq<Tok>, r: nat, s: nat, o: nat)
    requires RecordAt(Chunks(Split(data)), FileItems(data), toks, r, s, o) && Meaning(lib, origin, data).ok
    ensures r < |Meaning(lib, origin, data).rrs| && r < |RecordItems(FileItems(data))|
    ensures var it := RecordItems(FileItems(data))[r];
            && HeadOf(lib, it).Some? && HeadOf(lib, it).value.rtype == Meaning(lib, origin, data).rrs[r].rtype
            && ItemAt(FileItems(data), s, it)
  {
    MeaningItems(lib, origin, data);
    ResolveAt(lib, Start(origin), FileItems(data), s);
  }

  /** What opening a file says of its SOA. */
  lemma OpenedSoa(lib: Lib, origin: string, data: string, f: File)
    requires Opened(lib, origin, data, f)
    ensures f.lines == Split(data) && f.soa.Some? && Meaning(lib, origin, data).ok
    ensures var m, recs, r := Meaning(lib, origin, data), RecordEntries(Entries(Split(data))), f.soa.value;
            && r < |recs| == |m.rrs| && m.rrs[r].rtype == SOA
            && f.serialTok == SerialToken(recs[r].toks) && f.serialTok.Some?
  {
    OpenedRecords(lib, origin, data, f);
  }

  /** The SOA `it` is record number `r`, entry `s`, from line `o`; its serial is token `idx`. */
  ghost predicate SoaAt(lib: Lib, cs: seq<seq<string>>, items: seq<Item>, it: Item, r: nat, tok: Option<Tok>,
                        s: nat, o: nat, idx: nat) {
    && |cs| == |items|
    && s < |cs| && cs[s] != [] && KindOf(cs[s][0]).Record? && items[s].kind.Record? && items[s] == it
    && o == |Flatten(cs[..s])|
    && CountRecords(items[..s]) == r
    && HeadOf(lib, it).Some? && HeadOf(lib, it).value.rtype == SOA
    && idx == HeadOf(lib, it).value.at + 3 < |it.texts|
    && |TokensOf(cs[s], o)| == |it.texts|
    && tok == Some(TokensOf(cs[s], o)[idx])
  }

  lemma SoaTokenRead(lib: Lib, cs: seq<seq<string>>, items: seq<Item>, toks: seq<Tok>, it: Item, r: nat, s: nat, o: nat)
    requires RecordAt(cs, items, toks, r, s, o) && SerialToken(toks).Some? && ItemAt(items, s, it)
    requires ReadsSoa(lib, it) && SoaSpelled(lib, it)
    ensures SoaAt(lib, cs, items, it, r, SerialToken(toks), s, o, HeadOf(lib, it).value.at + 3)
  {
    SerialTokenIs(lib, it, toks);
  }

  ghost predicate ReadsSoa(lib: Lib, it: Item) {
    HeadOf(lib, it).Some? && HeadOf(lib, it).value.rtype == SOA
  }

  lemma SoaEntryOf(lib: Lib, origin: string, data: string, r: nat) returns (s: nat, o: nat)
    requires r < |RecordEntries(Entries(Split(data)))| && r < |RecordItems(FileItems(data))|
    requires Meaning(lib, origin, data).ok && r < |Meaning(lib, origin, data).rrs|
    requires Meaning(lib, origin, data).rrs[r].rtype == SOA
    ensures RecordAt(Chunks(Split(data)), FileItems(data), RecordEntries(Entries(Split(data)))[r].toks, r, s, o)
    ensures ItemAt(FileItems(data), s, RecordItems(FileItems(data))[r])
            && ReadsSoa(lib, RecordItems(FileItems(data))[r])
  {
    s, o := RecordEntry(data, r);
    RecordTypeRead(lib, origin, data, RecordEntries(Entries(Split(data)))[r].toks, r, s, o);
  }

  /** The SOA's entry `s`, starting on line `o`, and the place of its serial among its tokens. */
  lemma SoaEntry(lib: Lib, origin: string, data: string, f: File) returns (s: nat, o: nat, idx: nat)
    requires Opened(lib, origin, data, f) && SoaPlain(lib, data, f)
    ensures f.lines == Split(data)
    ensures SoaAt(lib, Chunks(Split(data)), FileItems(data), SoaItem(data, f), f.soa.value, f.serialTok, s, o, idx)
  {
    OpenedSoa(lib, origin, data, f);
    var r, it := f.soa.value, SoaItem(data, f);
    s, o := SoaEntryOf(lib, origin, data, r);
    SoaTokenRead(lib, Chunks(Split(data)), FileItems(data), RecordEntries(Entries(Split(data)))[r].toks, it, r, s, o);
    idx := HeadOf(lib, it).value.at + 3;
  }

  /** Bumping the serial rewrites one token of the SOA's entry. */
  lemma BumpEntry(lib: Lib, origin: string, data: string, f: File, serial: nat) returns (s: nat, c: seq<string>)
    requires Opened(lib, origin, data, f) && SoaPlain(lib, data, f)
    requires serial < UINT32
    ensures SerialPlaced(f) && f.serialTok.Some?
    ensures var cs, items := Chunks(f.lines), FileItems(data);
            && |cs| == |items|
            && s < |cs| && items[s].kind.Record? && items[s] == SoaItem(data, f)
            && c != [] && |c| == |cs[s]| && KindOf(c[0]) == KindOf(cs[s][0]) && Closed(c)
            && Bump(f, serial) == Flatten(cs[s := c])
            && HeadOf(lib, items[s]).Some? && HeadOf(lib, items[s]).value.rtype == SOA
            && HeadOf(lib, items[s]).value.at + 3 < |items[s].texts|
            && ChunkItem(c) == Reserialed(items[s], HeadOf(lib, items[s]).value.at + 3, serial)
            && CountRecords(items[..s]) == f.soa.value
  {
    var o, idx;
    s, o, idx := SoaEntry(lib, origin, data, f);
    OpenedRecords(lib, origin, data, f);
    OpenedChunks(lib, origin, data);
    var cs := Chunks(f.lines);
    c := BumpChunk(cs, s, o, idx, serial);
    var t := TokensOf(cs[s], o)[idx];
    assert Bump(f, serial) == f.lines[t.line := Splice(f.lines[t.line], t.start, t.end, Dec(serial))];
  }

  lemma BumpChunk(cs: seq<seq<string>>, s: nat, o: nat, idx: nat, serial: nat) returns (c: seq<string>)
    requires s < |cs| && Closed(cs[s]) && KindOf(cs[s][0]).Record?
    requires o == |Flatten(cs[..s])| && 0 < idx < |TokensOf(cs[s], o)|
    ensures idx < |ChunkItem(cs[s]).texts|
    ensures c != [] && |c| == |cs[s]| && KindOf(c[0]) == KindOf(cs[s][0]) && Closed(c)
    ensures ChunkItem(c) == Reserialed(ChunkItem(cs[s]), idx, serial)
    ensures var t := TokensOf(cs[s], o)[idx];
            && t.line < |Flatten(cs)|
            && t.start <= t.end <= |Flatten(cs)[t.line]|
            && Flatten(cs)[t.line := Splice(Flatten(cs)[t.line], t.start, t.end, Dec(serial))] == Flatten(cs[s := c])
  {
    TextsOffset(cs[s], o, 0);
    RewriteKeepsEntry(cs[s], o, idx, Dec(serial));
    var t := TokensOf(cs[s], o)[idx];
    var line := Splice(cs[s][t.line - o], t.start, t.end, Dec(serial));
    c := cs[s][t.line - o := line];
    FlattenUpdate(cs, s, t.line - o, line);
    assert ChunkItem(c).kind == ChunkItem(cs[s]).kind;
  }

  /** The lines `Edit` marks are the lines of the dead records' entries. */
  lemma DeletionMarks(lib: Lib, origin: string, data: string, f: File, ops: seq<Op>)
    requires Opened(lib, origin, data, f) && EditAccepts(lib, f, ops)
    ensures Agrees(Chunks(f.lines), 0, 0, DeletedLines(lib, f, ops), Dead(lib, f, ops))
  {
    OpenedRecords(lib, origin, data, f);
    var recs := RecordEntries(Entries(f.lines));
    var del, dead := DeletedLines(lib, f, ops), Dead(lib, f, ops);
    forall j | j in dead ensures MarkedAlone(recs, 0, del, j) {
      assert CanDelete(f, j) && f.records[j] == RecOf(lib, recs[j], Meaning(lib, origin, data).rrs[j]);
    }
    forall l | l in del ensures DeadLine(recs, 0, dead, l) {
      var i :| 0 <= i < |f.records| && Targeted(lib, f, ops, i) && f.records[i].start == l;
      assert i in dead && recs[i - 0].start == l;
    }
    MarksAgree(Chunks(f.lines), 0, 0, del, dead);
  }

  function AddItems(lib: Lib, rrs: seq<Rr>): (r: seq<Item>)
    ensures |r| == |rrs|
    ensures forall i :: 0 <= i < |r| ==> r[i] == Item(Record, true, Fields(lib, rrs[i]), 0)
  {
    seq(|rrs|, i requires 0 <= i < |rrs| => Item(Record, true, Fields(lib, rrs[i]), 0))
  }

  ghost predicate AllPrintable(lib: Lib, rrs: seq<Rr>) {
    forall i :: 0 <= i < |rrs| ==> Printable(lib, rrs[i])
  }

  lemma PrintedChunks(lib: Lib, rrs: seq<Rr>)
    requires AllPrintable(lib, rrs)
    ensures var ls := Singles(Prints(lib, rrs));
            && (forall i :: 0 <= i < |ls| ==> ls[i] != [] && Closed(ls[i]) && NoNewline(ls[i][0]))
            && ChunkItems(ls) == AddItems(lib, rrs)
  {
    var ls := Singles(Prints(lib, rrs));
    forall i | 0 <= i < |ls|
      ensures ls[i] != [] && Closed(ls[i]) && NoNewline(ls[i][0])
      ensures ChunkItem(ls[i]) == AddItems(lib, rrs)[i]
    {
      PrintScans(lib, rrs[i]);
      assert Prints(lib, rrs)[i] == Print(lib, rrs[i]);
    }
  }

  /** In every context the item reads as the record. */
  ghost predicate ReadsBack(lib: Lib, it: Item, rr: Rr) {
    it.kind.Record? && it.depth == 0 && forall ctx :: ReadRecord(lib, ctx, it) == Some(rr)
  }

  lemma {:induction false} ResolveReadsBack(lib: Lib, ctx: Ctx, items: seq<Item>, rrs: seq<Rr>)
    requires |items| == |rrs| && forall i :: 0 <= i < |items| ==> ReadsBack(lib, items[i], rrs[i])
    ensures Resolve(lib, ctx, items) == Resolved(rrs, true)
    decreases |rrs|
  {
    if rrs != [] {
      assert ReadsBack(lib, items[0], rrs[0]);
      ResolveReadsBack(lib, AfterRecord(lib, ctx, items[0]), items[1..], rrs[1..]);
      ResolveOne(lib, ctx, items, rrs[0], rrs[1..]);
      assert rrs == [rrs[0]] + rrs[1..];
    }
  }

  lemma ResolveOne(lib: Lib, ctx: Ctx, items: seq<Item>, rr: Rr, rest: seq<Rr>)
    requires items != [] && ReadsBack(lib, items[0], rr)
    requires Resolve(lib, AfterRecord(lib, ctx, items[0]), items[1..]) == Resolved(rest, true)
    ensures Resolve(lib, ctx, items) == Resolved([rr] + rest, true)
  {
  }

  lemma ResolveAdds(lib: Lib, ctx: Ctx, rrs: seq<Rr>)
    requires ValidLib(lib) && AllPrintable(lib, rrs)
    ensures Resolve(lib, ctx, AddItems(lib, rrs)) == Resolved(rrs, true)
  {
    var items := AddItems(lib, rrs);
    forall i | 0 <= i < |items| ensures ReadsBack(lib, items[i], rrs[i]) {
      forall ctx ensures ReadRecord(lib, ctx, items[i]) == Some(rrs[i]) {
        PrintResolves(lib, rrs[i], ctx);
      }
    }
    ResolveReadsBack(lib, ctx, items, rrs);
  }

  lemma ResolveBlank(lib: Lib, ctx: Ctx)
    ensures Resolve(lib, ctx, [ChunkItem([""])]) == Resolved([], true)
  {
    assert Toks("", 0) == [];
    assert NetDepth([""]) == 0;
    assert [ChunkItem([""])][1..] == [];
  }

  /** Appending items that resolve to `rrs`, before or after a blank, appends those records. */
  lemma ResolveWithBlank(lib: Lib, ctx: Ctx, a: seq<Item>, adds: seq<Item>, rrs: seq<Rr>)
    requires forall c :: Resolve(lib, c, adds) == Resolved(rrs, true)
    ensures var blank := ChunkItem([""]);
            var r := Resolve(lib, ctx, a + [blank]);
            Resolve(lib, ctx, a + adds + [blank]) == if r.ok then Resolved(r.rrs + rrs, true) else r
  {
    var blank := ChunkItem([""]);
    ResolveConcat(lib, ctx, a, [blank]);
    ResolveBlank(lib, CtxAfter(lib, ctx, a));
    ResolveConcat(lib, ctx, a, adds);
    ResolveConcat(lib, ctx, a + adds, [blank]);
    ResolveBlank(lib, CtxAfter(lib, ctx, a + adds));
    var ra := Resolve(lib, ctx, a);
    assert Resolve(lib, CtxAfter(lib, ctx, a), adds) == Resolved(rrs, true);
    assert ra.rrs + [] == ra.rrs && (ra.rrs + rrs) + [] == ra.rrs + rrs;
  }

  function AppendItems(items: seq<Item>, adds: seq<Item>): seq<Item> {
    if adds == [] then items
    else if items != [] && items[|items| - 1] == ChunkItem([""]) then
      items[..|items| - 1] + adds + [ChunkItem([""])]
    else items + adds
  }

  lemma ResolveAppendItems(lib: Lib, ctx: Ctx, items: seq<Item>, adds: seq<Item>, rrs: seq<Rr>)
    requires |adds| == |rrs|
    requires forall c :: Resolve(lib, c, adds) == Resolved(rrs, true)
    ensures var r := Resolve(lib, ctx, items);
            && Resolve(lib, ctx, items + adds) == (if r.ok then Resolved(r.rrs + rrs, true) else r)
            && Resolve(lib, ctx, AppendItems(items, adds)) == if r.ok then Resolved(r.rrs + rrs, true) else r
  {
    ResolveConcat(lib, ctx, items, adds);
    var r := Resolve(lib, ctx, items);
    assert Resolve(lib, CtxAfter(lib, ctx, items), adds) == Resolved(rrs, true);
    if adds == [] {
      assert rrs == [] && r.rrs + rrs == r.rrs;
    } else if items != [] && items[|items| - 1] == ChunkItem([""]) {
      var front := items[..|items| - 1];
      assert items == front + [ChunkItem([""])];
      ResolveWithBlank(lib, ctx, front, adds, rrs);
    }
  }

  /** Appending lines that are complete entries leaves complete entries. */
  lemma AppendedClosed(cs: seq<seq<string>>, lines: seq<string>)
    requires forall i :: 0 <= i < |cs| ==> Closed(cs[i])
    requires forall i :: 0 <= i < |lines| ==> Closed([lines[i]])
    ensures forall i :: 0 <= i < |AppendChunks(cs, lines)| ==> Closed(AppendChunks(cs, lines)[i])
  {
    var out, n, m := AppendChunks(cs, lines), |cs|, |lines|;
    if lines != [] {
      forall i | 0 <= i < |out| ensures Closed(out[i]) {
        if cs != [] && cs[n - 1] == [""] {
          assert out[i] == if i < n - 1 then cs[i] else if i < n - 1 + m then [lines[i - (n - 1)]] else cs[n - 1];
        } else {
          assert out[i] == if i < n then cs[i] else [lines[i - n]];
        }
      }
    }
  }

  lemma AppendedItems(cs: seq<seq<string>>, lines: seq<string>)
    requires forall i :: 0 <= i < |cs| ==> cs[i] != []
    ensures var out := AppendChunks(cs, lines);
            && (forall i :: 0 <= i < |out| ==> out[i] != [])
            && var items, adds := ChunkItems(cs), ChunkItems(Singles(lines));
            ChunkItems(out) == items + adds || ChunkItems(out) == AppendItems(items, adds)
  {
    if lines != [] {
      if cs != [] && cs[|cs| - 1] == [""] {
        assert cs == cs[..|cs| - 1] + [[""]];
        AppendedBeforeBlank(cs[..|cs| - 1], Singles(lines));
      } else {
        ChunkItemsConcat(cs, Singles(lines));
      }
    }
  }

  lemma AppendedBeforeBlank(front: seq<seq<string>>, adds: seq<seq<string>>)
    requires adds != [] && (forall i :: 0 <= i < |adds| ==> adds[i] != [])
    requires forall i :: 0 <= i < |front| ==> front[i] != []
    ensures forall i :: 0 <= i < |front + [[""]]| ==> (front + [[""]])[i] != []
    ensures forall i :: 0 <= i < |front + adds + [[""]]| ==> (front + adds + [[""]])[i] != []
    ensures ChunkItems(front + adds + [[""]]) == AppendItems(ChunkItems(front + [[""]]), ChunkItems(adds))
  {
    ChunkItemsConcat(front, [[""]]);
    ChunkItemsConcat(front, adds);
    ChunkItemsConcat(front + adds, [[""]]);
    assert ChunkItems([[""]]) == [ChunkItem([""])];
    BeforeBlank(ChunkItems(front), ChunkItems(adds));
  }

  lemma BeforeBlank(front: seq<Item>, adds: seq<Item>)
    requires adds != []
    ensures AppendItems(front + [ChunkItem([""])], adds) == front + adds + [ChunkItem([""])]
  {
    var items := front + [ChunkItem([""])];
    assert items[..|items| - 1] == front;
  }

  // ----- Newlines -----

  ghost predicate NoNewlines(lines: seq<string>) {
    forall i :: 0 <= i < |lines| ==> NoNewline(lines[i])
  }

  lemma {:induction false} KeepNoNewlines(lines: seq<string>, del: set<nat>, off: nat)
    requires NoNewlines(lines)
    ensures NoNewlines(KeepLines(lines, del, off))
  {
    if lines != [] {
      KeepNoNewlines(lines[1..], del, off + 1);
    }
  }

  lemma EditedNoNewlines(lib: Lib, f: File, ops: seq<Op>, serial: nat)
    requires SerialPlaced(f) && f.serialTok.Some? && NoNewlines(f.lines)
    requires AllPrintable(lib, AddedRrs(ops))
    ensures NoNewlines(EditedLines(lib, f, ops, serial))
  {
    KeepNoNewlines(Bump(f, serial), DeletedLines(lib, f, ops), 0);
    var adds := Prints(lib, AddedRrs(ops));
    forall i | 0 <= i < |adds| ensures NoNewline(adds[i]) {
      PrintScans(lib, AddedRrs(ops)[i]);
    }
  }

  // ----- The text `Edit` returns -----

  /** The text of a successful edit. */
  ghost function Edited(lib: Lib, f: File, ops: seq<Op>, serial: nat): string
    requires SerialPlaced(f) && f.serialTok.Some?
  {
    Join(EditedLines(lib, f, ops, serial))
  }

  /** An edit that succeeds: an opened file, operations it accepts, records that print, and a new serial. */
  ghost predicate Acceptable(lib: Lib, origin: string, data: string, f: File, ops: seq<Op>, serial: nat) {
    && Opened(lib, origin, data, f) && EditAccepts(lib, f, ops) && AllPrintable(lib, AddedRrs(ops))
    && serial < UINT32
  }

  /** The same, with the serial where `Parse` located it. */
  ghost predicate Editable(lib: Lib, origin: string, data: string, f: File, ops: seq<Op>, serial: nat) {
    Acceptable(lib, origin, data, f, ops, serial) && SoaPlain(lib, data, f)
  }

  lemma ChunkTokenPlaced(cs: seq<seq<string>>, s: nat, o: nat, k: nat)
    requires s < |cs| && o == |Flatten(cs[..s])| && k < |TokensOf(cs[s], o)|
    ensures var t, lines := TokensOf(cs[s], o)[k], Flatten(cs);
            t.line < |lines| && t.start <= t.end <= |lines[t.line]|
  {
    TokenPlaced(cs[s], o, k);
    FlattenUpdate(cs, s, TokensOf(cs[s], o)[k].line - o, "");
  }

  lemma Placed(lib: Lib, origin: string, data: string, f: File)
    requires Opened(lib, origin, data, f)
    ensures f.serialTok.Some? && SerialPlaced(f)
  {
    OpenedSoa(lib, origin, data, f);
    FlattenChunks(Split(data));
    var r := f.soa.value;
    var s, o := RecordEntry(data, r);
    var toks := RecordEntries(Entries(Split(data)))[r].toks;
    ChunkTokenPlaced(Chunks(Split(data)), s, o, FirstSoa(Texts(toks), 0) + 3);
  }

  /** Entries `out` are the entries with SOA `s` given a new serial, the dead ones gone and `adds` at the end. */
  ghost predicate EditedAs(lib: Lib, items: seq<Item>, s: nat, serial: nat, dead: set<nat>, adds: seq<Item>,
                           out: seq<Item>) {
    && s < |items| && items[s].kind.Record? && ReadsSoa(lib, items[s])
    && HeadOf(lib, items[s]).value.at + 3 < |items[s].texts|
    && var kept := KeepItems(items[s := Reserialed(items[s], HeadOf(lib, items[s]).value.at + 3, serial)], dead, 0);
    out == kept + adds || out == AppendItems(kept, adds)
  }

  /** The output's entries: the SOA's rewritten, the dead records' gone, the printed ones at the end. */
  lemma EditedEntries(lib: Lib, origin: string, data: string, f: File, ops: seq<Op>, serial: nat) returns (s: nat)
    requires Editable(lib, origin, data, f, ops, serial)
    ensures SerialPlaced(f) && f.serialTok.Some?
    ensures EditedAs(lib, FileItems(data), s, serial, Dead(lib, f, ops), AddItems(lib, AddedRrs(ops)),
                     FileItems(Edited(lib, f, ops, serial)))
    ensures ItemAt(FileItems(data), s, SoaItem(data, f)) && CountRecords(FileItems(data)[..s]) == f.soa.value
  {
    var c;
    s, c := BumpEntry(lib, origin, data, f, serial);
    EditedAround(lib, origin, data, f, ops, serial, s, c);
  }

  /** One entry replaced, the dead ones dropped, the printed ones appended: the entries of the text. */
  lemma Reassembled(lib: Lib, cs: seq<seq<string>>, s: nat, c: seq<string>, del: set<nat>, dead: set<nat>,
                    rrs: seq<Rr>, lines: seq<string>)
    requires forall i :: 0 <= i < |cs| ==> cs[i] != [] && Closed(cs[i])
    requires s < |cs| && c != [] && |c| == |cs[s]| && KindOf(c[0]) == KindOf(cs[s][0]) && Closed(c)
    requires Agrees(cs, 0, 0, del, dead) && AllPrintable(lib, rrs)
    requires lines == AppendLines(KeepLines(Flatten(cs[s := c]), del, 0), Prints(lib, rrs))
    requires KeepLines(Flatten(cs[s := c]), del, 0) != [] && NoNewlines(lines)
    ensures var kept, adds := KeepItems(ChunkItems(cs)[s := ChunkItem(c)], dead, 0), AddItems(lib, rrs);
            FileItems(Join(lines)) == kept + adds || FileItems(Join(lines)) == AppendItems(kept, adds)
  {
    AgreesUpdate(cs, s, c, 0, 0, del, dead);
    ReassembleText(lib, cs[s := c], del, dead, rrs, lines);
    ItemsUpdate(cs, s, c);
  }

  lemma EditedAround(lib: Lib, origin: string, data: string, f: File, ops: seq<Op>, serial: nat, s: nat, c: seq<string>)
    requires Acceptable(lib, origin, data, f, ops, serial)
    requires SerialPlaced(f) && f.serialTok.Some?
    requires s < |Chunks(f.lines)| && c != [] && |c| == |Chunks(f.lines)[s]|
    requires KindOf(c[0]) == KindOf(Chunks(f.lines)[s][0]) && Closed(c)
    requires Bump(f, serial) == Flatten(Chunks(f.lines)[s := c])
    ensures s < |FileItems(data)|
    ensures var kept := KeepItems(FileItems(data)[s := ChunkItem(c)], Dead(lib, f, ops), 0);
            var adds := AddItems(lib, AddedRrs(ops));
            && (FileItems(Edited(lib, f, ops, serial)) == kept + adds
                || FileItems(Edited(lib, f, ops, serial)) == AppendItems(kept, adds))
  {
    DeletionLeaves(lib, origin, data, f, ops, Bump(f, serial));
    EditedNoNewlines(lib, f, ops, serial);
    Reassembled(lib, Chunks(f.lines), s, c, DeletedLines(lib, f, ops), Dead(lib, f, ops), AddedRrs(ops),
                EditedLines(lib, f, ops, serial));
  }

  lemma DeletionLeaves(lib: Lib, origin: string, data: string, f: File, ops: seq<Op>, lines: seq<string>)
    requires Opened(lib, origin, data, f) && EditAccepts(lib, f, ops) && |lines| == |f.lines|
    ensures f.lines == Split(data) && NoNewlines(f.lines)
    ensures forall i :: 0 <= i < |Chunks(f.lines)| ==> Chunks(f.lines)[i] != [] && Closed(Chunks(f.lines)[i])
    ensures Agrees(Chunks(f.lines), 0, 0, DeletedLines(lib, f, ops), Dead(lib, f, ops))
    ensures KeepLines(lines, DeletedLines(lib, f, ops), 0) != []
  {
    OpenedRecords(lib, origin, data, f);
    OpenedChunks(lib, origin, data);
    DeletionMarks(lib, origin, data, f, ops);
    SoaNotDead(lib, f, ops);
    KeptNonEmpty(Chunks(f.lines), f.soa.value, DeletedLines(lib, f, ops), Dead(lib, f, ops), lines);
  }

  lemma ItemsUpdate(cs: seq<seq<string>>, s: nat, c: seq<string>)
    requires forall i :: 0 <= i < |cs| ==> cs[i] != []
    requires s < |cs| && c != []
    ensures ChunkItems(cs[s := c]) == ChunkItems(cs)[s := ChunkItem(c)]
  {
  }

  lemma SoaNotDead(lib: Lib, f: File, ops: seq<Op>)
    requires EditAccepts(lib, f, ops) && f.soa.Some?
    ensures f.soa.value !in Dead(lib, f, ops)
  {
  }

  lemma ReassembleText(lib: Lib, cs: seq<seq<string>>, del: set<nat>, dead: set<nat>, rrs: seq<Rr>, lines: seq<string>)
    requires forall i :: 0 <= i < |cs| ==> cs[i] != [] && Closed(cs[i])
    requires Agrees(cs, 0, 0, del, dead) && AllPrintable(lib, rrs)
    requires lines == AppendLines(KeepLines(Flatten(cs), del, 0), Prints(lib, rrs))
    requires KeepLines(Flatten(cs), del, 0) != [] && NoNewlines(lines)
    ensures var kept, adds := KeepItems(ChunkItems(cs), dead, 0), AddItems(lib, rrs);
            FileItems(Join(lines)) == kept + adds || FileItems(Join(lines)) == AppendItems(kept, adds)
  {
    ReassembleEntries(lib, cs, del, dead, rrs);
    SplitJoin(lines);
  }

  lemma ReassembleEntries(lib: Lib, cs: seq<seq<string>>, del: set<nat>, dead: set<nat>, rrs: seq<Rr>)
    requires forall i :: 0 <= i < |cs| ==> cs[i] != [] && Closed(cs[i])
    requires Agrees(cs, 0, 0, del, dead) && AllPrintable(lib, rrs)
    ensures var lines := AppendLines(KeepLines(Flatten(cs), del, 0), Prints(lib, rrs));
            var kept, adds := KeepItems(ChunkItems(cs), dead, 0), AddItems(lib, rrs);
            ChunkItems(Chunks(lines)) == kept + adds || ChunkItems(Chunks(lines)) == AppendItems(kept, adds)
  {
    KeepLinesChunks(cs, 0, 0, del, dead);
    KeepClosed(cs, dead, 0);
    KeepChunkItems(cs, dead, 0);
    var ks, prints := KeepChunks(cs, dead, 0), Prints(lib, rrs);
    AppendLinesChunks(ks, prints);
    PrintedChunks(lib, rrs);
    forall i | 0 <= i < |prints| ensures Closed([prints[i]]) {
      assert Singles(prints)[i] == [prints[i]];
    }
    AppendedClosed(ks, prints);
    AppendedItems(ks, prints);
    ChunksFlatten(AppendChunks(ks, prints));
  }

  /** The line the serial is on is never among the deleted lines. */
  lemma SerialLineStays(lib: Lib, origin: string, data: string, f: File, ops: seq<Op>)
    requires Opened(lib, origin, data, f) && EditAccepts(lib, f, ops)
    ensures f.serialTok.Some? && f.serialTok.value.line !in DeletedLines(lib, f, ops)
  {
    OpenedSoa(lib, origin, data, f);
    OpenedChunks(lib, origin, data);
    DeletionMarks(lib, origin, data, f, ops);
    SoaNotDead(lib, f, ops);
    var r := f.soa.value;
    var s, o := RecordEntry(data, r);
    var toks := RecordEntries(Entries(Split(data)))[r].toks;
    ChunkLineStays(Chunks(Split(data)), s, o, FirstSoa(Texts(toks), 0) + 3, r, DeletedLines(lib, f, ops),
                   Dead(lib, f, ops));
  }

  lemma ChunkLineStays(cs: seq<seq<string>>, s: nat, o: nat, k: nat, r: nat, del: set<nat>, dead: set<nat>)
    requires forall i :: 0 <= i < |cs| ==> cs[i] != []
    requires Agrees(cs, 0, 0, del, dead) && r !in dead
    requires s < |cs| && KindOf(cs[s][0]).Record? && CountRecords(ChunkItems(cs)[..s]) == r
    requires o == |Flatten(cs[..s])| && k < |TokensOf(cs[s], o)|
    ensures TokensOf(cs[s], o)[k].line !in del
  {
    TokenPlaced(cs[s], o, k);
    assert ChunkItems(cs[..s]) == ChunkItems(cs)[..s];
    AgreesWhole(cs, s, 0, 0, del, dead, TokensOf(cs[s], o)[k].line - o);
  }

  lemma {:induction false} AgreesWhole(cs: seq<seq<string>>, s: nat, off: nat, n: nat, del: set<nat>, dead: set<nat>,
                                       l: nat)
    requires forall i :: 0 <= i < |cs| ==> cs[i] != []
    requires s < |cs| && l < |cs[s]| && KindOf(cs[s][0]).Record? && Agrees(cs, off, n, del, dead)
    ensures n + CountRecords(ChunkItems(cs[..s])) !in dead ==> off + |Flatten(cs[..s])| + l !in del
  {
    if s == 0 {
      assert cs[..0] == [];
    } else {
      ChunksBefore(cs, s);
      AgreesWhole(cs[1..], s - 1, off + |cs[0]|, if KindOf(cs[0][0]).Record? then n + 1 else n, del, dead, l);
    }
  }

  /** The output is never empty: the line of a record that is not deleted stays. */
  lemma KeptNonEmpty(cs: seq<seq<string>>, r: nat, del: set<nat>, dead: set<nat>, lines: seq<string>)
    requires forall i :: 0 <= i < |cs| ==> cs[i] != []
    requires Agrees(cs, 0, 0, del, dead) && r !in dead
    requires r < |RecordEntries(EntriesOf(cs, 0))| && |lines| == |Flatten(cs)|
    ensures KeepLines(lines, del, 0) != []
  {
    var s, o := FindChunk(cs, 0, r);
    AgreesWhole(cs, s, 0, 0, del, dead, 0);
    FlattenUpdate(cs, s, 0, "");
    KeptLine(lines, del, 0, o);
  }

  lemma {:induction false} KeptLine(lines: seq<string>, del: set<nat>, off: nat, l: nat)
    requires l < |lines| && off + l !in del
    ensures KeepLines(lines, del, off) != []
  {
    if l > 0 {
      KeptLine(lines[1..], del, off + 1, l - 1);
    }
  }

  // ----- Meaning preservation -----

  /** What an edit should leave: the surviving records, the serial advanced, then the added records. */
  ghost function Intended(lib: Lib, origin: string, data: string, f: File, ops: seq<Op>, serial: nat): seq<Rr>
    requires Opened(lib, origin, data, f) && f.soa.Some?
  {
    OpenedRecords(lib, origin, data, f);
    var rrs := Meaning(lib, origin, data).rrs;
    var k := f.soa.value;
    var bumped := if |rrs[k].rdata| > 2 then rrs[k := WithSerial(rrs[k], serial)] else rrs;
    Keep(bumped, Dead(lib, f, ops), 0) + AddedRrs(ops)
  }

  /** No record that the edit leaves loses the TTL it relies on. */
  ghost predicate KeepsTtls(lib: Lib, data: string, f: File, ops: seq<Op>) {
    TtlsSafe(lib, Unset, Unset, FileItems(data), Dead(lib, f, ops), 0)
  }

  lemma DeadFollowed(lib: Lib, origin: string, data: string, f: File, ops: seq<Op>)
    requires Opened(lib, origin, data, f) && EditAccepts(lib, f, ops)
    ensures OwnersSafe(FileItems(data), Dead(lib, f, ops), 0)
  {
    OpenedRecords(lib, origin, data, f);
    MeaningItems(lib, origin, data);
    var ri := RecordItems(FileItems(data));
    forall j | j in Dead(lib, f, ops) ensures OwnerAfter(ri, 0, j) {
      assert CanDelete(f, j);
      if j + 1 < |ri| {
        assert f.records[j + 1] == RecOf(lib, RecordEntries(Entries(Split(data)))[j + 1],
                                         Meaning(lib, origin, data).rrs[j + 1]);
      }
    }
    OwnersSafeFrom(FileItems(data), Dead(lib, f, ops), 0);
  }

  /** Items that differ only in their data: same kind, same owner column, same header. */
  ghost predicate SameHeader(lib: Lib, a: Item, b: Item) {
    a.kind == b.kind && a.explicit == b.explicit && HeadOf(lib, a) == HeadOf(lib, b) && a.kind.Record?
  }

  lemma {:induction false} NextExplicitUpdate(lib: Lib, items: seq<Item>, s: nat, it: Item)
    requires s < |items| && SameHeader(lib, items[s], it)
    ensures NextExplicit(items[s := it]) == NextExplicit(items)
    decreases |items|
  {
    if s == 0 {
    } else {
      assert items[s := it][1..] == items[1..][s - 1 := it];
      NextExplicitUpdate(lib, items[1..], s - 1, it);
    }
  }

  lemma {:induction false} OwnersUpdate(lib: Lib, items: seq<Item>, s: nat, it: Item, dead: set<nat>, n: nat)
    requires s < |items| && SameHeader(lib, items[s], it)
    ensures OwnersSafe(items[s := it], dead, n) == OwnersSafe(items, dead, n)
    decreases |items|
  {
    var items', rest := items[s := it], items[1..];
    if s == 0 {
      assert items'[1..] == rest;
    } else {
      assert items'[1..] == rest[s - 1 := it];
      NextExplicitUpdate(lib, rest, s - 1, it);
      OwnersUpdate(lib, rest, s - 1, it, dead, if items[0].kind.Record? then n + 1 else n);
    }
  }

  lemma {:induction false} TtlsUpdate(lib: Lib, full: Default, kept: Default, items: seq<Item>, s: nat, it: Item,
                                      dead: set<nat>, n: nat)
    requires s < |items| && SameHeader(lib, items[s], it)
    ensures TtlsSafe(lib, full, kept, items[s := it], dead, n) == TtlsSafe(lib, full, kept, items, dead, n)
    decreases |items|
  {
    var items', rest := items[s := it], items[1..];
    if s == 0 {
      assert items'[1..] == rest;
    } else {
      assert items'[0] == items[0] && items'[1..] == rest[s - 1 := it];
      if items[0].kind.Record? {
        var h := HeadOf(lib, items[0]);
        if h.Some? {
          var kept' := if n !in dead then DefaultAfter(kept, h.value) else kept;
          TtlsUpdate(lib, DefaultAfter(full, h.value), kept', rest, s - 1, it, dead, n + 1);
        }
      } else {
        var c := ReadControl(Ctx("", "", full), items[0]);
        if c.Some? {
          TtlsUpdate(lib, c.value.ttl, if items[0].kind == Directive(Ttl) then c.value.ttl else kept, rest, s - 1, it,
                     dead, n);
        }
      }
    }
  }

  lemma SafetyUpdate(lib: Lib, full: Default, kept: Default, items: seq<Item>, s: nat, it: Item, dead: set<nat>, n: nat)
    requires s < |items| && SameHeader(lib, items[s], it)
    ensures OwnersSafe(items[s := it], dead, n) == OwnersSafe(items, dead, n)
    ensures TtlsSafe(lib, full, kept, items[s := it], dead, n) == TtlsSafe(lib, full, kept, items, dead, n)
  {
    OwnersUpdate(lib, items, s, it, dead, n);
    TtlsUpdate(lib, full, kept, items, s, it, dead, n);
  }

  lemma SuffixCancels<T>(a: seq<T>, b: seq<T>, c: seq<T>)
    requires a + c == b + c
    ensures a == b
  {
    assert |a| == |b|;
    assert a == (a + c)[..|a|] == (b + c)[..|b|] == b;
  }

  /**
   * Meaning preservation. The text `Edit` returns resolves to the surviving records in
   * order, their owner, TTL, type and data unchanged, the SOA with the new serial, and
   * then the added records - if and only if no survivor relied on a deleted record's TTL.
   */
  lemma EditPreservesMeaning(lib: Lib, origin: string, data: string, f: File, ops: seq<Op>, serial: nat)
    requires Editable(lib, origin, data, f, ops, serial)
    ensures SerialPlaced(f) && f.serialTok.Some?
    ensures Meaning(lib, origin, Edited(lib, f, ops, serial))
            == Resolved(Intended(lib, origin, data, f, ops, serial), true)
            <==> KeepsTtls(lib, data, f, ops)
  {
    var s := EditedEntries(lib, origin, data, f, ops, serial);
    MeaningItems(lib, origin, data);
    MeaningItems(lib, origin, Edited(lib, f, ops, serial));
    DeadFollowed(lib, origin, data, f, ops);
    OpenedSoa(lib, origin, data, f);
    EditedResolves(lib, Start(origin), FileItems(data), s, serial, Dead(lib, f, ops), AddedRrs(ops),
                   FileItems(Edited(lib, f, ops, serial)), f.soa.value);
  }

  /** The edited entries resolve to what was intended exactly when no TTL is stranded. */
  lemma EditedResolves(lib: Lib, ctx: Ctx, items: seq<Item>, s: nat, serial: nat, dead: set<nat>, adds: seq<Rr>,
                       out: seq<Item>, k: nat)
    requires EditedAs(lib, items, s, serial, dead, AddItems(lib, adds), out) && CountRecords(items[..s]) == k
    requires ValidLib(lib) && AllPrintable(lib, adds) && serial < UINT32
    requires Resolve(lib, ctx, items).ok && OwnersSafe(items, dead, 0)
    ensures var rrs := Resolve(lib, ctx, items).rrs;
            && k < |rrs| && |rrs[k].rdata| > 2
            && (Resolve(lib, ctx, out) == Resolved(Keep(rrs[k := WithSerial(rrs[k], serial)], dead, 0) + adds, true)
                <==> TtlsSafe(lib, ctx.ttl, ctx.ttl, items, dead, 0))
  {
    KeptThenAdded(lib, ctx, items, s, serial, dead, adds);
  }

  lemma KeptThenAdded(lib: Lib, ctx: Ctx, items: seq<Item>, s: nat, serial: nat, dead: set<nat>, adds: seq<Rr>)
    requires ValidLib(lib) && AllPrintable(lib, adds)
    requires s < |items| && items[s].kind.Record? && serial < UINT32
    requires HeadOf(lib, items[s]).Some? && HeadOf(lib, items[s]).value.rtype == SOA
    requires HeadOf(lib, items[s]).value.at + 3 < |items[s].texts|
    requires Resolve(lib, ctx, items).ok && OwnersSafe(items, dead, 0)
    ensures var it := Reserialed(items[s], HeadOf(lib, items[s]).value.at + 3, serial);
            var kept := KeepItems(items[s := it], dead, 0);
            var r, rrs := CountRecords(items[..s]), Resolve(lib, ctx, items).rrs;
            && r < |rrs| && |rrs[r].rdata| > 2
            && var goal := Resolved(Keep(rrs[r := WithSerial(rrs[r], serial)], dead, 0) + adds, true);
            && (Resolve(lib, ctx, kept + AddItems(lib, adds)) == goal
               <==> TtlsSafe(lib, ctx.ttl, ctx.ttl, items, dead, 0))
            && (Resolve(lib, ctx, AppendItems(kept, AddItems(lib, adds))) == goal
               <==> TtlsSafe(lib, ctx.ttl, ctx.ttl, items, dead, 0))
  {
    var it := Reserialed(items[s], HeadOf(lib, items[s]).value.at + 3, serial);
    var items1 := items[s := it];
    ReserialFile(lib, ctx, items, s, serial);
    ReserialHeader(lib, items[s], serial);
    SafetyUpdate(lib, ctx.ttl, ctx.ttl, items, s, it, dead, 0);
    ResolveKept(lib, ctx, ctx, items1, dead, 0);
    var kept := KeepItems(items1, dead, 0);
    forall c ensures Resolve(lib, c, AddItems(lib, adds)) == Resolved(adds, true) {
      ResolveAdds(lib, c, adds);
    }
    ResolveAppendItems(lib, ctx, kept, AddItems(lib, adds), adds);
    var r := Resolve(lib, ctx, kept);
    var want := Keep(Resolve(lib, ctx, items1).rrs, dead, 0);
    if r.ok && r.rrs + adds == want + adds {
      SuffixCancels(r.rrs, want, adds);
    }
  }

  lemma ReserialHeader(lib: Lib, it: Item, serial: nat)
    requires it.kind.Record? && HeadOf(lib, it).Some? && HeadOf(lib, it).value.at + 3 < |it.texts|
    ensures SameHeader(lib, it, Reserialed(it, HeadOf(lib, it).value.at + 3, serial))
  {
    var at := HeadOf(lib, it).value.at;
    var it' := Reserialed(it, at + 3, serial);
    assert it'.texts[..at + 1] == it.texts[..at + 1];
    HeadPrefix(lib, it.texts, it'.texts, if it.explicit then 1 else 0, None, false);
  }
}
