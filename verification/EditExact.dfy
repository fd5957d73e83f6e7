/** Exactly when an edit means what was asked: its hypotheses cannot be weakened. */
module EditExact {
  import opened Text
  import opened Tokenizer
  import opened Resolver
  import opened ZoneFile
  import opened Rescan
  import opened Printing
  import opened Surgery
  import opened Preservation
  import opened EditTheorem
  import opened EditClosure
  import opened Serial

  /** Owner, TTL and class: the type is at most the fourth token. */
  lemma {:induction false} HeaderIsShort(lib: Lib, texts: seq<string>, i: nat, ttl: Option<nat>, cls: bool)
    requires HeadFrom(lib, texts, i, ttl, cls).Some?
    ensures HeadFrom(lib, texts, i, ttl, cls).value.at <= i + (if ttl.None? then 1 else 0) + (if cls then 0 else 1)
    decreases |texts| - i
  {
    if IsClassWord(texts[i]) {
      HeaderIsShort(lib, texts, i + 1, ttl, true);
    } else if TypeOf(lib, texts[i]).None? {
      HeaderIsShort(lib, texts, i + 1, TtlOf(texts[i]), cls);
    }
  }

  /** The type is not a number. */
  lemma {:induction false} TypeIsNoNumber(lib: Lib, texts: seq<string>, i: nat, ttl: Option<nat>, cls: bool)
    requires ValidLib(lib) && HeadFrom(lib, texts, i, ttl, cls).Some?
    ensures ParseUint32(texts[HeadFrom(lib, texts, i, ttl, cls).value.at]).None?
    decreases |texts| - i
  {
    if IsClassWord(texts[i]) {
      TypeIsNoNumber(lib, texts, i + 1, ttl, true);
    } else if TypeOf(lib, texts[i]).None? {
      TypeIsNoNumber(lib, texts, i + 1, TtlOf(texts[i]), cls);
    } else if ParseUint32(texts[i]).Some? {
      DigitsAreNoWord(lib, texts[i]);
    }
  }

  /** An SOA not spelled plainly whose located token is a number: that token is other data of the record. */
  lemma LocatedElsewhere(lib: Lib, it: Item)
    requires ValidLib(lib) && ReadsSoa(lib, it) && !SoaSpelled(lib, it)
    requires FirstSoa(it.texts, 0) + 3 < |it.texts| && ParseUint32(it.texts[FirstSoa(it.texts, 0) + 3]).Some?
    ensures var at := HeadOf(lib, it).value.at; FirstSoa(it.texts, 0) + 3 > at && FirstSoa(it.texts, 0) != at
  {
    SerialTokenExact(lib, it);
    var start := if it.explicit then 1 else 0;
    NoSoaBeforeType(lib, it.texts, start, None, false);
    HeaderIsShort(lib, it.texts, start, None, false);
    TypeIsNoNumber(lib, it.texts, start, None, false);
  }

  /** The record with another datum rewritten: its header and its serial's token are as before. */
  lemma RewrittenElsewhere(lib: Lib, it: Item, idx: nat, serial: nat)
    requires ReadsSoa(lib, it) && HeadOf(lib, it).value.at < idx < |it.texts|
    requires idx != HeadOf(lib, it).value.at + 3 < |it.texts|
    ensures var it' := Reserialed(it, idx, serial);
            && HeadOf(lib, it') == HeadOf(lib, it)
            && it'.texts[HeadOf(lib, it).value.at + 3] == it.texts[HeadOf(lib, it).value.at + 3]
  {
    var at, it' := HeadOf(lib, it).value.at, Reserialed(it, idx, serial);
    assert it'.texts[..at + 1] == it.texts[..at + 1];
    HeadPrefix(lib, it.texts, it'.texts, if it.explicit then 1 else 0, None, false);
  }

  /** The entry of the SOA and the token `Parse` located in it, however it is spelled. */
  lemma LocatedEntry(lib: Lib, origin: string, data: string, f: File) returns (s: nat, o: nat)
    requires Opened(lib, origin, data, f)
    ensures f.soa.Some? && f.soa.value < |RecordItems(FileItems(data))| && f.lines == Split(data)
    ensures f.soa.value < |RecordEntries(Entries(Split(data)))|
    ensures RecordAt(Chunks(Split(data)), FileItems(data), RecordEntries(Entries(Split(data)))[f.soa.value].toks,
            f.soa.value, s, o)
    ensures ItemAt(FileItems(data), s, SoaItem(data, f)) && ReadsSoa(lib, SoaItem(data, f))
    ensures var toks := RecordEntries(Entries(Split(data)))[f.soa.value].toks;
            f.serialTok == SerialToken(toks) && f.serialTok.Some?
  {
    OpenedSoa(lib, origin, data, f);
    OpenedCounts(lib, origin, data, f);
    OpenedRecords(lib, origin, data, f);
    s, o := SoaEntryOf(lib, origin, data, f.soa.value);
  }

  /** What bumping does to the entry of the SOA, whichever token was located. */
  ghost predicate Bumped(data: string, f: File, serial: nat, s: nat, c: seq<string>, idx: nat) {
    var cs, items := Chunks(Split(data)), FileItems(data);
    && |cs| == |items| && s < |cs| && c != [] && |c| == |cs[s]| && cs[s] != []
    && KindOf(c[0]) == KindOf(cs[s][0]) && Closed(c)
    && items[s].kind.Record? && idx < |items[s].texts| && ChunkItem(c) == Reserialed(items[s], idx, serial)
    && SerialPlaced(f) && f.serialTok.Some? && Bump(f, serial) == Flatten(cs[s := c])
  }

  lemma BumpLocated(lib: Lib, origin: string, data: string, f: File, serial: nat)
    returns (s: nat, c: seq<string>, idx: nat)
    requires Opened(lib, origin, data, f)
    ensures f.soa.Some? && f.soa.value < |RecordItems(FileItems(data))|
    ensures Bumped(data, f, serial, s, c, idx) && ItemAt(FileItems(data), s, SoaItem(data, f))
    ensures ReadsSoa(lib, SoaItem(data, f)) && CountRecords(FileItems(data)[..s]) == f.soa.value
    ensures idx == FirstSoa(SoaItem(data, f).texts, 0) + 3 < |SoaItem(data, f).texts|
    ensures ParseUint32(SoaItem(data, f).texts[idx]) == Some(SoaSerial(f))
  {
    var o;
    s, o := LocatedEntry(lib, origin, data, f);
    OpenedChunks(lib, origin, data);
    Placed(lib, origin, data, f);
    LocatedReads(lib, origin, data, f);
    var toks := RecordEntries(Entries(Split(data)))[f.soa.value].toks;
    idx := FirstSoa(Texts(toks), 0) + 3;
    c := BumpAt(Chunks(Split(data)), FileItems(data), toks, f.soa.value, s, o, idx, serial, f);
  }

  lemma LocatedReads(lib: Lib, origin: string, data: string, f: File)
    requires Opened(lib, origin, data, f)
    ensures f.serialTok.Some? && ParseUint32(f.serialTok.value.text) == Some(SoaSerial(f))
            && Meaning(lib, origin, data).ok
  {
    OpenedRecords(lib, origin, data, f);
  }

  lemma BumpAt(cs: seq<seq<string>>, items: seq<Item>, toks: seq<Tok>, r: nat, s: nat, o: nat, idx: nat, serial: nat,
               f: File)
    returns (c: seq<string>)
    requires forall i :: 0 <= i < |cs| ==> cs[i] != [] && Closed(cs[i])
    requires RecordAt(cs, items, toks, r, s, o) && items == ChunkItems(cs)
    requires 0 < idx < |toks| && f.serialTok == Some(toks[idx]) && f.lines == Flatten(cs) && SerialPlaced(f)
    ensures c != [] && |c| == |cs[s]| && KindOf(c[0]) == KindOf(cs[s][0]) && Closed(c)
    ensures idx < |items[s].texts| && ChunkItem(c) == Reserialed(items[s], idx, serial)
    ensures Bump(f, serial) == Flatten(cs[s := c])
  {
    c := BumpChunk(cs, s, o, idx, serial);
  }

  /** The output's records, entry by entry, whichever token was rewritten. */
  lemma OutputAnyway(lib: Lib, origin: string, data: string, f: File, ops: seq<Op>, serial: nat, s: nat,
                     c: seq<string>, idx: nat)
    requires Acceptable(lib, origin, data, f, ops, serial) && f.soa.Some?
    requires Bumped(data, f, serial, s, c, idx) && ItemAt(FileItems(data), s, FileItems(data)[s])
    requires CountRecords(FileItems(data)[..s]) == f.soa.value
    ensures f.soa.value < |RecordItems(FileItems(data))|
    ensures RecordItems(FileItems(Edited(lib, f, ops, serial)))
            == Keep(RecordItems(FileItems(data))[f.soa.value := Reserialed(FileItems(data)[s], idx, serial)],
                    Dead(lib, f, ops), 0)
               + AddItems(lib, AddedRrs(ops))
  {
    EditedAround(lib, origin, data, f, ops, serial, s, c);
    OpenedOrderly(lib, origin, data, f);
    OutputEntries(lib, FileItems(data), s, Reserialed(FileItems(data)[s], idx, serial), Dead(lib, f, ops),
                  AddedRrs(ops), FileItems(Edited(lib, f, ops, serial)));
  }

  /** A readable text: the record in entry `it`, number `p`, has the serial that the entry's data states. */
  lemma SerialRead(lib: Lib, ctx: Ctx, out: seq<Item>, p: nat, it: Item)
    requires Resolve(lib, ctx, out).ok && p < |RecordItems(out)| && RecordItems(out)[p] == it && ReadsSoa(lib, it)
    ensures p < |Resolve(lib, ctx, out).rrs| && HeadOf(lib, it).value.at + 3 < |it.texts|
    ensures |Resolve(lib, ctx, out).rrs[p].rdata| > 2
    ensures ParseUint32(it.texts[HeadOf(lib, it).value.at + 3]) == Some(SerialOf(Resolve(lib, ctx, out).rrs[p]))
  {
    var s := FindItem(out, p);
    ReserialFile(lib, ctx, out, s, 0);
  }

  lemma KeptAppended<S, T>(a: seq<S>, b: seq<T>, dead: set<nat>, k: nat, a': seq<S>, b': seq<T>) returns (p: nat)
    requires |a| == |b| && k < |a| && k !in dead
    ensures p < |Keep(a, dead, 0) + a'| && p < |Keep(b, dead, 0) + b'|
    ensures (Keep(a, dead, 0) + a')[p] == a[k] && (Keep(b, dead, 0) + b')[p] == b[k]
  {
    p := KeepAt(a, b, dead, 0, k);
  }

  /** What an edit should leave in place of the SOA has the new serial. */
  lemma IntendedSerial(lib: Lib, origin: string, data: string, f: File, ops: seq<Op>, serial: nat, it: Item)
    returns (p: nat, bumped: seq<Rr>)
    requires Acceptable(lib, origin, data, f, ops, serial) && f.soa.Some?
             && f.soa.value < |RecordItems(FileItems(data))|
    requires ReadsSoa(lib, RecordItems(FileItems(data))[f.soa.value])
    ensures f.soa.value !in Dead(lib, f, ops)
    ensures var adds := AddItems(lib, AddedRrs(ops));
            var kept := Keep(RecordItems(FileItems(data))[f.soa.value := it], Dead(lib, f, ops), 0) + adds;
            p < |kept| && kept[p] == it && p < |Intended(lib, origin, data, f, ops, serial)|
    ensures SerialOf(Intended(lib, origin, data, f, ops, serial)[p]) == serial
  {
    SoaNotDead(lib, f, ops);
    OpenedCounts(lib, origin, data, f);
    OpenedRecords(lib, origin, data, f);
    MeaningItems(lib, origin, data);
    var rrs, k := Meaning(lib, origin, data).rrs, f.soa.value;
    SerialRead(lib, Start(origin), FileItems(data), k, RecordItems(FileItems(data))[k]);
    bumped := rrs[k := WithSerial(rrs[k], serial)];
    LastSoaBumped(rrs, k, serial);
    p := KeptAppended(bumped, RecordItems(FileItems(data))[k := it], Dead(lib, f, ops), k, AddedRrs(ops),
                      AddItems(lib, AddedRrs(ops)));
  }

  /** Token `idx` of an SOA is past its type and not its serial, which is `was`. */
  ghost predicate OtherDatum(lib: Lib, it: Item, idx: nat, was: nat) {
    && ReadsSoa(lib, it) && HeadOf(lib, it).value.at < idx < |it.texts|
    && idx != HeadOf(lib, it).value.at + 3 < |it.texts|
    && ParseUint32(it.texts[HeadOf(lib, it).value.at + 3]) == Some(was)
  }

  /** In a text with the record's entry so rewritten, the record still has its old serial. */
  lemma OldSerialStays(lib: Lib, ctx: Ctx, out: seq<Item>, p: nat, it: Item, idx: nat, serial: nat, was: nat)
    requires OtherDatum(lib, it, idx, was) && Resolve(lib, ctx, out).ok
    requires ItemAt(RecordItems(out), p, Reserialed(it, idx, serial))
    ensures p < |Resolve(lib, ctx, out).rrs| && SerialOf(Resolve(lib, ctx, out).rrs[p]) == was
  {
    RewrittenElsewhere(lib, it, idx, serial);
    SerialRead(lib, ctx, out, p, Reserialed(it, idx, serial));
  }

  lemma OpenedReads(lib: Lib, origin: string, data: string, f: File)
    requires Opened(lib, origin, data, f)
    ensures Resolve(lib, Start(origin), FileItems(data)).ok && f.soa.Some?
    ensures f.soa.value < |Resolve(lib, Start(origin), FileItems(data)).rrs|
    ensures SoaSerial(f) == SerialOf(Resolve(lib, Start(origin), FileItems(data)).rrs[f.soa.value])
  {
    OpenedRecords(lib, origin, data, f);
    MeaningItems(lib, origin, data);
  }

  /** The located token of an SOA not spelled plainly is other data of the record. */
  lemma OtherLocated(lib: Lib, ctx: Ctx, items: seq<Item>, k: nat, it: Item, was: nat)
    requires ValidLib(lib) && Resolve(lib, ctx, items).ok && k < |Resolve(lib, ctx, items).rrs|
    requires SerialOf(Resolve(lib, ctx, items).rrs[k]) == was
    requires ItemAt(RecordItems(items), k, it) && ReadsSoa(lib, it) && !SoaSpelled(lib, it)
    requires FirstSoa(it.texts, 0) + 3 < |it.texts| && ParseUint32(it.texts[FirstSoa(it.texts, 0) + 3]).Some?
    ensures OtherDatum(lib, it, FirstSoa(it.texts, 0) + 3, was)
  {
    LocatedElsewhere(lib, it);
    SerialRead(lib, ctx, items, k, it);
  }

  /** The output after a misplaced bump: the SOA's entry, number `p`, and what was intended there. */
  lemma MisplacedOutput(lib: Lib, origin: string, data: string, f: File, ops: seq<Op>, serial: nat)
    returns (p: nat, idx: nat)
    requires Acceptable(lib, origin, data, f, ops, serial) && !SoaPlain(lib, data, f)
    ensures f.soa.Some? && f.soa.value < |RecordItems(FileItems(data))| && f.serialTok.Some? && SerialPlaced(f)
    ensures OtherDatum(lib, SoaItem(data, f), idx, SoaSerial(f))
    ensures ItemAt(RecordItems(FileItems(Edited(lib, f, ops, serial))), p, Reserialed(SoaItem(data, f), idx, serial))
    ensures p < |Intended(lib, origin, data, f, ops, serial)|
            && SerialOf(Intended(lib, origin, data, f, ops, serial)[p]) == serial
  {
    var s, c;
    s, c, idx := BumpLocated(lib, origin, data, f, serial);
    var it := SoaItem(data, f);
    OpenedReads(lib, origin, data, f);
    OtherLocated(lib, Start(origin), FileItems(data), f.soa.value, it, SoaSerial(f));
    OutputAnyway(lib, origin, data, f, ops, serial, s, c, idx);
    var bumped;
    p, bumped := IntendedSerial(lib, origin, data, f, ops, serial, Reserialed(it, idx, serial));
  }

  lemma SerialsClash(lib: Lib, ctx: Ctx, out: seq<Item>, rrs: seq<Rr>, p: nat, it: Item, idx: nat, serial: nat,
                     was: nat)
    requires OtherDatum(lib, it, idx, was) && ItemAt(RecordItems(out), p, Reserialed(it, idx, serial))
    requires p < |rrs| && SerialOf(rrs[p]) == serial
    ensures Resolve(lib, ctx, out) == Resolved(rrs, true) ==> serial == was
  {
    if Resolve(lib, ctx, out).ok {
      OldSerialStays(lib, ctx, out, p, it, idx, serial, was);
    }
  }

  /** When another token than the serial is rewritten, the text cannot mean what was asked for. */
  lemma MisplacedBump(lib: Lib, origin: string, data: string, f: File, ops: seq<Op>, serial: nat)
    requires Acceptable(lib, origin, data, f, ops, serial) && !SoaPlain(lib, data, f)
    ensures f.soa.Some? && f.serialTok.Some? && SerialPlaced(f)
    ensures Meaning(lib, origin, Edited(lib, f, ops, serial))
            == Resolved(Intended(lib, origin, data, f, ops, serial), true)
            ==> serial == SoaSerial(f)
  {
    var p, idx := MisplacedOutput(lib, origin, data, f, ops, serial);
    var text := Edited(lib, f, ops, serial);
    MeaningItems(lib, origin, text);
    SerialsClash(lib, Start(origin), FileItems(text), Intended(lib, origin, data, f, ops, serial), p,
                 SoaItem(data, f), idx, serial, SoaSerial(f));
  }

  /**
   * Meaning preservation, exactly. An edit that succeeds and changes the serial means what was
   * asked if and only if the SOA is spelled so that its serial is the token located, and no
   * survivor relied on a deleted record's TTL.
   */
  lemma EditMeansIntended(lib: Lib, origin: string, data: string, f: File, ops: seq<Op>, serial: nat)
    requires Acceptable(lib, origin, data, f, ops, serial) && serial != SoaSerial(f)
    ensures f.soa.Some? && f.serialTok.Some? && SerialPlaced(f)
    ensures Meaning(lib, origin, Edited(lib, f, ops, serial))
            == Resolved(Intended(lib, origin, data, f, ops, serial), true)
            <==> SoaPlain(lib, data, f) && KeepsTtls(lib, data, f, ops)
  {
    if SoaPlain(lib, data, f) {
      EditPreservesMeaning(lib, origin, data, f, ops, serial);
    } else {
      MisplacedBump(lib, origin, data, f, ops, serial);
    }
  }

  /** The serial `Edit` writes on any date is never the old one. */
  lemma NextSerialDiffers(cur: nat, y: nat, m: nat, d: nat)
    requires cur < UINT32
    ensures NextSerial(cur, DateBase(y, m, d)) != cur && NextSerial(cur, DateBase(y, m, d)) < UINT32
  {
    assert DateBase(y, m, d) % 2 == 0;
  }

  /** The same for the serial `Edit` itself chooses, on any date. */
  lemma EditMeansIntendedToday(lib: Lib, origin: string, data: string, f: File, ops: seq<Op>, y: nat, m: nat, d: nat)
    requires Opened(lib, origin, data, f) && EditAccepts(lib, f, ops) && AllPrintable(lib, AddedRrs(ops))
    ensures f.soa.Some? && f.serialTok.Some? && SerialPlaced(f)
    ensures var serial := NextSerial(SoaSerial(f), DateBase(y, m, d));
            Meaning(lib, origin, Edited(lib, f, ops, serial))
              == Resolved(Intended(lib, origin, data, f, ops, serial), true)
            <==> SoaPlain(lib, data, f) && KeepsTtls(lib, data, f, ops)
  {
    LocatedReads(lib, origin, data, f);
    ParsedFits(f.serialTok.value.text);
    NextSerialDiffers(SoaSerial(f), y, m, d);
    EditMeansIntended(lib, origin, data, f, ops, NextSerial(SoaSerial(f), DateBase(y, m, d)));
  }

  lemma ParsedFits(t: string)
    requires ParseUint32(t).Some?
    ensures ParseUint32(t).value < UINT32
  {
  }
}
