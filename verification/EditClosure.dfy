/** Which files keep their TTLs under any edit, and that the output of an edit can be edited again. */
module EditClosure {
  import opened Text
  import opened Tokenizer
  import opened Resolver
  import opened ZoneFile
  import opened Rescan
  import opened Printing
  import opened Surgery
  import opened Preservation
  import opened EditTheorem

  // ----- Files that no edit can hurt -----

  /** Types are spelled with mnemonics, and `$TTL`, if used, leads the records that need it. */
  predicate BenignItems(lib: Lib, items: seq<Item>) {
    && (forall it :: it in items && it.kind.Record? ==> TypeSpelled(lib, it))
    && ((forall it :: it in items ==> it.kind != Directive(Ttl)) || TtlLeads(lib, items))
  }

  predicate Benign(lib: Lib, data: string) {
    BenignItems(lib, FileItems(data))
  }

  lemma {:induction false} RecordItemsFrom(items: seq<Item>)
    ensures |RecordItems(items)| == CountRecords(items)
    ensures forall r :: 0 <= r < |RecordItems(items)| ==>
              RecordItems(items)[r] in items && RecordItems(items)[r].kind.Record?
    decreases |items|
  {
    if items != [] {
      RecordItemsFrom(items[1..]);
    }
  }

  /** Where record number `r` is among the entries. */
  lemma {:induction false} FindItem(items: seq<Item>, r: nat) returns (s: nat)
    requires r < |RecordItems(items)|
    ensures s < |items| && items[s].kind.Record? && items[s] == RecordItems(items)[r]
    ensures CountRecords(items[..s]) == r
    decreases |items|
  {
    var rec := items[0].kind.Record?;
    if rec && r == 0 {
      s := 0;
      assert items[..0] == [];
    } else {
      var s' := FindItem(items[1..], if rec then r - 1 else r);
      s := s' + 1;
      assert items[..s] == [items[0]] + items[1..][..s'] && items[..s][1..] == items[1..][..s'];
    }
  }

  lemma NoTtlEntries(data: string)
    requires forall it :: it in FileItems(data) ==> it.kind != Directive(Ttl)
    ensures !HasTtlDirective(Entries(Split(data)))
  {
    ItemsOfEntries(Chunks(Split(data)), 0);
    var es, items := Entries(Split(data)), FileItems(data);
    forall i | 0 <= i < |es| ensures es[i].kind != Directive(Ttl) {
      assert items[i] == ItemOf(es[i]) && items[i] in items;
    }
  }

  /** A record the file takes to state its TTL does. */
  ghost predicate StatedTtls(lib: Lib, recs: seq<Rec>, ri: seq<Item>) {
    |recs| == |ri| && forall r :: 0 <= r < |recs| && recs[r].explicitTtl ==> StatesItsTtl(lib, ri[r])
  }

  lemma OpenedStatedTtls(lib: Lib, origin: string, data: string, f: File)
    requires Opened(lib, origin, data, f) && Benign(lib, data)
    ensures StatedTtls(lib, f.records, RecordItems(FileItems(data)))
  {
    OpenedCounts(lib, origin, data, f);
    forall r | 0 <= r < |f.records| && f.records[r].explicitTtl
      ensures StatesItsTtl(lib, RecordItems(FileItems(data))[r]) {
      FollowerStatesTtl(lib, origin, data, f, r);
    }
  }

  /** Without `$TTL`, the record after an accepted deletion states its TTL. */
  lemma DeletionLed(lib: Lib, f: File, ri: seq<Item>, j: nat)
    requires StatedTtls(lib, f.records, ri) && !f.hasTtlDirective && j < |f.records| && CanDelete(f, j)
    ensures TtlAfter(lib, ri, 0, j)
  {
  }

  lemma OpenedCounts(lib: Lib, origin: string, data: string, f: File)
    requires Opened(lib, origin, data, f)
    ensures |f.records| == |RecordItems(FileItems(data))|
    ensures f.hasTtlDirective == HasTtlDirective(Entries(Split(data)))
  {
    OpenedRecords(lib, origin, data, f);
    MeaningItems(lib, origin, data);
  }

  /** On a benign file every deletion the code accepts leaves every other TTL alone. */
  lemma BenignKeepsTtls(lib: Lib, origin: string, data: string, f: File, ops: seq<Op>)
    requires Opened(lib, origin, data, f) && EditAccepts(lib, f, ops) && Benign(lib, data)
    ensures KeepsTtls(lib, data, f, ops)
  {
    var items, dead := FileItems(data), Dead(lib, f, ops);
    if TtlLeads(lib, items) {
      TtlsSafeLed(lib, Unset, Unset, items, dead, 0);
    } else {
      NoTtlEntries(data);
      OpenedCounts(lib, origin, data, f);
      OpenedStatedTtls(lib, origin, data, f);
      forall j | j in dead ensures TtlAfter(lib, RecordItems(items), 0, j) {
        DeletionLed(lib, f, RecordItems(items), j);
      }
      assert forall i :: 0 <= i < |items| ==> items[i] in items;
      TtlsSafeAlone(lib, Unset, Unset, items, dead, 0);
    }
  }

  lemma FollowerStatesTtl(lib: Lib, origin: string, data: string, f: File, r: nat)
    requires Opened(lib, origin, data, f) && Benign(lib, data)
    requires r < |f.records| && f.records[r].explicitTtl && r < |RecordItems(FileItems(data))|
    ensures StatesItsTtl(lib, RecordItems(FileItems(data))[r])
  {
    OpenedRecords(lib, origin, data, f);
    MeaningItems(lib, origin, data);
    var items := FileItems(data);
    var s := FindItem(items, r);
    ResolveAt(lib, Start(origin), items, s);
    var e := RecordEntries(Entries(Split(data)))[r];
    assert ItemOf(e) == items[s];
    ExplicitTtlSound(lib, e);
  }

  // ----- When a text can be edited in place -----

  /** No construct the line mapper refuses; `seen` says whether a record came before. */
  predicate Orderly(items: seq<Item>, seen: bool)
    decreases |items|
  {
    items != [] ==>
      match items[0].kind
      case Directive(Include) => false
      case Directive(Generate) => false
      case Directive(Origin) => !seen && Orderly(items[1..], seen)
      case Record => Orderly(items[1..], true)
      case _ => Orderly(items[1..], seen)
  }

  lemma {:induction false} RefusalNone(es: seq<Entry>)
    ensures Refusal(es).None? <==> forall i :: 0 <= i < |es| ==> Offence(es[..i], es[i]).None?
  {
    if es != [] {
      var n := |es| - 1;
      RefusalNone(es[..n]);
      assert forall i :: 0 <= i < n ==> es[..n][..i] == es[..i];
    }
  }

  lemma {:induction false} OrderlyOffences(es: seq<Entry>, k: nat)
    requires k <= |es|
    ensures Orderly(Items(es)[k..], HasRecord(es[..k])) <==> forall i :: k <= i < |es| ==> Offence(es[..i], es[i]).None?
    decreases |es| - k
  {
    if k < |es| {
      OrderlyOffences(es, k + 1);
      var items := Items(es);
      assert items[k..][1..] == items[k + 1..] && items[k..][0] == items[k] == ItemOf(es[k]);
      assert HasRecord(es[..k + 1]) == (HasRecord(es[..k]) || es[k].kind.Record?) by {
        if HasRecord(es[..k]) {
          var i :| 0 <= i < k && es[..k][i].kind.Record?;
          assert es[..k + 1][i].kind.Record?;
        }
        assert es[..k + 1][k] == es[k];
        if HasRecord(es[..k + 1]) {
          var i :| 0 <= i < k + 1 && es[..k + 1][i].kind.Record?;
          assert i < k ==> es[..k][i].kind.Record?;
        }
      }
    }
  }

  lemma RefusalOrderly(data: string)
    ensures Refusal(Entries(Split(data))).None? <==> Orderly(FileItems(data), false)
  {
    var es := Entries(Split(data));
    ItemsOfEntries(Chunks(Split(data)), 0);
    RefusalNone(es);
    OrderlyOffences(es, 0);
    assert Items(es)[0..] == FileItems(data);
  }

  lemma SerialTokenReads(lib: Lib, ctx: Ctx, items: seq<Item>, s: nat, toks: seq<Tok>)
    requires s < |items| && items[s].kind.Record? && Resolve(lib, ctx, items).ok
    requires ReadsSoa(lib, items[s]) && SoaSpelled(lib, items[s]) && Texts(toks) == items[s].texts
    ensures SerialToken(toks).Some? && CountRecords(items[..s]) < |Resolve(lib, ctx, items).rrs|
    ensures ParseUint32(SerialToken(toks).value.text)
            == Some(SerialOf(Resolve(lib, ctx, items).rrs[CountRecords(items[..s])]))
  {
    ReserialFile(lib, ctx, items, s, 0);
    SerialTokenExact(lib, items[s]);
  }

  /** The token `Parse` locates in a plainly spelled SOA holds the serial the reader saw. */
  lemma SerialTokenFound(lib: Lib, origin: string, data: string, k: nat)
    requires Meaning(lib, origin, data).ok
    requires k < |RecordItems(FileItems(data))| && SoaSpelled(lib, RecordItems(FileItems(data))[k])
    requires k < |Meaning(lib, origin, data).rrs| && Meaning(lib, origin, data).rrs[k].rtype == SOA
    ensures var recs, rrs := RecordEntries(Entries(Split(data))), Meaning(lib, origin, data).rrs;
            && |recs| == |rrs|
            && var tok := SerialToken(recs[k].toks);
            tok.Some? && ParseUint32(tok.value.text) == Some(SerialOf(rrs[k]))
  {
    MeaningItems(lib, origin, data);
    RecordItemsFrom(FileItems(data));
    ResolveShape(lib, Start(origin), FileItems(data));
    var s, o := RecordEntry(data, k);
    var toks := RecordEntries(Entries(Split(data)))[k].toks;
    RecordTypeRead(lib, origin, data, toks, k, s, o);
    SerialTokenReads(lib, Start(origin), FileItems(data), s, toks);
  }

  /** A readable, orderly text opens if the token located in its last SOA reads as the SOA's serial. */
  lemma FileOpens(lib: Lib, origin: string, data: string, k: nat) returns (f: File)
    requires ValidLib(lib) && Meaning(lib, origin, data).ok && Orderly(FileItems(data), false)
    requires LastSoa(Meaning(lib, origin, data).rrs) == Some(k)
    requires var recs, rrs := RecordEntries(Entries(Split(data))), Meaning(lib, origin, data).rrs;
             && |recs| == |rrs| && SerialToken(recs[k].toks).Some?
             && ParseUint32(SerialToken(recs[k].toks).value.text) == Some(SerialOf(rrs[k]))
    ensures Opened(lib, origin, data, f) && f.soa == Some(k)
    ensures SoaSerial(f) == SerialOf(Meaning(lib, origin, data).rrs[k])
  {
    RefusalOrderly(data);
    f := Parsed(lib, Split(data), Meaning(lib, origin, data)).value;
  }

  /** A readable, orderly text whose last SOA is spelled plainly opens for in-place editing. */
  lemma PlainFileOpens(lib: Lib, origin: string, data: string) returns (f: File)
    requires ValidLib(lib) && Meaning(lib, origin, data).ok && Orderly(FileItems(data), false)
    requires var k := LastSoa(Meaning(lib, origin, data).rrs);
             && k.Some? && k.value < |RecordItems(FileItems(data))|
             && SoaSpelled(lib, RecordItems(FileItems(data))[k.value])
    ensures Opened(lib, origin, data, f) && SoaPlain(lib, data, f)
    ensures SoaSerial(f) == SerialOf(Meaning(lib, origin, data).rrs[LastSoa(Meaning(lib, origin, data).rrs).value])
  {
    var k := LastSoa(Meaning(lib, origin, data).rrs).value;
    SerialTokenFound(lib, origin, data, k);
    f := FileOpens(lib, origin, data, k);
  }

  lemma OpenedOrderly(lib: Lib, origin: string, data: string, f: File)
    requires Opened(lib, origin, data, f)
    ensures Meaning(lib, origin, data).ok && Orderly(FileItems(data), false)
  {
    OpenedRecords(lib, origin, data, f);
    RefusalOrderly(data);
  }

  // ----- Order and spelling survive surgery -----

  lemma {:induction false} OrderlyWeaker(items: seq<Item>, seen: bool)
    requires Orderly(items, seen)
    ensures Orderly(items, false)
    decreases |items|
  {
    if items != [] && !items[0].kind.Record? {
      OrderlyWeaker(items[1..], seen);
    }
  }

  lemma {:induction false} OrderlyKept(items: seq<Item>, dead: set<nat>, n: nat, seen: bool, seen': bool)
    requires Orderly(items, seen) && (seen' ==> seen)
    ensures Orderly(KeepItems(items, dead, n), seen')
    decreases |items|
  {
    if items != [] {
      if items[0].kind.Record? {
        if n in dead {
          OrderlyKept(items[1..], dead, n + 1, true, seen');
          assert KeepItems(items, dead, n) == KeepItems(items[1..], dead, n + 1);
        } else {
          OrderlyKept(items[1..], dead, n + 1, true, true);
          assert KeepItems(items, dead, n)[1..] == KeepItems(items[1..], dead, n + 1);
        }
      } else {
        OrderlyKept(items[1..], dead, n, seen, seen');
        assert KeepItems(items, dead, n)[1..] == KeepItems(items[1..], dead, n);
      }
    }
  }

  lemma {:induction false} OrderlyConcat(a: seq<Item>, b: seq<Item>, seen: bool)
    requires Orderly(a, seen)
    requires forall i :: 0 <= i < |b| ==> !b[i].kind.Directive?
    ensures Orderly(a + b, seen)
    decreases |a| + |b|
  {
    if a != [] {
      assert (a + b)[1..] == a[1..] + b && (a + b)[0] == a[0];
      OrderlyConcat(a[1..], b, seen || a[0].kind.Record?);
    } else if b != [] {
      assert a + b == b;
      assert [] + b[1..] == b[1..];
      OrderlyConcat([], b[1..], seen || b[0].kind.Record?);
    }
  }

  lemma {:induction false} OrderlyUpdate(items: seq<Item>, s: nat, it: Item, seen: bool)
    requires s < |items| && items[s].kind == it.kind && Orderly(items, seen)
    ensures Orderly(items[s := it], seen)
    decreases |items|
  {
    if s == 0 {
      assert items[s := it][1..] == items[1..];
    } else {
      assert items[s := it][1..] == items[1..][s - 1 := it];
      OrderlyUpdate(items[1..], s - 1, it, seen || items[0].kind.Record?);
    }
  }

  // ----- Records of the output -----

  lemma {:induction false} RecordItemsConcat(a: seq<Item>, b: seq<Item>)
    ensures RecordItems(a + b) == RecordItems(a) + RecordItems(b)
    decreases |a|
  {
    if a == [] {
      assert a + b == b;
    } else {
      assert (a + b)[0] == a[0] && (a + b)[1..] == a[1..] + b;
      RecordItemsConcat(a[1..], b);
      Assoc(if a[0].kind.Record? then [a[0]] else [], RecordItems(a[1..]), RecordItems(b));
    }
  }

  lemma {:induction false} RecordItemsKept(items: seq<Item>, dead: set<nat>, n: nat)
    ensures RecordItems(KeepItems(items, dead, n)) == Keep(RecordItems(items), dead, n)
    decreases |items|
  {
    if items != [] {
      var rest := items[1..];
      if items[0].kind.Record? {
        RecordItemsKept(rest, dead, n + 1);
        assert RecordItems(items)[1..] == RecordItems(rest);
        RecordItemsConcat(if n in dead then [] else [items[0]], KeepItems(rest, dead, n + 1));
      } else {
        RecordItemsKept(rest, dead, n);
        assert [items[0]][1..] == [] && RecordItems([items[0]]) == [];
        assert RecordItems(items) == RecordItems(rest);
        RecordItemsConcat([items[0]], KeepItems(rest, dead, n));
      }
    }
  }

  lemma {:induction false} RecordItemsUpdate(items: seq<Item>, s: nat, it: Item)
    requires s < |items| && items[s].kind.Record? && it.kind.Record?
    ensures var r := CountRecords(items[..s]);
            r < |RecordItems(items)| && RecordItems(items[s := it]) == RecordItems(items)[r := it]
    decreases |items|
  {
    if s == 0 {
      assert items[..0] == [];
      assert items[0 := it][1..] == items[1..];
    } else {
      RecordItemsUpdate(items[1..], s - 1, it);
      assert items[..s][1..] == items[1..][..s - 1];
      assert items[s := it][1..] == items[1..][s - 1 := it];
    }
  }

  lemma {:induction false} RecordItemsAll(items: seq<Item>)
    requires forall i :: 0 <= i < |items| ==> items[i].kind.Record?
    ensures RecordItems(items) == items
    decreases |items|
  {
    if items != [] {
      RecordItemsAll(items[1..]);
    }
  }

  /** Where element `k` survives, alike in two lists cut the same way; only later elements follow it. */
  lemma {:induction false} KeepAt<S, T>(s: seq<S>, t: seq<T>, dead: set<nat>, n: nat, k: nat) returns (p: nat)
    requires |s| == |t| && k < |s| && n + k !in dead
    ensures |Keep(s, dead, n)| == |Keep(t, dead, n)|
    ensures p < |Keep(s, dead, n)| && Keep(s, dead, n)[p] == s[k] && Keep(t, dead, n)[p] == t[k]
    ensures forall q :: p < q < |Keep(s, dead, n)| ==> Keep(s, dead, n)[q] in s[k + 1..]
    ensures forall q :: 0 <= q < p ==> Keep(s, dead, n)[q] in s[..k]
    decreases |s|
  {
    var s', t' := s[1..], t[1..];
    KeepSame(s', t', dead, n + 1);
    if k == 0 {
      p := 0;
      KeepFrom(s', dead, n + 1);
    } else {
      var p' := KeepAt(s', t', dead, n + 1, k - 1);
      p := if n in dead then p' else p' + 1;
      assert s'[k..] == s[k + 1..];
      assert s[..k] == [s[0]] + s'[..k - 1];
    }
  }

  lemma {:induction false} KeepSame<S, T>(s: seq<S>, t: seq<T>, dead: set<nat>, n: nat)
    requires |s| == |t|
    ensures |Keep(s, dead, n)| == |Keep(t, dead, n)|
    decreases |s|
  {
    if s != [] {
      KeepSame(s[1..], t[1..], dead, n + 1);
    }
  }

  lemma {:induction false} KeepFrom<T>(s: seq<T>, dead: set<nat>, n: nat)
    ensures forall x :: x in Keep(s, dead, n) ==> x in s
    decreases |s|
  {
    if s != [] {
      KeepFrom(s[1..], dead, n + 1);
    }
  }

  /** The entries of the output, whichever side of the trailing blank line the additions went. */
  ghost predicate Appended(items: seq<Item>, adds: seq<Item>, out: seq<Item>) {
    out == items + adds || out == AppendItems(items, adds)
  }

  lemma AppendedSplit(items: seq<Item>, adds: seq<Item>, out: seq<Item>) returns (front: seq<Item>, tail: seq<Item>)
    requires Appended(items, adds, out)
    ensures items == front + tail && out == front + adds + tail
    ensures tail == [] || tail == [ChunkItem([""])]
  {
    if out == items + adds {
      front, tail := items, [];
    } else {
      front, tail := items[..|items| - 1], [ChunkItem([""])];
    }
  }

  lemma BlankIsBlank()
    ensures ChunkItem([""]).kind == BlankLine
  {
    assert Toks("", 0) == [];
  }

  lemma AppendedRecords(items: seq<Item>, adds: seq<Item>, out: seq<Item>)
    requires Appended(items, adds, out)
    requires forall i :: 0 <= i < |adds| ==> adds[i].kind.Record?
    ensures RecordItems(out) == RecordItems(items) + adds
  {
    var front, tail := AppendedSplit(items, adds, out);
    BlankIsBlank();
    assert RecordItems(tail) == [];
    RecordItemsAll(adds);
    RecordsInserted(front, adds, tail);
  }

  lemma RecordsInserted(front: seq<Item>, adds: seq<Item>, tail: seq<Item>)
    requires RecordItems(tail) == [] && RecordItems(adds) == adds
    ensures RecordItems(front + adds + tail) == RecordItems(front + tail) + adds
  {
    RecordItemsConcat(front, tail);
    RecordItemsConcat(front, adds);
    RecordItemsConcat(front + adds, tail);
  }

  lemma AppendedOrderly(items: seq<Item>, adds: seq<Item>, out: seq<Item>)
    requires Appended(items, adds, out) && Orderly(items, false)
    requires forall i :: 0 <= i < |adds| ==> adds[i].kind.Record?
    ensures Orderly(out, false)
  {
    var front, tail := AppendedSplit(items, adds, out);
    BlankIsBlank();
    OrderlyPrefix(front, tail, false);
    assert out == front + (adds + tail);
    OrderlyConcat(front, adds + tail, false);
  }

  lemma {:induction false} OrderlyPrefix(a: seq<Item>, b: seq<Item>, seen: bool)
    requires Orderly(a + b, seen)
    ensures Orderly(a, seen)
    decreases |a|
  {
    if a != [] {
      assert (a + b)[1..] == a[1..] + b && (a + b)[0] == a[0];
      OrderlyPrefix(a[1..], b, seen || a[0].kind.Record?);
    }
  }

  // ----- Closure -----

  predicate AddsNoSoa(ops: seq<Op>) {
    LastSoa(AddedRrs(ops)).None?
  }

  lemma LastSoaIs(rrs: seq<Rr>, p: nat)
    requires p < |rrs| && rrs[p].rtype == SOA
    requires forall q :: p < q < |rrs| ==> rrs[q].rtype != SOA
    ensures LastSoa(rrs) == Some(p)
  {
  }

  lemma LastSoaAppended(a: seq<Rr>, b: seq<Rr>)
    ensures LastSoa(b).Some? ==> LastSoa(a + b) == Some(|a| + LastSoa(b).value)
    ensures LastSoa(b).None? ==> LastSoa(a + b) == LastSoa(a)
  {
    var k := LastSoa(b);
    if k.Some? {
      assert (a + b)[|a| + k.value] == b[k.value];
      forall q | |a| + k.value < q < |a + b| ensures (a + b)[q].rtype != SOA {
        assert (a + b)[q] == b[q - |a|];
      }
      LastSoaIs(a + b, |a| + k.value);
    } else {
      var m := LastSoa(a + b);
      forall q | |a| <= q < |a + b| ensures (a + b)[q].rtype != SOA {
        assert (a + b)[q] == b[q - |a|];
      }
      if m.Some? {
        assert a[m.value] == (a + b)[m.value];
        assert forall q :: m.value < q < |a| ==> a[q] == (a + b)[q];
        LastSoaIs(a, m.value);
      } else {
        assert forall q :: 0 <= q < |a| ==> a[q] == (a + b)[q];
      }
    }
  }

  lemma AddedSoaSpelled(lib: Lib, rr: Rr)
    requires ValidLib(lib) && Printable(lib, rr)
    ensures var it := Item(Record, true, Fields(lib, rr), 0);
            && TypeSpelled(lib, it) && StatesItsTtl(lib, it)
            && (rr.rtype == SOA ==> SoaSpelled(lib, it))
  {
    PrintResolves(lib, rr, Ctx("", "", Unset));
    var u := Upper(rr.name);
    assert u[|u| - 1] == '.';
    assert Upper("SOA") == "SOA";
  }

  lemma ReserialSpelled(lib: Lib, it: Item, serial: nat)
    requires it.kind.Record? && HeadOf(lib, it).Some? && HeadOf(lib, it).value.at + 3 < |it.texts|
    ensures var it' := Reserialed(it, HeadOf(lib, it).value.at + 3, serial);
            SoaSpelled(lib, it') == SoaSpelled(lib, it) && TypeSpelled(lib, it') == TypeSpelled(lib, it)
  {
    ReserialHeader(lib, it, serial);
  }

  /** The survivors and additions, seen as records and as entries, and the SOA that `Parse` will pick. */
  lemma OutputSoa(lib: Lib, rrs: seq<Rr>, ri: seq<Item>, k: nat, dead: set<nat>, adds: seq<Rr>, addItems: seq<Item>)
    returns (p: nat)
    requires |rrs| == |ri| && LastSoa(rrs) == Some(k) && k !in dead && SoaSpelled(lib, ri[k])
    requires |adds| == |addItems|
    requires LastSoa(adds).Some? ==> SoaSpelled(lib, addItems[LastSoa(adds).value])
    ensures var rrs', ri' := Keep(rrs, dead, 0) + adds, Keep(ri, dead, 0) + addItems;
            && |rrs'| == |ri'| && p < |rrs'| && LastSoa(rrs') == Some(p) && SoaSpelled(lib, ri'[p])
            && rrs'[p] == if LastSoa(adds).Some? then adds[LastSoa(adds).value] else rrs[k]
  {
    var q := LastSoaKept(rrs, ri, k, dead);
    p := AppendedSoa(lib, Keep(rrs, dead, 0), Keep(ri, dead, 0), q, adds, addItems);
  }

  lemma AppendedSoa(lib: Lib, a: seq<Rr>, ai: seq<Item>, q: nat, b: seq<Rr>, bi: seq<Item>) returns (p: nat)
    requires |a| == |ai| && LastSoa(a) == Some(q) && SoaSpelled(lib, ai[q])
    requires |b| == |bi| && (LastSoa(b).Some? ==> SoaSpelled(lib, bi[LastSoa(b).value]))
    ensures p < |a + b| && LastSoa(a + b) == Some(p) && SoaSpelled(lib, (ai + bi)[p])
    ensures (a + b)[p] == if LastSoa(b).Some? then b[LastSoa(b).value] else a[q]
  {
    LastSoaAppended(a, b);
    if LastSoa(b).Some? {
      p := |a| + LastSoa(b).value;
      assert (ai + bi)[p] == bi[LastSoa(b).value];
    } else {
      p := q;
      assert (ai + bi)[p] == ai[q];
    }
  }

  lemma LastSoaKept<T>(rrs: seq<Rr>, ri: seq<T>, k: nat, dead: set<nat>) returns (q: nat)
    requires |rrs| == |ri| && LastSoa(rrs) == Some(k) && k !in dead
    ensures |Keep(rrs, dead, 0)| == |Keep(ri, dead, 0)|
    ensures q < |Keep(rrs, dead, 0)| && Keep(rrs, dead, 0)[q] == rrs[k] && Keep(ri, dead, 0)[q] == ri[k]
    ensures LastSoa(Keep(rrs, dead, 0)) == Some(q)
  {
    q := KeepAt(rrs, ri, dead, 0, k);
    var kr := Keep(rrs, dead, 0);
    forall j | q < j < |kr| ensures kr[j].rtype != SOA {
      assert kr[j] in rrs[k + 1..];
    }
    LastSoaIs(kr, q);
  }

  /** The output as records. */
  lemma OutputRecords(lib: Lib, origin: string, data: string, f: File, ops: seq<Op>, serial: nat)
    returns (bumped: seq<Rr>)
    requires Editable(lib, origin, data, f, ops, serial) && KeepsTtls(lib, data, f, ops)
    ensures SerialPlaced(f) && f.serialTok.Some? && f.soa.Some? && f.soa.value !in Dead(lib, f, ops)
    ensures var k := f.soa.value;
            && |bumped| == |RecordItems(FileItems(data))| && k < |bumped|
            && LastSoa(bumped) == Some(k) && SerialOf(bumped[k]) == serial
    ensures Meaning(lib, origin, Edited(lib, f, ops, serial))
            == Resolved(Keep(bumped, Dead(lib, f, ops), 0) + AddedRrs(ops), true)
  {
    EditPreservesMeaning(lib, origin, data, f, ops, serial);
    var s, c := BumpEntry(lib, origin, data, f, 0);
    OpenedRecords(lib, origin, data, f);
    MeaningItems(lib, origin, data);
    SoaNotDead(lib, f, ops);
    var rrs, k := Meaning(lib, origin, data).rrs, f.soa.value;
    ReserialFile(lib, Start(origin), FileItems(data), s, serial);
    bumped := rrs[k := WithSerial(rrs[k], serial)];
    LastSoaBumped(rrs, k, serial);
  }

  lemma OutputItemsOf(lib: Lib, items: seq<Item>, s: nat, serial: nat, dead: set<nat>, adds: seq<Rr>, out: seq<Item>)
    returns (it: Item)
    requires EditedAs(lib, items, s, serial, dead, AddItems(lib, adds), out)
    requires SoaSpelled(lib, items[s]) && serial < UINT32 && Orderly(items, false)
    ensures SoaSpelled(lib, it) && SameHeader(lib, items[s], it) && TypeSpelled(lib, it) == TypeSpelled(lib, items[s])
    ensures Appended(KeepItems(items[s := it], dead, 0), AddItems(lib, adds), out) && Orderly(out, false)
    ensures var r := CountRecords(items[..s]);
            && r < |RecordItems(items)|
            && RecordItems(out) == Keep(RecordItems(items)[r := it], dead, 0) + AddItems(lib, adds)
  {
    it := Reserialed(items[s], HeadOf(lib, items[s]).value.at + 3, serial);
    ReserialSpelled(lib, items[s], serial);
    ReserialHeader(lib, items[s], serial);
    OutputEntries(lib, items, s, it, dead, adds, out);
  }

  /** The output as entries: the SOA's rewritten with the same header, then `Keep` and additions. */
  lemma OutputItems(lib: Lib, origin: string, data: string, f: File, ops: seq<Op>, serial: nat)
    returns (it: Item, s: nat)
    requires Editable(lib, origin, data, f, ops, serial)
    ensures SerialPlaced(f) && f.serialTok.Some? && f.soa.Some?
    ensures var items, out := FileItems(data), FileItems(Edited(lib, f, ops, serial));
            && SoaSpelled(lib, it)
            && s < |items| && SameHeader(lib, items[s], it) && TypeSpelled(lib, it) == TypeSpelled(lib, items[s])
            && Appended(KeepItems(items[s := it], Dead(lib, f, ops), 0), AddItems(lib, AddedRrs(ops)), out)
            && f.soa.value < |RecordItems(items)|
            && RecordItems(out) == Keep(RecordItems(items)[f.soa.value := it], Dead(lib, f, ops), 0)
               + AddItems(lib, AddedRrs(ops))
            && Orderly(out, false)
  {
    s := EditedEntries(lib, origin, data, f, ops, serial);
    OpenedOrderly(lib, origin, data, f);
    var items, out := FileItems(data), FileItems(Edited(lib, f, ops, serial));
    it := OutputItemsOf(lib, items, s, serial, Dead(lib, f, ops), AddedRrs(ops), out);
  }

  /**
   * Edit closure: the output of an edit opens for in-place editing again, and its serial is
   * exactly the one written - unless an SOA was added, which then is the one that counts.
   */
  lemma EditCloses(lib: Lib, origin: string, data: string, f: File, ops: seq<Op>, serial: nat) returns (g: File)
    requires Editable(lib, origin, data, f, ops, serial) && KeepsTtls(lib, data, f, ops)
    ensures SerialPlaced(f) && f.serialTok.Some?
    ensures var out := Edited(lib, f, ops, serial); Opened(lib, origin, out, g) && SoaPlain(lib, out, g)
    ensures var added := LastSoa(AddedRrs(ops));
            SoaSerial(g) == if added.Some? then SerialOf(AddedRrs(ops)[added.value]) else serial
  {
    var bumped := OutputRecords(lib, origin, data, f, ops, serial);
    var it, s := OutputItems(lib, origin, data, f, ops, serial);
    var adds, k := AddedRrs(ops), f.soa.value;
    if LastSoa(adds).Some? {
      AddedSoaSpelled(lib, adds[LastSoa(adds).value]);
    }
    var ri := RecordItems(FileItems(data))[k := it];
    var p := OutputSoa(lib, bumped, ri, k, Dead(lib, f, ops), adds, AddItems(lib, adds));
    g := PlainFileOpens(lib, origin, Edited(lib, f, ops, serial));
  }

  lemma LastSoaBumped(rrs: seq<Rr>, k: nat, serial: nat)
    requires LastSoa(rrs) == Some(k) && |rrs[k].rdata| > 2 && serial < UINT32
    ensures LastSoa(rrs[k := WithSerial(rrs[k], serial)]) == Some(k)
    ensures SerialOf(WithSerial(rrs[k], serial)) == serial
  {
    LastSoaIs(rrs[k := WithSerial(rrs[k], serial)], k);
    ParseDec(serial);
  }

  lemma OutputEntries(lib: Lib, items: seq<Item>, s: nat, it: Item, dead: set<nat>, adds: seq<Rr>, out: seq<Item>)
    requires s < |items| && items[s].kind.Record? && it.kind.Record? && Orderly(items, false)
    requires Appended(KeepItems(items[s := it], dead, 0), AddItems(lib, adds), out)
    ensures var r := CountRecords(items[..s]);
            && r < |RecordItems(items)|
            && RecordItems(out) == Keep(RecordItems(items)[r := it], dead, 0) + AddItems(lib, adds)
    ensures Orderly(out, false)
  {
    RecordItemsUpdate(items, s, it);
    RecordItemsKept(items[s := it], dead, 0);
    OrderlyUpdate(items, s, it, false);
    OrderlyKept(items[s := it], dead, 0, false, false);
    AppendedRecords(KeepItems(items[s := it], dead, 0), AddItems(lib, adds), out);
    AppendedOrderly(KeepItems(items[s := it], dead, 0), AddItems(lib, adds), out);
  }

  // ----- Benign files stay benign -----

  lemma {:induction false} KeepItemsFrom(items: seq<Item>, dead: set<nat>, n: nat)
    ensures forall it :: it in KeepItems(items, dead, n) ==> it in items
    decreases |items|
  {
    if items != [] {
      KeepItemsFrom(items[1..], dead, if items[0].kind.Record? then n + 1 else n);
    }
  }

  lemma {:induction false} TtlLeadsKept(lib: Lib, items: seq<Item>, dead: set<nat>, n: nat)
    requires TtlLeads(lib, items)
    ensures TtlLeads(lib, KeepItems(items, dead, n))
    decreases |items|
  {
    if items != [] && items[0].kind != Directive(Ttl) {
      var m := if items[0].kind.Record? then n + 1 else n;
      TtlLeadsKept(lib, items[1..], dead, m);
      if items[0].kind.Record? && n in dead {
        assert KeepItems(items, dead, n) == KeepItems(items[1..], dead, m);
      } else {
        assert KeepItems(items, dead, n)[1..] == KeepItems(items[1..], dead, m);
      }
    }
  }

  lemma {:induction false} TtlLeadsUpdate(lib: Lib, items: seq<Item>, s: nat, it: Item)
    requires s < |items| && SameHeader(lib, items[s], it) && TtlLeads(lib, items)
    ensures TtlLeads(lib, items[s := it])
    decreases |items|
  {
    if s == 0 {
      assert items[s := it][1..] == items[1..];
    } else if items[0].kind != Directive(Ttl) {
      assert items[s := it][1..] == items[1..][s - 1 := it];
      TtlLeadsUpdate(lib, items[1..], s - 1, it);
    }
  }

  /** Inserting records that state their TTL anywhere keeps `$TTL` leading. */
  lemma {:induction false} TtlLeadsInsert(lib: Lib, front: seq<Item>, adds: seq<Item>, tail: seq<Item>)
    requires TtlLeads(lib, front + tail)
    requires forall i :: 0 <= i < |adds| ==> StatesItsTtl(lib, adds[i])
    ensures TtlLeads(lib, front + adds + tail)
    decreases |front| + |adds|
  {
    if front != [] {
      if front[0].kind != Directive(Ttl) {
        assert (front + tail)[1..] == front[1..] + tail;
        assert (front + adds + tail)[1..] == front[1..] + adds + tail;
        TtlLeadsInsert(lib, front[1..], adds, tail);
      }
    } else if adds != [] {
      assert front + adds + tail == adds + tail && front + tail == tail;
      assert (adds + tail)[1..] == [] + adds[1..] + tail;
      assert [] + tail == tail;
      TtlLeadsInsert(lib, [], adds[1..], tail);
    } else {
      assert front + adds + tail == front + tail;
    }
  }

  lemma BenignAppended(lib: Lib, items: seq<Item>, adds: seq<Item>, out: seq<Item>)
    requires BenignItems(lib, items) && Appended(items, adds, out)
    requires forall i :: 0 <= i < |adds| ==>
               adds[i].kind.Record? && TypeSpelled(lib, adds[i]) && StatesItsTtl(lib, adds[i])
    ensures BenignItems(lib, out)
  {
    var front, tail := AppendedSplit(items, adds, out);
    assert forall it :: it in out ==> it in items || it in adds;
    if TtlLeads(lib, items) {
      TtlLeadsInsert(lib, front, adds, tail);
    }
  }

  lemma BenignKept(lib: Lib, items: seq<Item>, s: nat, it: Item, dead: set<nat>)
    requires BenignItems(lib, items) && s < |items| && SameHeader(lib, items[s], it)
    requires TypeSpelled(lib, it) == TypeSpelled(lib, items[s])
    ensures BenignItems(lib, KeepItems(items[s := it], dead, 0))
  {
    KeepItemsFrom(items[s := it], dead, 0);
    assert items[s] in items;
    assert forall x :: x in items[s := it] ==> x == it || x in items;
    if TtlLeads(lib, items) {
      TtlLeadsUpdate(lib, items, s, it);
      TtlLeadsKept(lib, items[s := it], dead, 0);
    }
  }

  /** A file that any number of edits may safely be made to. */
  ghost predicate Sound(lib: Lib, origin: string, data: string, f: File) {
    Opened(lib, origin, data, f) && SoaPlain(lib, data, f) && Benign(lib, data)
  }

  /**
   * The inductive step of every editing session: a sound file edited with records that
   * print stays sound, means what was intended, and carries the new serial.
   */
  lemma EditKeepsSound(lib: Lib, origin: string, data: string, f: File, ops: seq<Op>, serial: nat) returns (g: File)
    requires Sound(lib, origin, data, f) && EditAccepts(lib, f, ops)
    requires AllPrintable(lib, AddedRrs(ops)) && AddsNoSoa(ops) && serial < UINT32
    ensures SerialPlaced(f) && f.serialTok.Some?
    ensures Sound(lib, origin, Edited(lib, f, ops, serial), g)
    ensures SoaSerial(g) == serial
    ensures Meaning(lib, origin, Edited(lib, f, ops, serial))
            == Resolved(Intended(lib, origin, data, f, ops, serial), true)
  {
    BenignKeepsTtls(lib, origin, data, f, ops);
    g := EditCloses(lib, origin, data, f, ops, serial);
    EditPreservesMeaning(lib, origin, data, f, ops, serial);
    var it, s := OutputItems(lib, origin, data, f, ops, serial);
    var adds := AddItems(lib, AddedRrs(ops));
    forall i | 0 <= i < |adds|
      ensures adds[i].kind.Record? && TypeSpelled(lib, adds[i]) && StatesItsTtl(lib, adds[i])
    {
      AddedSoaSpelled(lib, AddedRrs(ops)[i]);
    }
    BenignKept(lib, FileItems(data), s, it, Dead(lib, f, ops));
    BenignAppended(lib, KeepItems(FileItems(data)[s := it], Dead(lib, f, ops), 0), adds,
                   FileItems(Edited(lib, f, ops, serial)));
  }
}
