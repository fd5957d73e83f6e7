/** Resolution under surgery: what rewriting the serial, dropping records and appending records mean. */
module Preservation {
  import opened Text
  import opened Tokenizer
  import opened Resolver
  import opened ZoneFile
  import opened Surgery

  // ----- Resolving in two parts -----

  function CtxAfter(lib: Lib, ctx: Ctx, items: seq<Item>): Ctx
    decreases |items|
  {
    if items == [] then ctx
    else if items[0].kind.Record? then CtxAfter(lib, AfterRecord(lib, ctx, items[0]), items[1..])
    else match ReadControl(ctx, items[0])
      case Some(c) => CtxAfter(lib, c, items[1..])
      case None => ctx
  }

  lemma {:induction false} ResolveConcat(lib: Lib, ctx: Ctx, a: seq<Item>, b: seq<Item>)
    ensures var ra := Resolve(lib, ctx, a);
            var rb := Resolve(lib, CtxAfter(lib, ctx, a), b);
            Resolve(lib, ctx, a + b) == if ra.ok then Resolved(ra.rrs + rb.rrs, rb.ok) else ra
    decreases |a|
  {
    if a == [] {
      assert a + b == b;
    } else {
      assert (a + b)[1..] == a[1..] + b && (a + b)[0] == a[0];
      if a[0].kind.Record? {
        ResolveConcat(lib, AfterRecord(lib, ctx, a[0]), a[1..], b);
      } else {
        var c := ReadControl(ctx, a[0]);
        if c.Some? {
          ResolveConcat(lib, c.value, a[1..], b);
        }
      }
    }
  }

  /** A readable file closes its parentheses in every entry and yields one record a record entry. */
  lemma {:induction false} ResolveShape(lib: Lib, ctx: Ctx, items: seq<Item>)
    requires Resolve(lib, ctx, items).ok
    ensures forall i :: 0 <= i < |items| ==> items[i].depth == 0
    ensures |Resolve(lib, ctx, items).rrs| == CountRecords(items)
    decreases |items|
  {
    if items != [] {
      if items[0].kind.Record? {
        ResolveShape(lib, AfterRecord(lib, ctx, items[0]), items[1..]);
      } else {
        ResolveShape(lib, ReadControl(ctx, items[0]).value, items[1..]);
      }
    }
  }

  // ----- The serial -----

  function WithSerial(rr: Rr, serial: nat): Rr
    requires |rr.rdata| > 2
  {
    rr.(rdata := rr.rdata[2 := Dec(serial)])
  }

  function Reserialed(it: Item, idx: nat, serial: nat): Item
    requires idx < |it.texts|
  {
    it.(texts := it.texts[idx := Dec(serial)])
  }

  lemma {:induction false} HeadPrefix(lib: Lib, a: seq<string>, b: seq<string>, i: nat, ttl: Option<nat>, cls: bool)
    requires |a| == |b| && HeadFrom(lib, a, i, ttl, cls).Some?
    requires a[..HeadFrom(lib, a, i, ttl, cls).value.at + 1] == b[..HeadFrom(lib, a, i, ttl, cls).value.at + 1]
    ensures HeadFrom(lib, b, i, ttl, cls) == HeadFrom(lib, a, i, ttl, cls)
    decreases |a| - i
  {
    var at := HeadFrom(lib, a, i, ttl, cls).value.at;
    assert a[i] == a[..at + 1][i] == b[..at + 1][i] == b[i];
    if IsClassWord(a[i]) {
      HeadPrefix(lib, a, b, i + 1, ttl, true);
    } else if TypeOf(lib, a[i]).None? {
      HeadPrefix(lib, a, b, i + 1, TtlOf(a[i]), cls);
    }
  }

  /** Rewriting the third datum of an SOA line changes the record's serial and nothing else. */
  lemma ReserialRecord(lib: Lib, ctx: Ctx, it: Item, serial: nat)
    requires serial < UINT32
    requires HeadOf(lib, it).Some? && HeadOf(lib, it).value.rtype == SOA
    requires ReadRecord(lib, ctx, it).Some?
    ensures var idx := HeadOf(lib, it).value.at + 3;
            && idx < |it.texts|
            && |ReadRecord(lib, ctx, it).value.rdata| > 2
            && SerialOf(ReadRecord(lib, ctx, it).value) == ParseUint32(it.texts[idx]).value
            && ParseUint32(it.texts[idx]).Some?
            && ReadRecord(lib, ctx, Reserialed(it, idx, serial))
               == Some(WithSerial(ReadRecord(lib, ctx, it).value, serial))
            && HeadOf(lib, Reserialed(it, idx, serial)) == HeadOf(lib, it)
            && AfterRecord(lib, ctx, Reserialed(it, idx, serial)) == AfterRecord(lib, ctx, it)
  {
    var h := HeadOf(lib, it).value;
    var data := it.texts[h.at + 1..];
    var idx := h.at + 3;
    assert it.texts[idx] == data[2];
    var it' := Reserialed(it, idx, serial);
    var data' := it'.texts[h.at + 1..];
    assert it'.texts[..h.at + 1] == it.texts[..h.at + 1];
    HeadPrefix(lib, it.texts, it'.texts, if it.explicit then 1 else 0, None, false);
    assert data'[..2] + data'[3..] == data[..2] + data[3..];
    ParseDec(serial);
    ParseDec(ParseUint32(data[2]).value);
    var d := lib.read(SOA, data[..2] + data[3..], ctx.scope).value;
    assert data'[2] == Dec(serial);
    assert d[..2] + [Dec(serial)] + d[2..] == (d[..2] + [Dec(ParseUint32(data[2]).value)] + d[2..])[2 := Dec(serial)];
  }

  /** The context after one entry that reads. */
  function NextCtx(lib: Lib, ctx: Ctx, it: Item): Ctx {
    if it.kind.Record? then AfterRecord(lib, ctx, it)
    else match ReadControl(ctx, it)
      case Some(c) => c
      case None => ctx
  }

  /** What one entry adds to the records read. */
  function HeadRrs(lib: Lib, ctx: Ctx, it: Item): seq<Rr> {
    if !it.kind.Record? then []
    else match ReadRecord(lib, ctx, it)
      case Some(rr) => [rr]
      case None => []
  }

  lemma CountTail(items: seq<Item>, s: nat)
    requires 0 < s <= |items|
    ensures CountRecords(items[..s]) == CountRecords(items[1..][..s - 1]) + (if items[0].kind.Record? then 1 else 0)
  {
    assert items[..s][1..] == items[1..][..s - 1];
  }

  lemma ResolveTail(lib: Lib, ctx: Ctx, items: seq<Item>)
    requires items != [] && Resolve(lib, ctx, items).ok
    ensures Resolve(lib, NextCtx(lib, ctx, items[0]), items[1..]).ok
    ensures Resolve(lib, ctx, items).rrs
            == HeadRrs(lib, ctx, items[0]) + Resolve(lib, NextCtx(lib, ctx, items[0]), items[1..]).rrs
    ensures |HeadRrs(lib, ctx, items[0])| == if items[0].kind.Record? then 1 else 0
  {
  }

  /** A file with the same first entry reads that entry the same way. */
  lemma ResolveCons(lib: Lib, ctx: Ctx, items: seq<Item>, items': seq<Item>)
    requires items != [] && items' != [] && items'[0] == items[0] && Resolve(lib, ctx, items).ok
    requires Resolve(lib, NextCtx(lib, ctx, items[0]), items'[1..]).ok
    ensures Resolve(lib, ctx, items')
            == Resolved(HeadRrs(lib, ctx, items[0]) + Resolve(lib, NextCtx(lib, ctx, items[0]), items'[1..]).rrs, true)
  {
  }

  /** Record `r` of a reading is an SOA with the serial in `text`, and `out` is the reading with the new serial. */
  ghost predicate Reserials(rrs: seq<Rr>, r: nat, text: string, serial: nat, out: Resolved) {
    && r < |rrs| && |rrs[r].rdata| > 2 && rrs[r].rtype == SOA
    && ParseUint32(text) == Some(SerialOf(rrs[r]))
    && out == Resolved(rrs[r := WithSerial(rrs[r], serial)], true)
  }

  lemma ReserialsBehind(head: seq<Rr>, rrs: seq<Rr>, r: nat, text: string, serial: nat, out: Resolved)
    requires Reserials(rrs, r, text, serial, out)
    ensures Reserials(head + rrs, |head| + r, text, serial, Resolved(head + out.rrs, true))
  {
  }

  ghost predicate ReserialHolds(lib: Lib, ctx: Ctx, items: seq<Item>, s: nat, serial: nat)
    requires s < |items| && HeadOf(lib, items[s]).Some?
  {
    var idx := HeadOf(lib, items[s]).value.at + 3;
    && idx < |items[s].texts|
    && Reserials(Resolve(lib, ctx, items).rrs, CountRecords(items[..s]), items[s].texts[idx], serial,
                 Resolve(lib, ctx, items[s := Reserialed(items[s], idx, serial)]))
  }

  lemma ReserialFirst(lib: Lib, ctx: Ctx, items: seq<Item>, serial: nat)
    requires items != [] && items[0].kind.Record? && serial < UINT32
    requires HeadOf(lib, items[0]).Some? && HeadOf(lib, items[0]).value.rtype == SOA
    requires Resolve(lib, ctx, items).ok
    ensures ReserialHolds(lib, ctx, items, 0, serial)
  {
    ReserialRecord(lib, ctx, items[0], serial);
    assert items[..0] == [];
    var idx := HeadOf(lib, items[0]).value.at + 3;
    assert items[0 := Reserialed(items[0], idx, serial)][1..] == items[1..];
  }

  lemma ReserialLater(lib: Lib, ctx: Ctx, items: seq<Item>, s: nat, serial: nat)
    requires 0 < s < |items| && HeadOf(lib, items[s]).Some? && Resolve(lib, ctx, items).ok
    requires ReserialHolds(lib, NextCtx(lib, ctx, items[0]), items[1..], s - 1, serial)
    ensures ReserialHolds(lib, ctx, items, s, serial)
  {
    var rest, ctx' := items[1..], NextCtx(lib, ctx, items[0]);
    CountTail(items, s);
    ResolveTail(lib, ctx, items);
    var idx := HeadOf(lib, items[s]).value.at + 3;
    var it := Reserialed(items[s], idx, serial);
    assert items[s := it][1..] == rest[s - 1 := it];
    ReserialsBehind(HeadRrs(lib, ctx, items[0]), Resolve(lib, ctx', rest).rrs, CountRecords(rest[..s - 1]),
                    items[s].texts[idx], serial, Resolve(lib, ctx', rest[s - 1 := it]));
    ResolveCons(lib, ctx, items, items[s := it]);
  }

  lemma {:induction false} ReserialFile(lib: Lib, ctx: Ctx, items: seq<Item>, s: nat, serial: nat)
    requires s < |items| && items[s].kind.Record? && serial < UINT32
    requires HeadOf(lib, items[s]).Some? && HeadOf(lib, items[s]).value.rtype == SOA
    requires Resolve(lib, ctx, items).ok
    ensures ReserialHolds(lib, ctx, items, s, serial)
    decreases |items|
  {
    if s == 0 {
      ReserialFirst(lib, ctx, items, serial);
    } else {
      ResolveTail(lib, ctx, items);
      ReserialFile(lib, NextCtx(lib, ctx, items[0]), items[1..], s - 1, serial);
      ReserialLater(lib, ctx, items, s, serial);
    }
  }

  // ----- Dropping records: owners -----

  function RecordItems(items: seq<Item>): seq<Item>
    decreases |items|
  {
    if items == [] then [] else (if items[0].kind.Record? then [items[0]] else []) + RecordItems(items[1..])
  }

  /** The next record, if any, names its owner. */
  predicate NextExplicit(items: seq<Item>) {
    RecordItems(items) != [] ==> RecordItems(items)[0].explicit
  }

  /** No surviving record takes its owner from a dead one: what `canDelete` checks. */
  predicate OwnersSafe(items: seq<Item>, dead: set<nat>, n: nat)
    decreases |items|
  {
    items != [] ==>
      if items[0].kind.Record? then
        (n in dead ==> NextExplicit(items[1..])) && OwnersSafe(items[1..], dead, n + 1)
      else OwnersSafe(items[1..], dead, n)
  }

  // ----- Dropping records: TTLs -----

  /**
   * No surviving record loses the TTL it relies on. `full` and `kept` are the TTL in force
   * above the first entry with and without the dead records: the last `$TTL`, or failing
   * that the last TTL stated by a record. A record that states no TTL must see the same.
   */
  predicate TtlsSafe(lib: Lib, full: Default, kept: Default, items: seq<Item>, dead: set<nat>, n: nat)
    decreases |items|
  {
    items != [] ==>
      if items[0].kind.Record? then
        match HeadOf(lib, items[0])
        case None => true
        case Some(h) =>
          if n in dead then TtlsSafe(lib, DefaultAfter(full, h), kept, items[1..], dead, n + 1)
          else
            && TtlIn(full, h, items[0].explicit) == TtlIn(kept, h, items[0].explicit)
            && TtlsSafe(lib, DefaultAfter(full, h), DefaultAfter(kept, h), items[1..], dead, n + 1)
      else
        match ReadControl(Ctx("", "", full), items[0])
        case None => true
        case Some(c) =>
          TtlsSafe(lib, c.ttl, if items[0].kind == Directive(Ttl) then c.ttl else kept, items[1..], dead, n)
  }

  predicate SameDirected(a: Default, b: Default) {
    a.Directed? || b.Directed? ==> a == b
  }

  /**
   * Dropping the dead records resolves to the surviving records, unchanged and in order,
   * exactly when no survivor loses its TTL.
   */
  lemma {:induction false} ResolveKept(lib: Lib, ctx: Ctx, ctx': Ctx, items: seq<Item>, dead: set<nat>, n: nat)
    requires Resolve(lib, ctx, items).ok
    requires ctx.scope == ctx'.scope && SameDirected(ctx.ttl, ctx'.ttl)
    requires ctx.owner == ctx'.owner || NextExplicit(items)
    requires OwnersSafe(items, dead, n)
    ensures Resolve(lib, ctx', KeepItems(items, dead, n)) == Resolved(Keep(Resolve(lib, ctx, items).rrs, dead, n), true)
            <==> TtlsSafe(lib, ctx.ttl, ctx'.ttl, items, dead, n)
    decreases |items|
  {
    if items != [] {
      var it, rest := items[0], items[1..];
      var rrs := Resolve(lib, ctx, items).rrs;
      if !it.kind.Record? {
        var c, c' := ReadControl(ctx, it).value, ReadControl(ctx', it).value;
        assert KeepItems(items, dead, n) == [it] + KeepItems(rest, dead, n);
        assert ([it] + KeepItems(rest, dead, n))[1..] == KeepItems(rest, dead, n);
        assert RecordItems(items) == RecordItems(rest);
        ResolveKept(lib, c, c', rest, dead, n);
      } else {
        var rr := ReadRecord(lib, ctx, it).value;
        var next := AfterRecord(lib, ctx, it);
        assert rrs == [rr] + Resolve(lib, next, rest).rrs;
        assert rrs[1..] == Resolve(lib, next, rest).rrs;
        if n in dead {
          assert KeepItems(items, dead, n) == KeepItems(rest, dead, n + 1);
          assert Keep(rrs, dead, n) == Keep(rrs[1..], dead, n + 1);
          ResolveKept(lib, next, ctx', rest, dead, n + 1);
        } else {
          KeptRecord(lib, ctx, ctx', items, dead, n);
          ResolveKept(lib, next, AfterRecord(lib, ctx', it), rest, dead, n + 1);
        }
      }
    }
  }

  lemma KeptRecord(lib: Lib, ctx: Ctx, ctx': Ctx, items: seq<Item>, dead: set<nat>, n: nat)
    requires items != [] && items[0].kind.Record? && n !in dead
    requires Resolve(lib, ctx, items).ok
    requires ctx.scope == ctx'.scope && SameDirected(ctx.ttl, ctx'.ttl)
    requires ctx.owner == ctx'.owner || NextExplicit(items)
    ensures var it := items[0];
            var next, next' := AfterRecord(lib, ctx, it), AfterRecord(lib, ctx', it);
            var h := HeadOf(lib, it).value;
            && HeadOf(lib, it).Some?
            && next.scope == next'.scope && next.owner == next'.owner && SameDirected(next.ttl, next'.ttl)
            && ((Resolve(lib, ctx', KeepItems(items, dead, n))
                 == Resolved(Keep(Resolve(lib, ctx, items).rrs, dead, n), true))
                <==> (&& TtlIn(ctx.ttl, h, it.explicit) == TtlIn(ctx'.ttl, h, it.explicit)
                      && Resolve(lib, next', KeepItems(items[1..], dead, n + 1))
                         == Resolved(Keep(Resolve(lib, next, items[1..]).rrs, dead, n + 1), true)))
  {
    var it, rest := items[0], items[1..];
    var h := HeadOf(lib, it).value;
    var next, next' := AfterRecord(lib, ctx, it), AfterRecord(lib, ctx', it);
    assert RecordItems(items)[0] == it;
    assert OwnerIn(ctx, it) == OwnerIn(ctx', it) by {
      if it.explicit && it.texts == [] {
        assert false;
      }
    }
    var rr := ReadRecord(lib, ctx, it).value;
    var kept := KeepItems(rest, dead, n + 1);
    assert KeepItems(items, dead, n) == [it] + kept;
    assert ([it] + kept)[1..] == kept;
    var rrs, tail := Resolve(lib, ctx, items).rrs, Resolve(lib, next, rest).rrs;
    assert rrs == [rr] + tail && rrs[1..] == tail;
    assert Keep(rrs, dead, n) == [rr] + Keep(tail, dead, n + 1);
    var out := Resolve(lib, ctx', KeepItems(items, dead, n));
    if TtlIn(ctx.ttl, h, it.explicit) == TtlIn(ctx'.ttl, h, it.explicit) {
      assert ReadRecord(lib, ctx', it) == Some(rr);
      var r' := Resolve(lib, next', kept);
      assert out == Resolved([rr] + r'.rrs, r'.ok);
      if out == Resolved(Keep(rrs, dead, n), true) {
        assert r'.rrs == ([rr] + r'.rrs)[1..] == ([rr] + Keep(tail, dead, n + 1))[1..] == Keep(tail, dead, n + 1);
      }
    } else if ReadRecord(lib, ctx', it).Some? {
      assert ReadRecord(lib, ctx', it).value.ttl != rr.ttl;
      assert out.rrs[0] != rr;
    }
  }

  // ----- What `canDelete` guarantees -----

  /** The record after record `j`, when it is one of `ri`, names its owner. */
  predicate OwnerAfter(ri: seq<Item>, n: nat, j: nat) {
    n <= j && j + 1 - n < |ri| ==> ri[j + 1 - n].explicit
  }

  lemma {:induction false} OwnersSafeFrom(items: seq<Item>, dead: set<nat>, n: nat)
    requires forall j :: j in dead ==> OwnerAfter(RecordItems(items), n, j)
    ensures OwnersSafe(items, dead, n)
    decreases |items|
  {
    if items != [] {
      var ri, ri' := RecordItems(items), RecordItems(items[1..]);
      if items[0].kind.Record? {
        assert ri == [items[0]] + ri';
        forall j | j in dead
          ensures OwnerAfter(ri', n + 1, j)
          ensures j == n ==> NextExplicit(items[1..])
        {
          assert OwnerAfter(ri, n, j);
          assert n <= j && j + 1 - n < |ri| ==> ri[j + 1 - n] == ri'[j - n];
        }
        OwnersSafeFrom(items[1..], dead, n + 1);
      } else {
        assert ri == ri';
        OwnersSafeFrom(items[1..], dead, n);
      }
    }
  }

  predicate StatesItsTtl(lib: Lib, it: Item) {
    HeadOf(lib, it).Some? && HeadOf(lib, it).value.ttl.Some?
  }

  predicate TtlAfter(lib: Lib, ri: seq<Item>, n: nat, j: nat) {
    n <= j && j + 1 - n < |ri| ==> StatesItsTtl(lib, ri[j + 1 - n])
  }

  /** Whenever record `j` is dead, the record after it states its TTL; `ri` starts with record `n`. */
  ghost predicate AllLed(lib: Lib, ri: seq<Item>, n: nat, dead: set<nat>) {
    forall j :: j in dead ==> TtlAfter(lib, ri, n, j)
  }

  lemma AllLedTail(lib: Lib, ri: seq<Item>, n: nat, dead: set<nat>)
    requires ri != [] && AllLed(lib, ri, n, dead)
    ensures AllLed(lib, ri[1..], n + 1, dead)
    ensures n in dead && |ri| > 1 ==> StatesItsTtl(lib, ri[1..][0])
  {
    forall j | j in dead ensures TtlAfter(lib, ri[1..], n + 1, j) {
      assert TtlAfter(lib, ri, n, j);
    }
    if n in dead {
      assert TtlAfter(lib, ri, n, n);
    }
  }

  /** Without `$TTL`: dropping records each followed by a stated TTL strands no TTL. */
  lemma {:induction false} TtlsSafeAlone(lib: Lib, full: Default, kept: Default, items: seq<Item>, dead: set<nat>,
                                         n: nat)
    requires forall i :: 0 <= i < |items| ==> items[i].kind != Directive(Ttl)
    requires !full.Directed? && !kept.Directed?
    requires full == kept || (RecordItems(items) != [] ==> StatesItsTtl(lib, RecordItems(items)[0]))
    requires AllLed(lib, RecordItems(items), n, dead)
    ensures TtlsSafe(lib, full, kept, items, dead, n)
    decreases |items|
  {
    if items != [] {
      var rest := items[1..];
      var ri, ri' := RecordItems(items), RecordItems(rest);
      if items[0].kind.Record? {
        assert ri == [items[0]] + ri';
        assert ri[1..] == ri';
        AllLedTail(lib, ri, n, dead);
        var h := HeadOf(lib, items[0]);
        if h.Some? {
          var kept' := if n in dead then kept else DefaultAfter(kept, h.value);
          TtlsSafeAlone(lib, DefaultAfter(full, h.value), kept', rest, dead, n + 1);
        }
      } else {
        assert ri == ri';
        var c := ReadControl(Ctx("", "", full), items[0]);
        if c.Some? {
          TtlsSafeAlone(lib, c.value.ttl, kept, rest, dead, n);
        }
      }
    }
  }

  /** Every record above the first `$TTL` states its own TTL. */
  predicate TtlLeads(lib: Lib, items: seq<Item>)
    decreases |items|
  {
    items != [] && items[0].kind != Directive(Ttl) ==>
      (items[0].kind.Record? ==> StatesItsTtl(lib, items[0])) && TtlLeads(lib, items[1..])
  }

  /** With a leading `$TTL`: no deletion strands a TTL. */
  lemma {:induction false} TtlsSafeLed(lib: Lib, full: Default, kept: Default, items: seq<Item>, dead: set<nat>, n: nat)
    requires SameDirected(full, kept)
    requires full.Directed? || TtlLeads(lib, items)
    ensures TtlsSafe(lib, full, kept, items, dead, n)
    decreases |items|
  {
    if items != [] {
      var rest := items[1..];
      if items[0].kind.Record? {
        var h := HeadOf(lib, items[0]);
        if h.Some? {
          var kept' := if n in dead then kept else DefaultAfter(kept, h.value);
          TtlsSafeLed(lib, DefaultAfter(full, h.value), kept', rest, dead, n + 1);
        }
      } else {
        var c := ReadControl(Ctx("", "", full), items[0]);
        if c.Some? {
          TtlsSafeLed(lib, c.value.ttl, if items[0].kind == Directive(Ttl) then c.value.ttl else kept, rest, dead, n);
        }
      }
    }
  }

  /** A record's type is written with its mnemonic, not as TYPE123. */
  predicate TypeSpelled(lib: Lib, it: Item) {
    HeadOf(lib, it).Some? ==>
      EqualFold(it.texts[HeadOf(lib, it).value.at], TypeName(lib, HeadOf(lib, it).value.rtype))
  }

  lemma GenericClassIsNoTtl(s: string)
    requires IsGeneric("CLASS", s)
    ensures !LooksLikeTtl(s)
  {
    assert Upper(s[..5])[0] == 'C';
    assert UpperChar(s[0]) == 'C';
    assert !IsDigit(s[0]) && Unit(s[0]) == 0;
  }

  lemma {:induction false} StatesTtlSound(lib: Lib, texts: seq<string>, i: nat, ttl: Option<nat>, cls: bool)
    requires HeadFrom(lib, texts, i, ttl, cls).Some?
    requires var h := HeadFrom(lib, texts, i, ttl, cls).value;
             EqualFold(texts[h.at], TypeName(lib, h.rtype)) && StatesTtl(texts, i, TypeName(lib, h.rtype))
    ensures HeadFrom(lib, texts, i, ttl, cls).value.ttl.Some?
    decreases |texts| - i
  {
    if IsClassWord(texts[i]) {
      if !IsClass(texts[i]) {
        GenericClassIsNoTtl(texts[i]);
      }
      StatesTtlSound(lib, texts, i + 1, ttl, true);
    } else if TypeOf(lib, texts[i]).None? {
      HeadKeepsTtl(lib, texts, i + 1, TtlOf(texts[i]), cls);
    }
  }

  lemma {:induction false} HeadKeepsTtl(lib: Lib, texts: seq<string>, i: nat, ttl: Option<nat>, cls: bool)
    requires HeadFrom(lib, texts, i, ttl, cls).Some? && ttl.Some?
    ensures HeadFrom(lib, texts, i, ttl, cls).value.ttl.Some?
    decreases |texts| - i
  {
    if IsClassWord(texts[i]) {
      HeadKeepsTtl(lib, texts, i + 1, ttl, true);
    }
  }

  /** With a spelled-out type, `hasExplicitTTL` only answers yes when a TTL is stated. */
  lemma ExplicitTtlSound(lib: Lib, e: Entry)
    requires HeadOf(lib, ItemOf(e)).Some? && TypeSpelled(lib, ItemOf(e))
    requires ExplicitTtl(lib, e.toks, e.explicit, HeadOf(lib, ItemOf(e)).value.rtype)
    ensures StatesItsTtl(lib, ItemOf(e))
  {
    StatesTtlSound(lib, Texts(e.toks), if e.explicit then 1 else 0, None, false);
  }

  // ----- The serial token -----

  /** The SOA's type is written SOA and its owner is not. */
  predicate SoaSpelled(lib: Lib, it: Item) {
    && HeadOf(lib, it).Some?
    && EqualFold(it.texts[HeadOf(lib, it).value.at], "SOA")
    && !(it.explicit && EqualFold(it.texts[0], "SOA"))
  }

  lemma {:induction false} NoSoaBeforeType(lib: Lib, texts: seq<string>, i: nat, ttl: Option<nat>, cls: bool)
    requires HeadFrom(lib, texts, i, ttl, cls).Some?
    ensures forall j :: i <= j < HeadFrom(lib, texts, i, ttl, cls).value.at ==> !EqualFold(texts[j], "SOA")
    decreases |texts| - i
  {
    var soa := Upper("SOA");
    assert soa == "SOA";
    if IsClassWord(texts[i]) {
      NoSoaBeforeType(lib, texts, i + 1, ttl, true);
    } else if TypeOf(lib, texts[i]).None? {
      if EqualFold(texts[i], "SOA") {
        SoaIsNoTtl(texts[i]);
      }
      NoSoaBeforeType(lib, texts, i + 1, TtlOf(texts[i]), cls);
    }
  }

  lemma SoaIsNoTtl(s: string)
    requires EqualFold(s, "SOA")
    ensures TtlOf(s).None?
  {
    assert Upper("SOA") == "SOA";
    assert |s| == 3 && UpperChar(s[0]) == 'S' && UpperChar(s[1]) == 'O';
    assert !IsDigit(s[0]) && Unit(s[0]) == 1 && !IsDigit(s[1]) && Unit(s[1]) == 0;
    assert TtlFrom(s[1..], 0, 0).None?;
  }

  /**
   * `locateSerial` finds the serial exactly when the SOA is spelled so: otherwise the token it
   * rewrites is another datum of the record, three places after the wrong word.
   */
  lemma SerialTokenExact(lib: Lib, it: Item)
    requires HeadOf(lib, it).Some? && HeadOf(lib, it).value.rtype == SOA
    ensures FirstSoa(it.texts, 0) == HeadOf(lib, it).value.at <==> SoaSpelled(lib, it)
  {
    var h := HeadOf(lib, it).value;
    NoSoaBeforeType(lib, it.texts, if it.explicit then 1 else 0, None, false);
  }
}
