/** What the editor refuses and accepts, in terms of the text, and where in the text additions go. */
module EditLayout {
  import opened Text
  import opened Tokenizer
  import opened Resolver
  import opened ZoneFile
  import opened EditTheorem
  import opened EditSelects

  // ----- Refused constructs -----

  /** The first word of a line, in capitals; empty if the line has none. */
  function FirstWord(line: string): string {
    if Toks(line, 0) == [] then "" else Upper(Toks(line, 0)[0].text)
  }

  /** A line that begins a record: it has a word, and it is not one of the four directives. */
  predicate BeginsRecord(line: string) {
    Toks(line, 0) != [] && FirstWord(line) !in {"$ORIGIN", "$TTL", "$INCLUDE", "$GENERATE"}
  }

  /** Entry `i` includes or generates records, or changes the origin after a record. */
  predicate Offends(cs: seq<seq<string>>, i: nat)
    requires i < |cs| && forall k :: 0 <= k < |cs| ==> cs[k] != []
  {
    || FirstWord(cs[i][0]) == "$INCLUDE" || FirstWord(cs[i][0]) == "$GENERATE"
    || (FirstWord(cs[i][0]) == "$ORIGIN" && exists j :: 0 <= j < i && BeginsRecord(cs[j][0]))
  }

  predicate SomeOffends(cs: seq<seq<string>>)
    requires forall k :: 0 <= k < |cs| ==> cs[k] != []
  {
    exists i :: 0 <= i < |cs| && Offends(cs, i)
  }

  lemma {:induction false} EntryAt(cs: seq<seq<string>>, off: nat, i: nat)
    requires i < |cs| && forall k :: 0 <= k < |cs| ==> cs[k] != []
    ensures EntriesOf(cs, off)[i].kind == KindOf(cs[i][0])
    decreases i
  {
    if i > 0 {
      EntryAt(cs[1..], off + |cs[0]|, i - 1);
    }
  }

  lemma {:induction false} RefusalIs(es: seq<Entry>)
    ensures Refusal(es).Some? <==> exists i :: 0 <= i < |es| && Offence(es[..i], es[i]).Some?
  {
    if es != [] {
      var n := |es| - 1;
      RefusalIs(es[..n]);
      if Offence(es[..n], es[n]).None? {
        forall i | 0 <= i < n ensures Offence(es[..i], es[i]) == Offence(es[..n][..i], es[..n][i]) {
          assert es[..n][..i] == es[..i];
        }
      }
    }
  }

  /** The reason given is that of the last entry that offends. */
  lemma {:induction false} LastReason(es: seq<Entry>, i: nat)
    requires i < |es| && Offence(es[..i], es[i]).Some?
    requires forall j :: i < j < |es| ==> Offence(es[..j], es[j]).None?
    ensures Refusal(es) == match es[i].kind
                           case Directive(Include) => Some(UsesInclude)
                           case Directive(Generate) => Some(UsesGenerate)
                           case _ => Some(MidFileOrigin)
    decreases |es|
  {
    var n := |es| - 1;
    if i < n {
      assert Offence(es[..n], es[n]).None?;
      assert es[..n][..i] == es[..i];
      forall j | i < j < n ensures Offence(es[..n][..j], es[..n][j]).None? {
        assert es[..n][..j] == es[..j];
      }
      LastReason(es[..n], i);
    }
  }

  predicate ByDirective(r: Option<Reason>) {
    r == Some(UsesInclude) || r == Some(UsesGenerate) || r == Some(MidFileOrigin)
  }

  lemma WordIs(line: string)
    ensures KindOf(line) == Directive(Include) <==> FirstWord(line) == "$INCLUDE"
    ensures KindOf(line) == Directive(Generate) <==> FirstWord(line) == "$GENERATE"
    ensures KindOf(line) == Directive(Origin) <==> FirstWord(line) == "$ORIGIN"
    ensures KindOf(line) == Directive(Ttl) <==> FirstWord(line) == "$TTL"
  {
  }

  lemma RecordIs(line: string)
    ensures KindOf(line).Record? <==> BeginsRecord(line)
  {
  }

  /** The entries are of the kinds that the chunks' first lines say. */
  ghost predicate Kinds(es: seq<Entry>, cs: seq<seq<string>>) {
    && |es| == |cs| && (forall k :: 0 <= k < |cs| ==> cs[k] != [])
    && forall k :: 0 <= k < |cs| ==> es[k].kind == KindOf(cs[k][0])
  }

  lemma KindsHold(cs: seq<seq<string>>)
    requires forall k :: 0 <= k < |cs| ==> cs[k] != []
    ensures Kinds(EntriesOf(cs, 0), cs)
  {
    forall k | 0 <= k < |cs| ensures EntriesOf(cs, 0)[k].kind == KindOf(cs[k][0]) {
      EntryAt(cs, 0, k);
    }
  }

  lemma RecordBefore(es: seq<Entry>, cs: seq<seq<string>>, i: nat)
    requires Kinds(es, cs) && i < |cs|
    ensures HasRecord(es[..i]) <==> exists j :: 0 <= j < i && BeginsRecord(cs[j][0])
  {
    forall j | 0 <= j < i ensures es[..i][j].kind.Record? <==> BeginsRecord(cs[j][0]) {
      RecordIs(cs[j][0]);
    }
  }

  lemma OffenceIs(es: seq<Entry>, cs: seq<seq<string>>, i: nat)
    requires Kinds(es, cs) && i < |cs|
    ensures Offence(es[..i], es[i]).Some? <==> Offends(cs, i)
  {
    WordIs(cs[i][0]);
    RecordBefore(es, cs, i);
  }

  lemma RefusedIs(es: seq<Entry>, cs: seq<seq<string>>)
    requires Kinds(es, cs)
    ensures Refusal(es).Some? <==> SomeOffends(cs)
  {
    RefusalIs(es);
    forall i | 0 <= i < |cs| ensures Offence(es[..i], es[i]).Some? <==> Offends(cs, i) {
      OffenceIs(es, cs, i);
    }
  }

  /**
   * The safe subset, in words: a file is refused for its directives if and only if some entry begins
   * with `$INCLUDE` or `$GENERATE`, in any case, or with `$ORIGIN` after a record.
   */
  lemma DirectivesRefused(lib: Lib, data: string, rrs: Resolved)
    ensures SomeOffends(Chunks(Split(data)))
            <==> Parsed(lib, Split(data), rrs).Some? && ByDirective(Parsed(lib, Split(data), rrs).value.refused)
  {
    KindsHold(Chunks(Split(data)));
    RefusedIs(Entries(Split(data)), Chunks(Split(data)));
    RefusalReason(Entries(Split(data)));
    ParsedRefusal(lib, Split(data), rrs);
  }

  lemma ParsedRefusal(lib: Lib, lines: seq<string>, rrs: Resolved)
    ensures var p, r := Parsed(lib, lines, rrs), Refusal(Entries(lines));
            && (r.Some? ==> p.Some? && p.value.refused == r)
            && (r.None? && p.Some? ==> !ByDirective(p.value.refused))
  {
  }

  lemma {:induction false} RefusalReason(es: seq<Entry>)
    ensures Refusal(es).Some? ==> ByDirective(Refusal(es))
  {
    if es != [] {
      RefusalReason(es[..|es| - 1]);
    }
  }

  predicate SomeTtl(cs: seq<seq<string>>)
    requires forall k :: 0 <= k < |cs| ==> cs[k] != []
  {
    exists i :: 0 <= i < |cs| && FirstWord(cs[i][0]) == "$TTL"
  }

  /** A file open for editing has a default TTL if and only if some entry begins with `$TTL`, in any case. */
  lemma TtlDirectiveIs(lib: Lib, origin: string, data: string, f: File)
    requires Opened(lib, origin, data, f)
    ensures f.hasTtlDirective <==> SomeTtl(Chunks(Split(data)))
  {
    OpenedRecords(lib, origin, data, f);
    KindsHold(Chunks(Split(data)));
    TtlKinds(Entries(Split(data)), Chunks(Split(data)));
  }

  lemma TtlKinds(es: seq<Entry>, cs: seq<seq<string>>)
    requires Kinds(es, cs)
    ensures HasTtlDirective(es) <==> SomeTtl(cs)
  {
    forall i | 0 <= i < |cs| ensures es[i].kind == Directive(Ttl) <==> FirstWord(cs[i][0]) == "$TTL" {
      WordIs(cs[i][0]);
    }
  }

  // ----- Accepted deletions -----

  /** Every record is on a line of its own, with its owner and TTL stated, the TTL perhaps by `$TTL`. */
  predicate Regular(f: File) {
    forall i :: 0 <= i < |f.records| ==>
      f.records[i].explicit && f.records[i].start == f.records[i].end && (f.hasTtlDirective || f.records[i].explicitTtl)
  }

  /** On a regular file every batch of known operations is accepted that does not take the SOA. */
  lemma RegularAccepts(lib: Lib, origin: string, data: string, f: File, ops: seq<Op>)
    requires Opened(lib, origin, data, f) && Regular(f) && AllTellable(lib, Meaning(lib, origin, data).rrs, ops)
    requires f.soa.Some? && f.soa.value < |Meaning(lib, origin, data).rrs|
    ensures EditAccepts(lib, f, ops)
            <==> forall k :: 0 <= k < |ops| ==>
                   && ops[k].rr.Some? && !ops[k].action.UnknownAction?
                   && !Takes(lib, Meaning(lib, origin, data).rrs, ops[k], f.soa.value)
  {
    OpenedRecords(lib, origin, data, f);
    RegularTakes(lib, f, Meaning(lib, origin, data).rrs, ops, f.soa.value);
  }

  lemma RegularTakes(lib: Lib, f: File, rrs: seq<Rr>, ops: seq<Op>, s: nat)
    requires ValidLib(lib) && Surgical(f) && Regular(f) && f.soa == Some(s) && s < |rrs| == |f.records|
    requires (forall i :: 0 <= i < |rrs| ==> f.records[i].rr == rrs[i]) && AllTellable(lib, rrs, ops)
    ensures EditAccepts(lib, f, ops)
            <==> forall k :: 0 <= k < |ops| ==>
                   ops[k].rr.Some? && !ops[k].action.UnknownAction? && !Takes(lib, rrs, ops[k], s)
  {
    forall k | 0 <= k < |ops| ensures Hits(lib, f, ops[k], s) <==> Takes(lib, rrs, ops[k], s) {
      HitsTakes(lib, rrs, ops[k], s);
    }
    forall i | 0 <= i < |f.records| ensures CanDelete(f, i) <==> i != s {
    }
    TargetedIs(lib, f, ops, s);
  }

  lemma TargetedIs(lib: Lib, f: File, ops: seq<Op>, s: nat)
    requires s < |f.records| && forall i :: 0 <= i < |f.records| ==> (CanDelete(f, i) <==> i != s)
    ensures EditAccepts(lib, f, ops)
            <==> Surgical(f) && forall k :: 0 <= k < |ops| ==> WellFormedOp(ops[k]) && !Hits(lib, f, ops[k], s)
  {
    if k :| 0 <= k < |ops| && Hits(lib, f, ops[k], s) {
      assert Targeted(lib, f, ops, s);
    }
  }

  lemma {:induction false} OwnerStated(cs: seq<seq<string>>, off: nat, e: Entry)
    requires (forall k :: 0 <= k < |cs| ==> cs[k] != []) && e in EntriesOf(cs, off) && e.kind.Record?
    ensures off <= e.start < off + |Flatten(cs)|
    ensures e.explicit <==> !LeadingSpace(Flatten(cs)[e.start - off])
    decreases |cs|
  {
    if e != EntryOf(cs[0], off) {
      OwnerStated(cs[1..], off + |cs[0]|, e);
    }
  }

  lemma {:induction false} RecordEntryIn(es: seq<Entry>, r: nat)
    requires r < |RecordEntries(es)|
    ensures RecordEntries(es)[r] in es && RecordEntries(es)[r].kind.Record?
  {
    if es[0].kind.Record? && r == 0 {
    } else {
      RecordEntryIn(es[1..], if es[0].kind.Record? then r - 1 else r);
    }
  }

  /** Record `i` begins with its owner: its first line does not begin with a blank. */
  predicate StatesOwner(f: File, i: nat)
    requires i < |f.records|
  {
    f.records[i].start < |f.lines| && !(f.lines[f.records[i].start] != "" && f.lines[f.records[i].start][0] in " \t")
  }

  lemma ExplicitIs(lib: Lib, origin: string, data: string, f: File, i: nat)
    requires Opened(lib, origin, data, f) && i < |f.records|
    ensures f.records[i].explicit <==> StatesOwner(f, i)
  {
    OpenedRecords(lib, origin, data, f);
    RecordEntryIn(Entries(Split(data)), i);
    ExplicitFirst(Split(data), RecordEntries(Entries(Split(data)))[i]);
  }

  lemma ExplicitFirst(lines: seq<string>, e: Entry)
    requires e in Entries(lines) && e.kind.Record?
    ensures e.start < |lines| && (e.explicit <==> !(lines[e.start] != "" && lines[e.start][0] in " \t"))
  {
    OwnerStated(Chunks(lines), 0, e);
    FlattenChunks(lines);
  }

  /**
   * The line of record `i` can go: it is not the last SOA's, it is all of the record and begins with
   * its owner, and the next record states its owner, and its TTL unless a `$TTL` line does.
   */
  predicate LineCanGo(f: File, i: nat)
    requires i < |f.records|
  {
    && f.soa != Some(i) && f.records[i].start == f.records[i].end && StatesOwner(f, i)
    && (i + 1 < |f.records| ==> StatesOwner(f, i + 1) && (f.hasTtlDirective || f.records[i + 1].explicitTtl))
  }

  /** The line of every record that some operation takes can go. */
  ghost predicate AllCanGo(lib: Lib, f: File, rrs: seq<Rr>, ops: seq<Op>)
    requires |rrs| == |f.records|
  {
    forall i, k :: 0 <= i < |rrs| && 0 <= k < |ops| && Takes(lib, rrs, ops[k], i) ==> LineCanGo(f, i)
  }

  /** A batch is accepted exactly if its operations are known and the line of each record they take can go. */
  lemma AcceptsExactly(lib: Lib, origin: string, data: string, f: File, ops: seq<Op>)
    requires Opened(lib, origin, data, f) && AllTellable(lib, Meaning(lib, origin, data).rrs, ops)
    ensures |f.records| == |Meaning(lib, origin, data).rrs|
    ensures EditAccepts(lib, f, ops)
            <==> && (forall k :: 0 <= k < |ops| ==> ops[k].rr.Some? && !ops[k].action.UnknownAction?)
                 && AllCanGo(lib, f, Meaning(lib, origin, data).rrs, ops)
  {
    OpenedRecords(lib, origin, data, f);
    forall i | 0 <= i < |f.records| ensures f.records[i].explicit <==> StatesOwner(f, i) {
      ExplicitIs(lib, origin, data, f, i);
    }
    AcceptsWhat(lib, f, Meaning(lib, origin, data).rrs, ops);
  }

  lemma AcceptsWhat(lib: Lib, f: File, rrs: seq<Rr>, ops: seq<Op>)
    requires ValidLib(lib) && Surgical(f) && |rrs| == |f.records|
    requires (forall i :: 0 <= i < |rrs| ==> f.records[i].rr == rrs[i]) && AllTellable(lib, rrs, ops)
    requires forall i :: 0 <= i < |f.records| ==> (f.records[i].explicit <==> StatesOwner(f, i))
    ensures EditAccepts(lib, f, ops)
            <==> && (forall k :: 0 <= k < |ops| ==> ops[k].rr.Some? && !ops[k].action.UnknownAction?)
                 && AllCanGo(lib, f, rrs, ops)
  {
    forall i, k | 0 <= i < |rrs| && 0 <= k < |ops| ensures Hits(lib, f, ops[k], i) <==> Takes(lib, rrs, ops[k], i) {
      HitsTakes(lib, rrs, ops[k], i);
    }
    forall i | 0 <= i < |f.records| ensures CanDelete(f, i) <==> LineCanGo(f, i) {
    }
    TargetsCanGo(lib, f, rrs, ops);
  }

  lemma TargetsCanGo(lib: Lib, f: File, rrs: seq<Rr>, ops: seq<Op>)
    requires Surgical(f) && |rrs| == |f.records|
    requires forall i, k :: 0 <= i < |rrs| && 0 <= k < |ops| ==>
               (Hits(lib, f, ops[k], i) <==> Takes(lib, rrs, ops[k], i))
    requires forall i :: 0 <= i < |f.records| ==> (CanDelete(f, i) <==> LineCanGo(f, i))
    ensures EditAccepts(lib, f, ops)
            <==> && (forall k :: 0 <= k < |ops| ==> WellFormedOp(ops[k]))
                 && AllCanGo(lib, f, rrs, ops)
  {
    if EditAccepts(lib, f, ops) {
      forall i, k | 0 <= i < |f.records| && 0 <= k < |ops| && Takes(lib, rrs, ops[k], i) ensures LineCanGo(f, i) {
        assert Hits(lib, f, ops[k], i);
        assert Targeted(lib, f, ops, i);
      }
    } else if forall k :: 0 <= k < |ops| ==> WellFormedOp(ops[k]) {
      var i :| 0 <= i < |f.records| && Targeted(lib, f, ops, i) && !CanDelete(f, i);
      var k :| 0 <= k < |ops| && Hits(lib, f, ops[k], i);
      assert Takes(lib, rrs, ops[k], i);
    }
  }

  // ----- Where additions go -----

  /** Lines, each with its newline. */
  function Terminated(lines: seq<string>): string {
    if lines == [] then "" else lines[0] + "\n" + Terminated(lines[1..])
  }

  /** Lines, each after a newline. */
  function Preceded(lines: seq<string>): string {
    if lines == [] then "" else "\n" + lines[0] + Preceded(lines[1..])
  }

  lemma {:induction false} JoinTerminated(lines: seq<string>)
    ensures Join(lines + [""]) == Terminated(lines)
  {
    if lines == [] {
      assert lines + [""] == [""];
    } else {
      JoinTerminated(lines[1..]);
      assert (lines + [""])[1..] == lines[1..] + [""];
    }
  }

  lemma {:induction false} JoinPreceded(first: string, lines: seq<string>)
    ensures Join([first] + lines) == first + Preceded(lines)
    decreases |lines|
  {
    if lines != [] {
      JoinPreceded(lines[0], lines[1..]);
      assert ([first] + lines)[1..] == [lines[0]] + lines[1..];
    }
  }

  lemma JoinFromFirst(b: seq<string>)
    requires b != []
    ensures "\n" + Join(b) == Preceded(b)
  {
    JoinPreceded(b[0], b[1..]);
    assert [b[0]] + b[1..] == b;
    assert "\n" + (b[0] + Preceded(b[1..])) == "\n" + b[0] + Preceded(b[1..]);
  }

  lemma JoinAppended(a: seq<string>, b: seq<string>)
    requires a != []
    ensures Join(a + b) == Join(a) + Preceded(b)
  {
    if b == [] {
      assert a + b == a;
    } else {
      JoinWithConcat('\n', a, b);
      JoinFromFirst(b);
    }
  }

  lemma JoinBeforeBlank(head: seq<string>, adds: seq<string>)
    ensures Join(head + adds + [""]) == Join(head + [""]) + Terminated(adds)
  {
    if head == [] {
      assert head + adds + [""] == adds + [""] && head + [""] == [""];
      JoinTerminated(adds);
    } else {
      JoinWithConcat('\n', head, adds + [""]);
      assert head + (adds + [""]) == head + adds + [""];
      JoinWithConcat('\n', head, [""]);
      JoinTerminated(adds);
    }
  }

  /**
   * The bytes of an edit: those of the lines kept, the serial's rewritten, and then one line for each
   * added record; a text that ended with a newline still does, and one that did not still does not.
   */
  lemma AddedAtTheEnd(lib: Lib, f: File, ops: seq<Op>, serial: nat)
    requires f.serialTok.Some? && SerialPlaced(f)
    requires KeepLines(Bump(f, serial), DeletedLines(lib, f, ops), 0) != []
    ensures var kept := KeepLines(Bump(f, serial), DeletedLines(lib, f, ops), 0);
            Edited(lib, f, ops, serial)
            == Join(kept) + if kept[|kept| - 1] == "" then Terminated(Prints(lib, AddedRrs(ops)))
                            else Preceded(Prints(lib, AddedRrs(ops)))
  {
    AppendedText(KeepLines(Bump(f, serial), DeletedLines(lib, f, ops), 0), Prints(lib, AddedRrs(ops)));
  }

  lemma AppendedText(kept: seq<string>, adds: seq<string>)
    requires kept != []
    ensures Join(AppendLines(kept, adds))
            == Join(kept) + if kept[|kept| - 1] == "" then Terminated(adds) else Preceded(adds)
  {
    if adds != [] && kept[|kept| - 1] == "" {
      var head := kept[..|kept| - 1];
      assert kept == head + [""];
      JoinBeforeBlank(head, adds);
    } else {
      JoinAppended(kept, adds);
    }
  }
}
