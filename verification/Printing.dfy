/** Printed records read back: a line of whole tokens scans to those tokens, and resolves to the record. */
module Printing {
  import opened Text
  import opened Tokenizer
  import opened Resolver
  import opened ZoneFile
  import opened Rescan

  /** A text that scans as one token wherever a space, a tab or the end of line follows it. */
  predicate WholeToken(t: string) {
    t != "" && !IsStop(t[0]) && NoNewline(t) && TokEnd(t + " ", 0, false) == |t|
  }

  lemma {:induction false} TokEndOfPrefix(t: string, rest: string, i: nat, q: bool)
    requires i <= |t| && TokEnd(t + " ", i, q) == |t|
    requires rest == "" || IsSpace(rest[0])
    ensures TokEnd(t + rest, i, q) == |t|
    decreases |t| - i
  {
    if i < |t| {
      assert (t + " ")[i] == (t + rest)[i] == t[i];
      TokEndOfPrefix(t, rest, i + 1, if t[i] == '"' then !q else q);
    } else {
      assert (t + " ")[i] == ' ';
      assert rest != "" ==> (t + rest)[i] == rest[0];
    }
  }

  lemma {:induction false} DigitsWhole(t: string)
    requires t != "" && AllDigits(t)
    ensures WholeToken(t)
  {
    TokEndRun(t + " ", 0, |t|);
  }

  ghost predicate AllWhole(fields: seq<string>) {
    forall i :: 0 <= i < |fields| ==> WholeToken(fields[i])
  }

  /** A whole token at the start of a line, then a space and `tail`. */
  lemma ScanField(f: string, sep: char, tail: string, row: nat)
    requires WholeToken(f) && IsSpace(sep)
    ensures var s, r := Scan(f + [sep] + tail, 0, row), Scan(tail, 0, row);
            Texts(s.toks) == [f] + Texts(r.toks) && s.delta == r.delta
  {
    var line := f + [sep] + tail;
    assert line == f + ([sep] + tail);
    TokEndOfPrefix(f, [sep] + tail, 0, false);
    assert line[0] == f[0] && line[0..|f|] == f && line[|f|] == sep;
    assert line[|f| + 1..] == tail == tail[0..];
    ScanShift(line, |f| + 1, tail, 0, row);
    assert Scan(line, |f|, row) == Scan(line, |f| + 1, row);
    assert Scan(line, 0, row).toks == [Tok(row, 0, |f|, f)] + Scan(line, |f|, row).toks;
    TextsConcat([Tok(row, 0, |f|, f)], Scan(line, |f|, row).toks);
  }

  lemma ScanLastField(f: string, row: nat)
    requires WholeToken(f)
    ensures var s := Scan(f, 0, row); Texts(s.toks) == [f] && s.delta == 0
  {
    TokEndOfPrefix(f, "", 0, false);
    assert f + "" == f && f[0..|f|] == f;
    assert Scan(f, |f|, row).toks == [];
  }

  /** A spelled line scans back to its fields, with no parentheses. */
  lemma {:induction false} ScanSpell(fields: seq<string>, tabs: nat, row: nat)
    requires AllWhole(fields)
    ensures var s := Scan(Spell(fields, tabs), 0, row); Texts(s.toks) == fields && s.delta == 0
    ensures NoNewline(Spell(fields, tabs))
    ensures fields != [] ==> Spell(fields, tabs) != "" && Spell(fields, tabs)[0] == fields[0][0]
    decreases |fields|
  {
    if fields == [] {
    } else if |fields| == 1 && tabs == 0 {
      ScanLastField(fields[0], row);
      assert fields == [fields[0]];
    } else {
      var n := if tabs > 0 then tabs - 1 else 0;
      ScanSpell(fields[1..], n, row);
      ScanField(fields[0], if tabs > 0 then '\t' else ' ', Spell(fields[1..], n), row);
      assert fields == [fields[0]] + fields[1..];
    }
  }

  // ----- The header of a printed record -----

  lemma TtlDigit(s: string, num: nat)
    requires s != "" && IsDigit(s[0])
    ensures TtlFrom(s, 0, num) == TtlFrom(s[1..], 0, (10 * num + (s[0] as int - '0' as int)) % UINT32)
  {
  }

  lemma TtlEnds(num: nat)
    requires num < UINT32
    ensures TtlFrom("", 0, num) == Some(num)
  {
  }

  lemma {:induction false} TtlSnoc(s: string, c: char, num: nat)
    requires AllDigits(s) && IsDigit(c) && num < UINT32
    ensures TtlFrom(s, 0, num).Some?
    ensures TtlFrom(s + [c], 0, num)
            == Some((10 * TtlFrom(s, 0, num).value + (c as int - '0' as int)) % UINT32)
  {
    TtlDigit(s + [c], num);
    if s == "" {
      assert (s + [c])[1..] == "";
      TtlEnds(num);
      TtlEnds((10 * num + (c as int - '0' as int)) % UINT32);
    } else {
      TtlDigit(s, num);
      assert (s + [c])[1..] == s[1..] + [c];
      TtlSnoc(s[1..], c, (10 * num + (s[0] as int - '0' as int)) % UINT32);
    }
  }

  /** A printed TTL reads back as itself. */
  lemma {:induction false} TtlDec(n: nat)
    requires n < UINT32
    ensures TtlOf(Dec(n)) == Some(n)
  {
    if n < 10 {
      assert Dec(n)[1..] == "";
      assert TtlFrom("", 0, n) == Some(n);
    } else {
      TtlDec(n / 10);
      TtlSnoc(Dec(n / 10), Digit(n % 10), 0);
      LastDigit(n);
    }
  }

  lemma LastDigit(n: nat)
    requires n < UINT32
    ensures (10 * (n / 10) + n % 10) % UINT32 == n
    ensures Digit(n % 10) as int - '0' as int == n % 10
  {
  }

  lemma DigitsAreNoWord(lib: Lib, s: string)
    requires ValidLib(lib) && s != "" && AllDigits(s)
    ensures !IsClassWord(s) && TypeOf(lib, s).None?
  {
    assert Upper(s)[0] == s[0];
    assert IsDigit(Upper(s)[0]);
  }

  /**
   * A record whose text the reader takes back: an absolute owner, a 32-bit TTL, a type
   * with a mnemonic, and data that is a fixed point of the library's reading.
   */
  ghost predicate Printable(lib: Lib, rr: Rr) {
    && WholeToken(rr.name) && rr.name[|rr.name| - 1] == '.'
    && rr.ttl < UINT32
    && rr.rtype in lib.names && WholeToken(lib.names[rr.rtype]) && !IsClassWord(lib.names[rr.rtype])
    && AllWhole(rr.rdata)
    && (forall scope :: DataOf(lib, rr.rtype, rr.rdata, scope) == Some(rr.rdata))
  }

  lemma PrintScans(lib: Lib, rr: Rr)
    requires Printable(lib, rr)
    ensures AllWhole(Fields(lib, rr))
    ensures var l := Print(lib, rr);
            && Closed([l]) && KindOf(l) == Record && NoNewline(l)
            && ChunkItem([l]) == Item(Record, true, Fields(lib, rr), 0)
  {
    var fs := Fields(lib, rr);
    DigitsWhole(Dec(rr.ttl));
    assert WholeToken("IN") by {
      assert ("IN" + " ")[2] == ' ';
      assert TokEnd("IN" + " ", 2, false) == 2;
      assert TokEnd("IN" + " ", 1, false) == 2;
    }
    forall i | 0 <= i < |fs| ensures WholeToken(fs[i]) {
      if i >= 4 {
        assert fs[i] == rr.rdata[i - 4];
      }
    }
    var l := Print(lib, rr);
    ScanSpell(fs, 4, 0);
    assert Toks(l, 0)[0].text == fs[0] == rr.name;
    var u := Upper(rr.name);
    assert u[|u| - 1] == '.';
    assert DirectiveOf(rr.name).None?;
    OneLineEntry(l, 0);
    assert [l][1..] == [];
  }

  /** A printed record resolves to itself in every context, and its TTL is stated. */
  lemma PrintResolves(lib: Lib, rr: Rr, ctx: Ctx)
    requires ValidLib(lib) && Printable(lib, rr)
    ensures var it := Item(Record, true, Fields(lib, rr), 0);
            && ReadRecord(lib, ctx, it) == Some(rr)
            && HeadOf(lib, it) == Some(Head(Some(rr.ttl), true, 3, rr.rtype))
  {
    var fs := Fields(lib, rr);
    var name := lib.names[rr.rtype];
    TtlDec(rr.ttl);
    DigitsAreNoWord(lib, Dec(rr.ttl));
    assert Upper("IN") == "IN";
    assert Upper(name) == name;
    assert TypeOf(lib, fs[3]) == Some(rr.rtype);
    assert HeadFrom(lib, fs, 3, Some(rr.ttl), true) == Some(Head(Some(rr.ttl), true, 3, rr.rtype));
    assert HeadFrom(lib, fs, 2, Some(rr.ttl), false) == HeadFrom(lib, fs, 3, Some(rr.ttl), true);
    assert HeadFrom(lib, fs, 1, None, false) == HeadFrom(lib, fs, 2, Some(rr.ttl), false);
    assert fs[4..] == rr.rdata;
    assert DataOf(lib, rr.rtype, rr.rdata, ctx.scope) == Some(rr.rdata);
  }
}
