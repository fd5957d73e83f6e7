/**
 * The line-aware tokenizer of internal/zonefile: one line is scanned into tokens with
 * byte columns, and lines are grouped into entries (blank, directive, record), a record
 * continuing over further lines while its parentheses are open.
 */
module Tokenizer {
  import opened Text

  datatype Tok = Tok(line: nat, start: nat, end: nat, text: string)

  datatype Scanned = Scanned(toks: seq<Tok>, delta: int)

  predicate IsSpace(c: char) {
    c == ' ' || c == '\t' || c == '\r'
  }

  /** The characters that end a token when they are not inside quotes. */
  predicate IsStop(c: char) {
    IsSpace(c) || c == ';' || c == '(' || c == ')'
  }

  predicate LeadingSpace(line: string) {
    line != "" && (line[0] == ' ' || line[0] == '\t')
  }

  // ----- One line -----

  /** Where the token running through column `i` ends; `q` says whether `i` is inside quotes. */
  function TokEnd(line: string, i: nat, q: bool): (e: nat)
    requires i <= |line|
    ensures i <= e <= |line|
    ensures i < |line| && (q || !IsStop(line[i])) ==> i < e
    decreases |line| - i
  {
    if i == |line| then i
    else if line[i] == '"' then TokEnd(line, i + 1, !q)
    else if !q && IsStop(line[i]) then i
    else TokEnd(line, i + 1, q)
  }

  /** The tokens and the net parenthesis depth of `line` from column `i` on. */
  function Scan(line: string, i: nat, row: nat): Scanned
    requires i <= |line|
    decreases |line| - i
  {
    if i == |line| || line[i] == ';' then Scanned([], 0)
    else if IsSpace(line[i]) then Scan(line, i + 1, row)
    else if line[i] == '(' then var r := Scan(line, i + 1, row); r.(delta := r.delta + 1)
    else if line[i] == ')' then var r := Scan(line, i + 1, row); r.(delta := r.delta - 1)
    else
      var e := TokEnd(line, i, false);
      var r := Scan(line, e, row);
      r.(toks := [Tok(row, i, e, line[i..e])] + r.toks)
  }

  function Toks(line: string, row: nat): seq<Tok> {
    Scan(line, 0, row).toks
  }

  function Delta(line: string): int {
    Scan(line, 0, 0).delta
  }

  lemma RegroupToks(a: seq<Tok>, t: Tok, b: seq<Tok>)
    ensures (a + [t]) + b == a + ([t] + b)
  {
  }

  /** The scanning loop of `scanLine` computes `Scan`. */
  method ScanLine(line: string, row: nat) returns (toks: seq<Tok>, delta: int, leadWS: bool)
    ensures toks == Toks(line, row) && delta == Scan(line, 0, row).delta
    ensures leadWS == LeadingSpace(line) == (|line| > 0 && line[0] in " \t")
  {
    var n := |line|;
    leadWS := n > 0 && (line[0] == ' ' || line[0] == '\t');
    toks, delta := [], 0;
    var inQuote := false;
    var i := 0;
    ghost var all := Scan(line, 0, row);
    while i < n
      invariant 0 <= i <= n
      invariant i < n ==> !inQuote
      invariant all.toks == toks + Scan(line, i, row).toks
      invariant all.delta == delta + Scan(line, i, row).delta
    {
      var c := line[i];
      if !inQuote && c == ';' {
        break;
      }
      if !inQuote && (c == ' ' || c == '\t' || c == '\r') {
        i := i + 1;
        continue;
      }
      if !inQuote && c == '(' {
        delta := delta + 1;
        i := i + 1;
        continue;
      }
      if !inQuote && c == ')' {
        delta := delta - 1;
        i := i + 1;
        continue;
      }
      var start := i;
      ghost var e := TokEnd(line, start, false);
      while i < n
        invariant start <= i <= n
        invariant TokEnd(line, i, inQuote) == e
        invariant i == n ==> e == n
        invariant i == start ==> !inQuote
        decreases n - i
      {
        c := line[i];
        if c == '"' {
          inQuote := !inQuote;
          i := i + 1;
          continue;
        }
        if !inQuote && (c == ';' || c == ' ' || c == '\t' || c == '\r' || c == '(' || c == ')') {
          break;
        }
        i := i + 1;
      }
      assert i == e;
      RegroupToks(toks, Tok(row, start, i, line[start..i]), Scan(line, e, row).toks);
      toks := toks + [Tok(row, start, i, line[start..i])];
    }
  }

  /** Tokens lie in the line, are non-empty, hold the text under their columns and never touch. */
  ghost predicate WellPlaced(line: string, from: nat, row: nat, toks: seq<Tok>) {
    && (forall k :: 0 <= k < |toks| ==>
          && toks[k].line == row
          && from <= toks[k].start < toks[k].end <= |line|
          && toks[k].text == line[toks[k].start..toks[k].end])
    && (forall k, m :: 0 <= k < m < |toks| ==> toks[k].end < toks[m].start)
  }

  lemma TokEndStops(line: string, i: nat, q: bool)
    requires i <= |line|
    ensures var e := TokEnd(line, i, q); e < |line| ==> IsStop(line[e])
    decreases |line| - i
  {
    if i < |line| && (q || !IsStop(line[i])) {
      TokEndStops(line, i + 1, if line[i] == '"' then !q else q);
    }
  }

  lemma PlacedCons(line: string, i: nat, e: nat, row: nat, toks: seq<Tok>)
    requires i < e <= |line| && WellPlaced(line, e, row, toks) && (e < |line| ==> WellPlaced(line, e + 1, row, toks))
    ensures WellPlaced(line, i, row, [Tok(row, i, e, line[i..e])] + toks)
  {
  }

  lemma {:induction false} ScanPlaces(line: string, i: nat, row: nat)
    requires i <= |line|
    ensures WellPlaced(line, i, row, Scan(line, i, row).toks)
    ensures i < |line| && IsStop(line[i]) ==> WellPlaced(line, i + 1, row, Scan(line, i, row).toks)
    decreases |line| - i
  {
    if i == |line| || line[i] == ';' {
    } else if IsStop(line[i]) {
      ScanPlaces(line, i + 1, row);
    } else {
      var e := TokEnd(line, i, false);
      TokEndStops(line, i, false);
      ScanPlaces(line, e, row);
      PlacedCons(line, i, e, row, Scan(line, e, row).toks);
    }
  }

  // ----- An independent reading of a line: a four-state automaton -----

  datatype Mode = Gap | Bare | Quoted | Comment

  function NextMode(m: Mode, c: char): Mode {
    match m
    case Comment => Comment
    case Quoted => if c == '"' then Bare else Quoted
    case _ => if c == '"' then Quoted else if c == ';' then Comment else if c in " \t\r()" then Gap else Bare
  }

  function ModeAt(line: string, k: nat): Mode
    requires k <= |line|
  {
    if k == 0 then Gap else NextMode(ModeAt(line, k - 1), line[k - 1])
  }

  predicate InToken(m: Mode) {
    m.Bare? || m.Quoted?
  }

  /** The character in column `k` belongs to a token. */
  predicate TokenChar(line: string, k: nat)
    requires k < |line|
  {
    InToken(ModeAt(line, k + 1))
  }

  ghost predicate Covered(toks: seq<Tok>, k: nat) {
    exists j :: 0 <= j < |toks| && toks[j].start <= k < toks[j].end
  }

  lemma CoveredCons(t: Tok, rest: seq<Tok>, k: nat)
    ensures Covered([t] + rest, k) <==> t.start <= k < t.end || Covered(rest, k)
  {
    var all := [t] + rest;
    if t.start <= k < t.end {
      assert all[0].start <= k < all[0].end;
    }
    if Covered(rest, k) {
      var j :| 0 <= j < |rest| && rest[j].start <= k < rest[j].end;
      assert all[j + 1] == rest[j];
    }
    if Covered(all, k) {
      var j :| 0 <= j < |all| && all[j].start <= k < all[j].end;
      assert j > 0 ==> rest[j - 1] == all[j];
    }
  }

  lemma {:induction false} TokEndModes(line: string, i: nat, q: bool)
    requires i <= |line|
    requires ModeAt(line, i) == (if q then Quoted else Bare)
    ensures var e := TokEnd(line, i, q);
            && (forall k :: i <= k < e ==> TokenChar(line, k))
            && (e < |line| ==> ModeAt(line, e) == Bare && IsStop(line[e]))
    decreases |line| - i
  {
    if i == |line| || (!q && IsStop(line[i])) {
    } else {
      TokEndModes(line, i + 1, if line[i] == '"' then !q else q);
    }
  }

  lemma {:induction false} CommentStays(line: string, i: nat)
    requires i <= |line| && ModeAt(line, i) == Comment
    ensures forall k :: i <= k < |line| ==> !TokenChar(line, k)
    decreases |line| - i
  {
    if i < |line| {
      CommentStays(line, i + 1);
    }
  }

  lemma {:induction false} ScanModesFrom(line: string, i: nat, row: nat)
    requires i <= |line|
    requires i < |line| ==> ModeAt(line, i) == Gap || (ModeAt(line, i) == Bare && IsStop(line[i]))
    ensures forall k :: i <= k < |line| ==> (Covered(Scan(line, i, row).toks, k) <==> TokenChar(line, k))
    decreases |line| - i
  {
    if i == |line| {
    } else if line[i] == ';' {
      CommentStays(line, i + 1);
    } else if IsStop(line[i]) {
      ScanPlaces(line, i, row);
      ScanModesFrom(line, i + 1, row);
    } else {
      var e := TokEnd(line, i, false);
      TokEndModes(line, i + 1, line[i] == '"');
      ScanModesFrom(line, e, row);
      ScanPlaces(line, e, row);
      var rest := Scan(line, e, row).toks;
      forall k | i <= k < |line|
        ensures Covered(Scan(line, i, row).toks, k) <==> TokenChar(line, k)
      {
        CoveredCons(Tok(row, i, e, line[i..e]), rest, k);
      }
    }
  }

  /** The tokens of a line are exactly the maximal runs of token characters of the automaton. */
  lemma ScanExact(line: string, row: nat)
    ensures WellPlaced(line, 0, row, Toks(line, row))
    ensures forall k :: 0 <= k < |line| ==> (Covered(Toks(line, row), k) <==> TokenChar(line, k))
  {
    ScanPlaces(line, 0, row);
    ScanModesFrom(line, 0, row);
  }

  /** The character in column `k` is neither in a token nor in a comment. */
  predicate GapChar(line: string, k: nat)
    requires k < |line|
  {
    ModeAt(line, k + 1).Gap?
  }

  /** Opening less closing parentheses from column `i` on, outside quotes and comments. */
  function Parens(line: string, i: nat): int
    requires i <= |line|
    decreases |line| - i
  {
    if i == |line| then 0
    else
      var here := if GapChar(line, i) then (if line[i] == '(' then 1 else if line[i] == ')' then -1 else 0) else 0;
      here + Parens(line, i + 1)
  }

  lemma {:induction false} NoParens(line: string, i: nat, e: nat)
    requires i <= e <= |line| && forall k :: i <= k < e ==> !GapChar(line, k)
    ensures Parens(line, i) == Parens(line, e)
    decreases e - i
  {
    if i < e {
      NoParens(line, i + 1, e);
    }
  }

  lemma {:induction false} NoGap(line: string, i: nat)
    requires i <= |line| && ModeAt(line, i) == Comment
    ensures forall k :: i <= k < |line| ==> !GapChar(line, k)
    decreases |line| - i
  {
    if i < |line| {
      NoGap(line, i + 1);
    }
  }

  lemma {:induction false} ScanDepthFrom(line: string, i: nat, row: nat)
    requires i <= |line|
    requires i < |line| ==> ModeAt(line, i) == Gap || (ModeAt(line, i) == Bare && IsStop(line[i]))
    ensures Scan(line, i, row).delta == Parens(line, i)
    decreases |line| - i
  {
    if i == |line| {
    } else if line[i] == ';' {
      NoGap(line, i + 1);
      NoParens(line, i + 1, |line|);
    } else if IsStop(line[i]) {
      ScanDepthFrom(line, i + 1, row);
    } else {
      var e := TokEnd(line, i, false);
      TokEndModes(line, i + 1, line[i] == '"');
      forall k | i <= k < e ensures !GapChar(line, k) {
        assert k > i ==> TokenChar(line, k);
      }
      NoParens(line, i, e);
      ScanDepthFrom(line, e, row);
    }
  }

  /** The depth a line adds is that of its parentheses outside quotes and comments. */
  lemma DepthExact(line: string)
    ensures Delta(line) == Parens(line, 0)
  {
    ScanDepthFrom(line, 0, 0);
  }

  // ----- Entries -----

  datatype Dir = Origin | Ttl | Include | Generate

  function DirectiveOf(tok: string): Option<Dir> {
    var t := Upper(tok);
    if t == "$ORIGIN" then Some(Origin)
    else if t == "$TTL" then Some(Ttl)
    else if t == "$INCLUDE" then Some(Include)
    else if t == "$GENERATE" then Some(Generate)
    else None
  }

  datatype Kind = BlankLine | Directive(dir: Dir) | Record

  /** `depth` is the parenthesis depth left open at the end of the entry. */
  datatype Entry = Entry(kind: Kind, start: nat, end: nat, toks: seq<Tok>, explicit: bool, depth: int)

  function KindOf(line: string): Kind {
    var ts := Toks(line, 0);
    if ts == [] then BlankLine
    else match DirectiveOf(ts[0].text)
      case Some(d) => Directive(d)
      case None => Record
  }

  function NetDepth(c: seq<string>): int {
    if c == [] then 0 else Delta(c[0]) + NetDepth(c[1..])
  }

  function TokensOf(c: seq<string>, off: nat): seq<Tok> {
    if c == [] then [] else Toks(c[0], off) + TokensOf(c[1..], off + 1)
  }

  /** How many of the lines that follow belong to a record whose depth is `depth` so far. */
  function More(rest: seq<string>, depth: int): (k: nat)
    ensures k <= |rest|
  {
    if depth > 0 && rest != [] then 1 + More(rest[1..], depth + Delta(rest[0])) else 0
  }

  function EntryLen(lines: seq<string>): (k: nat)
    requires lines != []
    ensures 1 <= k <= |lines|
  {
    if KindOf(lines[0]).Record? then 1 + More(lines[1..], Delta(lines[0])) else 1
  }

  /** The lines of a file grouped into one chunk an entry. */
  function Chunks(lines: seq<string>): (cs: seq<seq<string>>)
    ensures forall i :: 0 <= i < |cs| ==> cs[i] != []
    decreases |lines|
  {
    if lines == [] then []
    else
      var k := EntryLen(lines);
      [lines[..k]] + Chunks(lines[k..])
  }

  function Flatten(cs: seq<seq<string>>): seq<string> {
    if cs == [] then [] else cs[0] + Flatten(cs[1..])
  }

  function EntryOf(c: seq<string>, off: nat): Entry
    requires c != []
  {
    var k := KindOf(c[0]);
    Entry(k, off, off + |c| - 1, TokensOf(c, off), k.Record? && !LeadingSpace(c[0]), NetDepth(c))
  }

  function EntriesOf(cs: seq<seq<string>>, off: nat): (es: seq<Entry>)
    requires forall i :: 0 <= i < |cs| ==> cs[i] != []
    ensures |es| == |cs|
  {
    if cs == [] then [] else [EntryOf(cs[0], off)] + EntriesOf(cs[1..], off + |cs[0]|)
  }

  lemma {:induction false} FlattenChunks(lines: seq<string>)
    ensures Flatten(Chunks(lines)) == lines
    decreases |lines|
  {
    if lines != [] {
      var k := EntryLen(lines);
      FlattenChunks(lines[k..]);
      var cs := Chunks(lines);
      assert cs[1..] == Chunks(lines[k..]);
      assert lines == lines[..k] + lines[k..];
    }
  }

  lemma {:induction false} MoreDepths(c: seq<string>, rest: seq<string>, k: nat)
    requires More(rest, NetDepth(c)) >= k
    ensures k <= |rest| && (k < More(rest, NetDepth(c)) ==> NetDepth(c + rest[..k]) > 0)
    ensures k == More(rest, NetDepth(c)) < |rest| ==> NetDepth(c + rest[..k]) <= 0
    decreases k
  {
    if k == 0 {
      assert c + rest[..0] == c;
    } else {
      NetDepthAppend(c, rest[0]);
      MoreDepths(c + [rest[0]], rest[1..], k - 1);
      assert c + [rest[0]] + rest[1..][..k - 1] == c + rest[..k];
    }
  }

  /**
   * An entry that is not a record is one line; a record's parentheses are open after each of its
   * lines but the last, and closed after that, unless the file ends first.
   */
  lemma {:induction false} ChunkDepths(lines: seq<string>, i: nat, k: nat)
    requires i < |Chunks(lines)| && 0 < k <= |Chunks(lines)[i]|
    ensures var c := Chunks(lines)[i];
            && (!KindOf(c[0]).Record? ==> |c| == 1)
            && (k < |c| ==> NetDepth(c[..k]) > 0)
            && (KindOf(c[0]).Record? && i + 1 < |Chunks(lines)| ==> NetDepth(c) <= 0)
    decreases |lines|
  {
    var n := EntryLen(lines);
    if i > 0 {
      ChunkDepths(lines[n..], i - 1, k);
    } else {
      var c, rest := lines[..1], lines[1..];
      assert NetDepth(c) == Delta(lines[0]) + NetDepth([]);
      if KindOf(lines[0]).Record? {
        MoreDepths(c, rest, k - 1);
        MoreDepths(c, rest, n - 1);
        assert c + rest[..k - 1] == lines[..k] && c + rest[..n - 1] == lines[..n];
        assert lines[..n][..k] == lines[..k];
      }
    }
  }

  function Entries(lines: seq<string>): seq<Entry> {
    EntriesOf(Chunks(lines), 0)
  }

  lemma {:induction false} NetDepthAppend(c: seq<string>, l: string)
    ensures NetDepth(c + [l]) == NetDepth(c) + Delta(l)
  {
    if c == [] {
    } else {
      NetDepthAppend(c[1..], l);
      assert (c + [l])[1..] == c[1..] + [l];
    }
  }

  lemma Assoc<T>(a: seq<T>, b: seq<T>, c: seq<T>)
    ensures a + (b + c) == (a + b) + c
  {
  }

  lemma {:induction false} TokensAppend(c: seq<string>, l: string, off: nat)
    ensures TokensOf(c + [l], off) == TokensOf(c, off) + Toks(l, off + |c|)
  {
    if c == [] {
      assert c + [l] == [l];
    } else {
      TokensAppend(c[1..], l, off + 1);
      assert (c + [l])[0] == c[0] && (c + [l])[1..] == c[1..] + [l];
      Assoc(Toks(c[0], off), TokensOf(c[1..], off + 1), Toks(l, off + |c|));
    }
  }

  lemma {:induction false} RowIrrelevant(line: string, i: nat, row: nat, row': nat)
    requires i <= |line|
    ensures var a, b := Scan(line, i, row), Scan(line, i, row');
            && a.delta == b.delta && |a.toks| == |b.toks|
            && (forall k :: 0 <= k < |a.toks| ==> a.toks[k].(line := row') == b.toks[k])
    decreases |line| - i
  {
    if i == |line| || line[i] == ';' {
    } else if IsStop(line[i]) {
      RowIrrelevant(line, i + 1, row, row');
    } else {
      RowIrrelevant(line, TokEnd(line, i, false), row, row');
    }
  }

  lemma EntriesStep(lines: seq<string>, i: nat)
    requires i < |lines|
    ensures var k := EntryLen(lines[i..]);
            EntriesOf(Chunks(lines[i..]), i)
            == [EntryOf(lines[i..i + k], i)] + EntriesOf(Chunks(lines[i + k..]), i + k)
  {
    var k := EntryLen(lines[i..]);
    assert lines[i..][..k] == lines[i..i + k];
    assert lines[i..][k..] == lines[i + k..];
    assert Chunks(lines[i..])[1..] == Chunks(lines[i + k..]);
  }

  lemma EntriesTake(lines: seq<string>, i: nat, e: Entry, out: seq<Entry>)
    requires i < |lines| && e == EntryOf(lines[i..i + EntryLen(lines[i..])], i)
    requires e.end + 1 == i + EntryLen(lines[i..])
    ensures out + EntriesFrom(lines, i) == (out + [e]) + EntriesFrom(lines, e.end + 1)
  {
    EntriesStep(lines, i);
    Regroup(out, e, EntriesFrom(lines, i + EntryLen(lines[i..])));
  }

  lemma Regroup(a: seq<Entry>, e: Entry, b: seq<Entry>)
    ensures a + ([e] + b) == (a + [e]) + b
  {
  }

  /** The inner loop of `tokenizeEntries`: take lines while parentheses are open. */
  method TakeRecord(lines: seq<string>, start: nat, toks: seq<Tok>, delta: int)
    returns (j: nat, all: seq<Tok>, depth: int)
    requires start < |lines|
    requires toks == Toks(lines[start], start) && delta == Delta(lines[start])
    ensures start <= j < |lines| && j + 1 == start + 1 + More(lines[start + 1..], delta)
    ensures all == TokensOf(lines[start..j + 1], start)
    ensures depth == NetDepth(lines[start..j + 1])
  {
    j, all, depth := start, toks, delta;
    assert lines[start..start + 1] == [lines[start]];
    assert TokensOf([lines[start]], start) == toks + TokensOf([], start + 1);
    while depth > 0 && j + 1 < |lines|
      invariant start <= j < |lines|
      invariant j - start + More(lines[j + 1..], depth) == More(lines[start + 1..], delta)
      invariant all == TokensOf(lines[start..j + 1], start)
      invariant depth == NetDepth(lines[start..j + 1])
      decreases |lines| - j
    {
      j := j + 1;
      var t2, d2, _ := ScanLine(lines[j], j);
      RowIrrelevant(lines[j], 0, j, 0);
      TokensAppend(lines[start..j], lines[j], start);
      NetDepthAppend(lines[start..j], lines[j]);
      assert lines[start..j] + [lines[j]] == lines[start..j + 1];
      assert lines[j..][1..] == lines[j + 1..];
      all := all + t2;
      depth := depth + d2;
    }
  }

  lemma OneLineEntry(l: string, i: nat)
    ensures TokensOf([l], i) == Toks(l, i)
    ensures NetDepth([l]) == Delta(l) == Scan(l, 0, i).delta
    ensures (Toks(l, i) == []) == (Toks(l, 0) == [])
    ensures Toks(l, i) != [] ==> Toks(l, i)[0].text == Toks(l, 0)[0].text
  {
    RowIrrelevant(l, 0, i, 0);
    assert TokensOf([l], i) == Toks(l, i) + TokensOf([], i + 1);
  }

  /** One turn of the outer loop of `tokenizeEntries`: the entry that starts on line `i`. */
  method NextEntry(lines: seq<string>, i: nat) returns (e: Entry)
    requires i < |lines|
    ensures e == EntryOf(lines[i..i + EntryLen(lines[i..])], i)
    ensures e.end + 1 == i + EntryLen(lines[i..])
  {
    OneLineEntry(lines[i], i);
    assert lines[i..i + 1] == [lines[i]];
    var toks, delta, leadWS := ScanLine(lines[i], i);
    if |toks| == 0 {
      return Entry(BlankLine, i, i, toks, false, delta);
    }
    var dir := DirectiveOf(toks[0].text);
    if dir.Some? {
      return Entry(Directive(dir.value), i, i, toks, false, delta);
    }
    var j, all, depth := TakeRecord(lines, i, toks, delta);
    assert lines[i..][1..] == lines[i + 1..];
    e := Entry(Record, i, j, all, !leadWS, depth);
  }

  /** The entries from line `i` on. */
  function EntriesFrom(lines: seq<string>, i: nat): seq<Entry>
    requires i <= |lines|
  {
    EntriesOf(Chunks(lines[i..]), i)
  }

  lemma EntriesEnds(lines: seq<string>)
    ensures EntriesFrom(lines, 0) == Entries(lines)
    ensures EntriesFrom(lines, |lines|) == []
  {
    assert lines[0..] == lines;
  }

  /** The grouping loop of `tokenizeEntries` computes `Entries`. */
  method TokenizeEntries(lines: seq<string>) returns (out: seq<Entry>)
    ensures out == Entries(lines)
  {
    out := [];
    var i := 0;
    EntriesEnds(lines);
    while i < |lines|
      invariant 0 <= i <= |lines|
      invariant Entries(lines) == out + EntriesFrom(lines, i)
    {
      var e := NextEntry(lines, i);
      EntriesTake(lines, i, e, out);
      out := out + [e];
      i := e.end + 1;
    }
  }

  lemma {:induction false} TokenPlaced(c: seq<string>, off: nat, k: nat)
    requires k < |TokensOf(c, off)|
    ensures var t := TokensOf(c, off)[k];
            off <= t.line < off + |c| && t.start <= t.end <= |c[t.line - off]|
  {
    var n := |Toks(c[0], off)|;
    if k < n {
      ScanPlaces(c[0], 0, off);
    } else {
      TokenPlaced(c[1..], off + 1, k - n);
    }
  }

  /** Each token of the entry lies on one of its lines. */
  ghost predicate TokensInside(e: Entry) {
    forall k :: 0 <= k < |e.toks| ==> e.start <= e.toks[k].line <= e.end
  }

  lemma EntryTokensInside(c: seq<string>, off: nat)
    requires c != []
    ensures TokensInside(EntryOf(c, off))
  {
    var e := EntryOf(c, off);
    forall k | 0 <= k < |e.toks| ensures e.start <= e.toks[k].line <= e.end {
      TokenPlaced(c, off, k);
    }
  }

  lemma {:induction false} EntriesCover(cs: seq<seq<string>>, off: nat)
    requires forall i :: 0 <= i < |cs| ==> cs[i] != []
    ensures var es := EntriesOf(cs, off);
            && (es != [] ==> es[0].start == off && es[|es| - 1].end == off + |Flatten(cs)| - 1)
            && (forall i :: 0 <= i < |es| ==> off <= es[i].start <= es[i].end < off + |Flatten(cs)|)
            && (forall i :: 0 <= i < |es| - 1 ==> es[i + 1].start == es[i].end + 1)
            && (cs == [] ==> Flatten(cs) == [])
  {
    if cs != [] {
      EntriesCover(cs[1..], off + |cs[0]|);
    }
  }

  lemma {:induction false} EntriesHoldTokens(cs: seq<seq<string>>, off: nat, i: nat)
    requires (forall j :: 0 <= j < |cs| ==> cs[j] != []) && i < |cs|
    ensures TokensInside(EntriesOf(cs, off)[i])
    decreases i
  {
    if i == 0 {
      EntryTokensInside(cs[0], off);
    } else {
      EntriesHoldTokens(cs[1..], off + |cs[0]|, i - 1);
    }
  }

  /** Entries cover every line exactly once, in order, and each token lies on a line of its entry. */
  lemma EntriesPartition(cs: seq<seq<string>>, off: nat)
    requires forall i :: 0 <= i < |cs| ==> cs[i] != []
    ensures var es := EntriesOf(cs, off);
            && (es != [] ==> es[0].start == off && es[|es| - 1].end == off + |Flatten(cs)| - 1)
            && (forall i :: 0 <= i < |es| ==> off <= es[i].start <= es[i].end < off + |Flatten(cs)|)
            && (forall i :: 0 <= i < |es| - 1 ==> es[i + 1].start == es[i].end + 1)
            && (forall i :: 0 <= i < |es| ==> TokensInside(es[i]))
            && (cs == [] ==> Flatten(cs) == [])
  {
    EntriesCover(cs, off);
    forall i | 0 <= i < |cs| ensures TokensInside(EntriesOf(cs, off)[i]) {
      EntriesHoldTokens(cs, off, i);
    }
  }

  // ----- Chunks that are complete entries on their own -----

  predicate Closed(c: seq<string>) {
    c != [] && EntryLen(c) == |c| && (KindOf(c[0]).Record? ==> NetDepth(c) <= 0)
  }

  lemma {:induction false} MoreClosed(a: seq<string>, b: seq<string>, depth: int)
    requires More(a, depth) == |a| && depth + NetDepth(a) <= 0
    ensures More(a + b, depth) == |a|
  {
    if a == [] {
    } else {
      MoreClosed(a[1..], b, depth + Delta(a[0]));
      assert (a + b)[1..] == a[1..] + b;
    }
  }

  lemma ChunkSplitsOff(c: seq<string>, rest: seq<string>)
    requires Closed(c)
    ensures Chunks(c + rest) == [c] + Chunks(rest)
  {
    var all := c + rest;
    assert all[1..] == c[1..] + rest;
    if KindOf(c[0]).Record? {
      MoreClosed(c[1..], rest, Delta(c[0]));
    }
    assert EntryLen(all) == |c|;
    assert all[..|c|] == c && all[|c|..] == rest;
  }

  /** Regrouping complete entries finds the same entries again. */
  lemma {:induction false} ChunksFlatten(cs: seq<seq<string>>)
    requires forall i :: 0 <= i < |cs| ==> Closed(cs[i])
    ensures Chunks(Flatten(cs)) == cs
  {
    if cs != [] {
      ChunksFlatten(cs[1..]);
      ChunkSplitsOff(cs[0], Flatten(cs[1..]));
    }
  }

  lemma {:induction false} MoreSelf(rest: seq<string>, depth: int)
    ensures var k := More(rest, depth); More(rest[..k], depth) == k
  {
    if depth > 0 && rest != [] {
      MoreSelf(rest[1..], depth + Delta(rest[0]));
      var k := More(rest, depth);
      assert rest[..k][1..] == rest[1..][..k - 1];
    }
  }

  /** Every entry of a file whose records close their parentheses is complete on its own. */
  lemma {:induction false} ChunksClosed(lines: seq<string>)
    requires forall i :: 0 <= i < |Chunks(lines)| ==> NetDepth(Chunks(lines)[i]) <= 0
    ensures forall i :: 0 <= i < |Chunks(lines)| ==> Closed(Chunks(lines)[i])
    decreases |lines|
  {
    if lines != [] {
      var k := EntryLen(lines);
      var cs := Chunks(lines);
      assert cs[1..] == Chunks(lines[k..]);
      forall i | 0 <= i < |Chunks(lines[k..])|
        ensures NetDepth(Chunks(lines[k..])[i]) <= 0
      {
        assert cs[i + 1] == Chunks(lines[k..])[i];
      }
      ChunksClosed(lines[k..]);
      assert cs[0] == lines[..k];
      if KindOf(lines[0]).Record? {
        MoreSelf(lines[1..], Delta(lines[0]));
        assert lines[..k][1..] == lines[1..][..k - 1];
      }
      forall i | 0 <= i < |cs| ensures Closed(cs[i]) {
        if i > 0 {
          assert cs[i] == Chunks(lines[k..])[i - 1];
        }
      }
    }
  }
}
