/**
 * Rescanning is stable: replacing one token by a run of digits changes that token's text
 * and nothing else, and fields that are whole tokens scan back to themselves.
 */
module Rescan {
  import opened Text
  import opened Tokenizer
  import opened Resolver
  import opened ZoneFile

  // ----- Scanning looks only at the rest of the line -----

  lemma {:induction false} TokEndShift(a: string, i: nat, b: string, j: nat, q: bool)
    requires i <= |a| && j <= |b| && a[i..] == b[j..]
    ensures TokEnd(a, i, q) - i == TokEnd(b, j, q) - j
    decreases |a| - i
  {
    assert |a| - i == |b| - j;
    if i < |a| {
      assert a[i] == a[i..][0] == b[j];
      assert a[i + 1..] == a[i..][1..] == b[j + 1..];
      if q || !IsStop(a[i]) {
        TokEndShift(a, i + 1, b, j + 1, if a[i] == '"' then !q else q);
      }
    }
  }

  ghost predicate Shifted(x: seq<Tok>, i: nat, y: seq<Tok>, j: nat) {
    && |x| == |y|
    && (forall k :: 0 <= k < |x| ==> x[k].start - i == y[k].start - j && x[k].end - i == y[k].end - j)
    && (forall k :: 0 <= k < |x| ==> x[k].text == y[k].text && x[k].line == y[k].line)
  }

  lemma {:induction false} ScanShift(a: string, i: nat, b: string, j: nat, row: nat)
    requires i <= |a| && j <= |b| && a[i..] == b[j..]
    ensures Scan(a, i, row).delta == Scan(b, j, row).delta
    ensures Shifted(Scan(a, i, row).toks, i, Scan(b, j, row).toks, j)
    decreases |a| - i
  {
    assert |a| - i == |b| - j;
    if i < |a| {
      assert a[i] == a[i..][0] == b[j];
      if a[i] == ';' {
      } else if IsStop(a[i]) {
        assert a[i + 1..] == a[i..][1..] == b[j + 1..];
        ScanShift(a, i + 1, b, j + 1, row);
      } else {
        TokEndShift(a, i, b, j, false);
        var e, e' := TokEnd(a, i, false), TokEnd(b, j, false);
        assert a[e..] == a[i..][e - i..] == b[e'..];
        assert a[i..e] == a[i..][..e - i] == b[j..e'];
        ScanShift(a, e, b, e', row);
      }
    }
  }

  lemma {:induction false} TokEndPrefix(a: string, b: string, i: nat, q: bool, m: nat)
    requires i <= |a| && m <= |a| && m <= |b| && a[..m] == b[..m]
    requires TokEnd(a, i, q) < m
    ensures i <= |b| && TokEnd(b, i, q) == TokEnd(a, i, q)
    decreases |a| - i
  {
    assert a[i] == a[..m][i] == b[i];
    if q || !IsStop(a[i]) {
      TokEndPrefix(a, b, i + 1, if a[i] == '"' then !q else q, m);
    }
  }

  lemma {:induction false} TokEndRun(line: string, i: nat, j: nat)
    requires i <= j <= |line|
    requires forall k :: i <= k < j ==> IsDigit(line[k])
    requires j < |line| ==> line[j] != '"' && IsStop(line[j])
    ensures TokEnd(line, i, false) == j
    decreases j - i
  {
    if i < j {
      TokEndRun(line, i + 1, j);
    }
  }

  // ----- Replacing one token -----

  /** Rewriting token `k` of the scan from column `i` changes that token's text only. */
  ghost predicate Replaces(line: string, i: nat, k: nat, text: string, row: nat)
    requires i <= |line| && k < |Scan(line, i, row).toks|
  {
    var toks := Scan(line, i, row).toks;
    var t := toks[k];
    && i <= t.start < t.end <= |line|
    && var line' := Splice(line, t.start, t.end, text);
    && i <= |line'|
    && Scan(line', i, row).delta == Scan(line, i, row).delta
    && Texts(Scan(line', i, row).toks) == Texts(toks)[k := text]
  }

  lemma ReplaceFirst(line: string, i: nat, text: string, row: nat)
    requires i < |line| && !IsStop(line[i])
    requires text != "" && AllDigits(text)
    ensures Replaces(line, i, 0, text, row)
  {
    var e := TokEnd(line, i, false);
    TokEndStops(line, i, false);
    var line' := Splice(line, i, e, text);
    var e' := i + |text|;
    assert line'[e'..] == line[e..];
    assert e' < |line'| ==> line'[e'] == line'[e'..][0] == line[e];
    assert forall x :: i <= x < e' ==> line'[x] == text[x - i];
    TokEndRun(line', i, e');
    assert line'[i..e'] == text;
    ScanShift(line, e, line', e', row);
    var r, r' := Scan(line, e, row).toks, Scan(line', e', row).toks;
    assert line'[i] == text[0];
    assert Scan(line', i, row).toks == [Tok(row, i, e', text)] + r';
  }

  /** The token before another ends before it starts, and is scanned alike in the rewritten line. */
  lemma ReplaceSkipsToken(line: string, i: nat, k: nat, text: string, row: nat)
    requires i < |line| && !IsStop(line[i])
    requires 0 < k < |Scan(line, i, row).toks|
    requires Replaces(line, TokEnd(line, i, false), k - 1, text, row)
    ensures Replaces(line, i, k, text, row)
  {
    var e := TokEnd(line, i, false);
    var rest := Scan(line, e, row).toks;
    var toks := Scan(line, i, row).toks;
    var t := toks[k];
    assert toks == [Tok(row, i, e, line[i..e])] + rest;
    assert t == rest[k - 1];
    TokEndStops(line, i, false);
    ScanPlaces(line, e, row);
    var line' := Splice(line, t.start, t.end, text);
    assert line'[..t.start] == line[..t.start];
    TokEndPrefix(line, line', i, false, t.start);
    assert line'[i] == line'[..t.start][i] == line[i];
    assert line'[i..e] == line'[..t.start][i..e] == line[i..e];
    assert Scan(line', i, row).toks == [Tok(row, i, e, line[i..e])] + Scan(line', e, row).toks;
  }

  lemma {:induction false} ScanReplace(line: string, i: nat, k: nat, text: string, row: nat)
    requires i <= |line| && k < |Scan(line, i, row).toks|
    requires text != "" && AllDigits(text)
    ensures Replaces(line, i, k, text, row)
    decreases |line| - i
  {
    if IsStop(line[i]) {
      ScanPlaces(line, i, row);
      ScanReplace(line, i + 1, k, text, row);
      var t := Scan(line, i, row).toks[k];
      var line' := Splice(line, t.start, t.end, text);
      assert line'[i] == line[i];
    } else if k == 0 {
      ReplaceFirst(line, i, text, row);
    } else {
      ScanReplace(line, TokEnd(line, i, false), k - 1, text, row);
      ReplaceSkipsToken(line, i, k, text, row);
    }
  }

  // ----- Replacing one token of an entry -----

  lemma TextsConcat(a: seq<Tok>, b: seq<Tok>)
    ensures Texts(a + b) == Texts(a) + Texts(b)
  {
  }

  /** Entry `c'` is `c` with token `idx` rewritten: same nesting, same first line otherwise. */
  ghost predicate RewrittenTo(c: seq<string>, c': seq<string>, off: nat, idx: nat, text: string)
    requires idx < |TokensOf(c, off)| && c != [] && |c'| == |c|
  {
    && Texts(TokensOf(c', off)) == Texts(TokensOf(c, off))[idx := text]
    && (forall l :: 0 <= l < |c| ==> Delta(c'[l]) == Delta(c[l]))
    && NetDepth(c') == NetDepth(c)
    && LeadingSpace(c'[0]) == LeadingSpace(c[0])
    && Texts(Toks(c'[0], off)) ==
       (if idx < |Toks(c[0], off)| then Texts(Toks(c[0], off))[idx := text] else Texts(Toks(c[0], off)))
  }

  /** Where token `idx` of an entry is, and what rewriting it does to the entry. */
  ghost predicate Rewrites(c: seq<string>, off: nat, idx: nat, text: string)
    requires idx < |TokensOf(c, off)|
  {
    var t := TokensOf(c, off)[idx];
    && off <= t.line < off + |c|
    && t.start < t.end <= |c[t.line - off]|
    && RewrittenTo(c, c[t.line - off := Splice(c[t.line - off], t.start, t.end, text)], off, idx, text)
  }

  lemma TokensHead(c: seq<string>, off: nat)
    requires c != []
    ensures Texts(TokensOf(c, off)) == Texts(Toks(c[0], off)) + Texts(TokensOf(c[1..], off + 1))
    ensures NetDepth(c) == Delta(c[0]) + NetDepth(c[1..])
  {
    TextsConcat(Toks(c[0], off), TokensOf(c[1..], off + 1));
  }

  /** A token does not start on a blank, a parenthesis or a comment. */
  lemma {:induction false} ScanStartsOutside(line: string, i: nat, row: nat, k: nat)
    requires i <= |line| && k < |Scan(line, i, row).toks|
    ensures var t := Scan(line, i, row).toks[k]; t.start < |line| && !IsStop(line[t.start])
    decreases |line| - i
  {
    if IsStop(line[i]) {
      ScanStartsOutside(line, i + 1, row, k);
    } else if k > 0 {
      ScanStartsOutside(line, TokEnd(line, i, false), row, k - 1);
    }
  }

  /** One token of one line rewritten. */
  lemma RewriteLine(line: string, off: nat, idx: nat, text: string)
    requires idx < |Toks(line, off)| && text != "" && AllDigits(text)
    ensures var t := Toks(line, off)[idx];
            && t.line == off && t.start < t.end <= |line|
            && var line' := Splice(line, t.start, t.end, text);
            && Texts(Toks(line', off)) == Texts(Toks(line, off))[idx := text]
            && Scan(line', 0, off).delta == Scan(line, 0, off).delta
            && LeadingSpace(line') == LeadingSpace(line)
  {
    ScanPlaces(line, 0, off);
    ScanReplace(line, 0, idx, text, off);
    var t := Toks(line, off)[idx];
    var line' := Splice(line, t.start, t.end, text);
    if t.start == 0 {
      ScanStartsOutside(line, 0, off, idx);
      assert line'[0] == text[0];
    } else {
      assert line'[0] == line[0];
    }
  }

  lemma DeltaAnyRow(line: string, off: nat)
    ensures Scan(line, 0, off).delta == Delta(line)
  {
    RowIrrelevant(line, 0, off, 0);
  }

  /** The entry's first line rewritten, the others kept. */
  lemma HeadRewritten(c: seq<string>, l': string, off: nat, idx: nat, text: string)
    requires c != [] && idx < |Toks(c[0], off)| && idx < |TokensOf(c, off)|
    requires Texts(Toks(l', off)) == Texts(Toks(c[0], off))[idx := text]
    requires Delta(l') == Delta(c[0]) && LeadingSpace(l') == LeadingSpace(c[0])
    ensures RewrittenTo(c, c[0 := l'], off, idx, text)
  {
    var c' := c[0 := l'];
    assert c'[0] == l' && c'[1..] == c[1..];
    TokensHead(c, off);
    TokensHead(c', off);
    UpdateHead(Texts(Toks(c[0], off)), Texts(TokensOf(c[1..], off + 1)), idx, text);
  }

  lemma UpdateHead(a: seq<string>, b: seq<string>, i: nat, x: string)
    requires i < |a|
    ensures a[i := x] + b == (a + b)[i := x]
  {
  }

  lemma TokenOfHead(c: seq<string>, off: nat, idx: nat)
    requires c != [] && idx < |Toks(c[0], off)|
    ensures idx < |TokensOf(c, off)| && TokensOf(c, off)[idx] == Toks(c[0], off)[idx]
  {
  }

  lemma RewriteFirstLine(c: seq<string>, off: nat, idx: nat, text: string)
    requires c != [] && idx < |Toks(c[0], off)| && idx < |TokensOf(c, off)|
    requires text != "" && AllDigits(text)
    ensures Rewrites(c, off, idx, text)
  {
    RewriteLine(c[0], off, idx, text);
    TokenOfHead(c, off, idx);
    var t := Toks(c[0], off)[idx];
    var l' := Splice(c[0], t.start, t.end, text);
    DeltaAnyRow(c[0], off);
    DeltaAnyRow(l', off);
    HeadRewritten(c, l', off, idx, text);
  }

  /** A later line rewritten, the first kept. */
  lemma TailRewritten(c: seq<string>, c': seq<string>, off: nat, idx: nat, text: string)
    requires c != [] && |c'| == |c| && c'[0] == c[0]
    requires |Toks(c[0], off)| <= idx < |Texts(TokensOf(c, off))|
    requires idx - |Toks(c[0], off)| < |Texts(TokensOf(c[1..], off + 1))|
    requires Texts(TokensOf(c'[1..], off + 1)) == Texts(TokensOf(c[1..], off + 1))[idx - |Toks(c[0], off)| := text]
    requires NetDepth(c'[1..]) == NetDepth(c[1..])
    ensures Texts(TokensOf(c', off)) == Texts(TokensOf(c, off))[idx := text]
    ensures NetDepth(c') == NetDepth(c)
  {
    TokensHead(c, off);
    TokensHead(c', off);
  }

  lemma DeltasTail(c: seq<string>, c': seq<string>)
    requires c != [] && |c'| == |c| && c'[0] == c[0]
    requires forall l :: 0 <= l < |c[1..]| ==> Delta(c'[1..][l]) == Delta(c[1..][l])
    ensures forall l :: 0 <= l < |c| ==> Delta(c'[l]) == Delta(c[l])
  {
    forall l | 0 <= l < |c| ensures Delta(c'[l]) == Delta(c[l]) {
      if l > 0 {
        assert c'[l] == c'[1..][l - 1] && c[l] == c[1..][l - 1];
      }
    }
  }

  lemma {:induction false} RewriteChunk(c: seq<string>, off: nat, idx: nat, text: string)
    requires idx < |TokensOf(c, off)|
    requires text != "" && AllDigits(text)
    ensures Rewrites(c, off, idx, text)
  {
    var n := |Toks(c[0], off)|;
    if idx < n {
      RewriteFirstLine(c, off, idx, text);
    } else {
      RewriteChunk(c[1..], off + 1, idx - n, text);
      RewriteLater(c, off, idx, text);
    }
  }

  lemma RewriteLater(c: seq<string>, off: nat, idx: nat, text: string)
    requires idx < |TokensOf(c, off)| && |Toks(c[0], off)| <= idx
    requires idx - |Toks(c[0], off)| < |TokensOf(c[1..], off + 1)|
    requires Rewrites(c[1..], off + 1, idx - |Toks(c[0], off)|, text)
    ensures Rewrites(c, off, idx, text)
  {
    var t := TokensOf(c, off)[idx];
    assert t == TokensOf(c[1..], off + 1)[idx - |Toks(c[0], off)|];
    var l := t.line - off;
    var line := Splice(c[l], t.start, t.end, text);
    var c' := c[l := line];
    assert c[1..][l - 1] == c[l];
    assert c'[1..] == c[1..][l - 1 := line];
    TailRewritten(c, c', off, idx, text);
    DeltasTail(c, c');
  }

  lemma {:induction false} MoreSame(a: seq<string>, b: seq<string>, depth: int)
    requires |a| == |b| && forall i :: 0 <= i < |a| ==> Delta(a[i]) == Delta(b[i])
    ensures More(a, depth) == More(b, depth)
  {
    if depth > 0 && a != [] {
      MoreSame(a[1..], b[1..], depth + Delta(a[0]));
    }
  }

  // ----- Entries as items -----

  function ChunkItem(c: seq<string>): Item
    requires c != []
  {
    ItemOf(EntryOf(c, 0))
  }

  function ChunkItems(cs: seq<seq<string>>): (r: seq<Item>)
    requires forall i :: 0 <= i < |cs| ==> cs[i] != []
    ensures |r| == |cs|
    ensures forall i :: 0 <= i < |cs| ==> r[i] == ChunkItem(cs[i])
  {
    seq(|cs|, i requires 0 <= i < |cs| => ChunkItem(cs[i]))
  }

  lemma {:induction false} TextsOffset(c: seq<string>, off: nat, off': nat)
    ensures Texts(TokensOf(c, off)) == Texts(TokensOf(c, off'))
  {
    if c != [] {
      RowIrrelevant(c[0], 0, off, off');
      TextsOffset(c[1..], off + 1, off' + 1);
      TextsConcat(Toks(c[0], off), TokensOf(c[1..], off + 1));
      TextsConcat(Toks(c[0], off'), TokensOf(c[1..], off' + 1));
    }
  }

  lemma {:induction false} ItemsOfEntries(cs: seq<seq<string>>, off: nat)
    requires forall i :: 0 <= i < |cs| ==> cs[i] != []
    ensures Items(EntriesOf(cs, off)) == ChunkItems(cs)
  {
    if cs != [] {
      ItemsOfEntries(cs[1..], off + |cs[0]|);
      TextsOffset(cs[0], off, 0);
      var es := EntriesOf(cs, off);
      assert es[1..] == EntriesOf(cs[1..], off + |cs[0]|);
      forall i | 0 <= i < |cs| ensures Items(es)[i] == ChunkItems(cs)[i] {
        if i > 0 {
          assert es[i] == es[1..][i - 1];
          assert Items(es[1..])[i - 1] == ChunkItems(cs[1..])[i - 1];
        }
      }
    }
  }

  /** Rewriting a token other than the first leaves the line's kind alone. */
  lemma SameKind(l: string, l': string, off: nat, idx: nat, text: string)
    requires idx > 0 && KindOf(l).Record?
    requires Texts(Toks(l', off))
             == (if idx < |Toks(l, off)| then Texts(Toks(l, off))[idx := text] else Texts(Toks(l, off)))
    ensures KindOf(l') == KindOf(l)
  {
    RowIrrelevant(l, 0, off, 0);
    RowIrrelevant(l', 0, off, 0);
    assert Toks(l, 0) != [];
    assert Toks(l', 0)[0].text == Texts(Toks(l', off))[0] == Texts(Toks(l, off))[0] == Toks(l, 0)[0].text;
  }

  lemma StaysClosed(c: seq<string>, c': seq<string>)
    requires Closed(c) && |c'| == |c| && KindOf(c'[0]) == KindOf(c[0]) && NetDepth(c') == NetDepth(c)
    requires forall l :: 0 <= l < |c| ==> Delta(c'[l]) == Delta(c[l])
    ensures Closed(c')
  {
    assert forall l :: 0 <= l < |c[1..]| ==> c'[1..][l] == c'[l + 1] && c[1..][l] == c[l + 1];
    MoreSame(c[1..], c'[1..], Delta(c[0]));
  }

  /** Rewriting a token after the first leaves the entry complete and its item otherwise the same. */
  lemma RewriteKeepsEntry(c: seq<string>, off: nat, idx: nat, text: string)
    requires Closed(c) && KindOf(c[0]).Record?
    requires 0 < idx < |TokensOf(c, off)|
    requires text != "" && AllDigits(text)
    ensures var t := TokensOf(c, off)[idx];
            && off <= t.line < off + |c|
            && t.start < t.end <= |c[t.line - off]|
            && var c' := c[t.line - off := Splice(c[t.line - off], t.start, t.end, text)];
            && Closed(c')
            && idx < |ChunkItem(c).texts| && ChunkItem(c') == ChunkItem(c).(texts := ChunkItem(c).texts[idx := text])
  {
    RewriteChunk(c, off, idx, text);
    var t := TokensOf(c, off)[idx];
    var c' := c[t.line - off := Splice(c[t.line - off], t.start, t.end, text)];
    TextsOffset(c, off, 0);
    TextsOffset(c', off, 0);
    SameKind(c[0], c'[0], off, idx, text);
    StaysClosed(c, c');
  }
}
