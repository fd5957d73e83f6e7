/** Small zone files given line by line as tokens, and what the tokenizer and the reader make of them. */
module Samples {
  import opened Text
  import opened Tokenizer
  import opened Resolver
  import opened ZoneFile
  import opened Rescan
  import opened Printing
  import opened Surgery
  import opened EditTheorem

  // ----- Texts of one-line entries -----

  predicate PlainToken(t: string) {
    t != "" && ' ' !in t && '\t' !in t && '\r' !in t && ';' !in t && '(' !in t && ')' !in t && '"' !in t && '\n' !in t
  }

  predicate PlainRow(row: seq<string>) {
    row != [] && forall i :: 0 <= i < |row| ==> PlainToken(row[i])
  }

  predicate PlainRows(rows: seq<seq<string>>) {
    rows != [] && forall r :: 0 <= r < |rows| ==> PlainRow(rows[r])
  }

  /** The lines: the tokens of each row, separated by single spaces. */
  function LinesOfRows(rows: seq<seq<string>>): (r: seq<string>)
    ensures |r| == |rows| && forall i :: 0 <= i < |r| ==> r[i] == Spell(rows[i], 0)
  {
    seq(|rows|, i requires 0 <= i < |rows| => Spell(rows[i], 0))
  }

  function TextOfRows(rows: seq<seq<string>>): string {
    Join(LinesOfRows(rows))
  }

  /** A row as an entry: a directive, or a record that names its owner. */
  function RowItem(row: seq<string>): Item
    requires row != []
  {
    match DirectiveOf(row[0])
    case Some(d) => Item(Directive(d), false, row, 0)
    case None => Item(Record, true, row, 0)
  }

  function RowItems(rows: seq<seq<string>>): (r: seq<Item>)
    requires PlainRows(rows)
    ensures |r| == |rows| && forall i :: 0 <= i < |r| ==> r[i] == RowItem(rows[i])
  {
    seq(|rows|, i requires 0 <= i < |rows| => RowItem(rows[i]))
  }

  lemma {:induction false} TokEndPlain(t: string, rest: string, i: nat)
    requires PlainToken(t) && i <= |t| && rest != "" && IsStop(rest[0])
    ensures TokEnd(t + rest, i, false) == |t|
    decreases |t| - i
  {
    if i < |t| {
      assert (t + rest)[i] == t[i] && t[i] in t;
      TokEndPlain(t, rest, i + 1);
    } else {
      assert (t + rest)[i] == rest[0];
    }
  }

  lemma PlainWhole(t: string)
    requires PlainToken(t)
    ensures WholeToken(t)
  {
    TokEndPlain(t, " ", 0);
  }

  /** One row is one complete entry. */
  lemma RowChunk(row: seq<string>)
    requires PlainRow(row)
    ensures var l := Spell(row, 0);
            && NoNewline(l) && Closed([l]) && ChunkItem([l]) == RowItem(row)
            && KindOf(l) == RowItem(row).kind && Texts(Toks(l, 0)) == row && !LeadingSpace(l)
  {
    forall i | 0 <= i < |row| ensures WholeToken(row[i]) {
      PlainWhole(row[i]);
    }
    var l := Spell(row, 0);
    ScanSpell(row, 0, 0);
    assert Toks(l, 0)[0].text == row[0];
    assert [l][1..] == [];
    OneLineEntry(l, 0);
  }

  /** The text's lines, entries and items. */
  lemma RowsRead(rows: seq<seq<string>>)
    requires PlainRows(rows)
    ensures var text, lines := TextOfRows(rows), LinesOfRows(rows);
            && Split(text) == lines && Chunks(Split(text)) == Singles(lines)
            && FileItems(text) == RowItems(rows)
  {
    var lines := LinesOfRows(rows);
    forall i | 0 <= i < |lines| ensures NoNewline(lines[i]) && Closed([lines[i]])
      && ChunkItem([lines[i]]) == RowItem(rows[i]) {
      RowChunk(rows[i]);
    }
    SplitJoin(lines);
    FlattenSingles(lines);
    ChunksFlatten(Singles(lines));
  }

  lemma {:induction false} SingleEntries(lines: seq<string>, off: nat, i: nat)
    requires i < |lines|
    ensures |EntriesOf(Singles(lines), off)| == |lines|
    ensures EntriesOf(Singles(lines), off)[i] == EntryOf([lines[i]], off + i)
    decreases i
  {
    assert Singles(lines)[1..] == Singles(lines[1..]);
    if i > 0 {
      SingleEntries(lines[1..], off + 1, i - 1);
    }
  }

  /** Entry `i` is line `i`, with the row's tokens. */
  lemma RowEntry(rows: seq<seq<string>>, i: nat)
    requires PlainRows(rows) && i < |rows|
    ensures var es := Entries(Split(TextOfRows(rows)));
            && |es| == |rows| && es[i].start == es[i].end == i && es[i].kind == RowItem(rows[i]).kind
            && es[i].explicit == RowItem(rows[i]).explicit && Texts(es[i].toks) == rows[i]
  {
    RowsRead(rows);
    RowChunk(rows[i]);
    var l := LinesOfRows(rows)[i];
    SingleEntries(LinesOfRows(rows), 0, i);
    OneLineEntry(l, i);
    TextsOffset([l], i, 0);
    OneLineEntry(l, 0);
  }
}
