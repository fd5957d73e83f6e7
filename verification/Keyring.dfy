/**
 * The TSIG keyring of internal/tsig: reading key blocks with the three patterns of `Parse`,
 * writing them with `Render`, and what a rotation (cmd/goddns/rotatekey.go) changes.
 */
module Keyring {
  import opened Text
  import opened Sorting

  datatype Key = Key(name: string, algo: string, secret: string)

  // ----- The patterns -----

  predicate IsSpace(c: char) {
    c == ' ' || c == '\t' || c == '\n' || c == '\r' || c == '\U{0c}'
  }

  predicate NotQuote(c: char) {
    c != '\"'
  }

  predicate NotBrace(c: char) {
    c != '}'
  }

  predicate AlgoChar(c: char) {
    'A' <= c <= 'Z' || 'a' <= c <= 'z' || '0' <= c <= '9' || c == '-'
  }

  predicate All(ok: char -> bool, s: string) {
    forall i :: 0 <= i < |s| ==> ok(s[i])
  }

  /** The longest prefix of accepted characters. */
  function Span(ok: char -> bool, s: string): (n: nat)
    ensures n <= |s| && All(ok, s[..n]) && (n < |s| ==> !ok(s[n]))
  {
    if s == "" || !ok(s[0]) then 0
    else
      var n := 1 + Span(ok, s[1..]);
      assert s[..n] == [s[0]] + s[1..][..n - 1];
      n
  }

  datatype Match = Match(text: string, rest: string)

  function Lit(p: string, s: string): Option<string> {
    if p <= s then Some(s[|p|..]) else None
  }

  function Many(ok: char -> bool, s: string): Match {
    var n := Span(ok, s);
    Match(s[..n], s[n..])
  }

  function Some1(ok: char -> bool, s: string): Option<Match> {
    if Many(ok, s).text == "" then None else Some(Many(ok, s))
  }

  function Maybe(p: string, s: string): string {
    if p <= s then s[|p|..] else s
  }

  datatype Block = Block(name: string, body: string, rest: string)

  /** `key`, blanks, a quoted name. */
  function NameAt(s: string): (r: Option<Match>)
    ensures r.Some? ==> |r.value.rest| < |s|
  {
    var s :- Lit("key", s);
    var gap :- Some1(IsSpace, s);
    var s :- Lit("\"", gap.rest);
    var name :- Some1(NotQuote, s);
    var s :- Lit("\"", name.rest);
    Some(Match(name.text, s))
  }

  /** Blanks and a braced body, up to the first closing brace. */
  function BodyAt(s: string): (r: Option<Match>)
    ensures r.Some? ==> |r.value.rest| < |s|
  {
    var s :- Lit("{", Many(IsSpace, s).rest);
    var body := Many(NotBrace, s);
    var s :- Lit("}", body.rest);
    Some(Match(body.text, s))
  }

  /**
   * The block pattern at one position. Each run is followed by a character it cannot hold, so
   * taking the longest run (or, for the body, the shortest) needs no backtracking.
   */
  function BlockAt(s: string): (r: Option<Block>)
    ensures r.Some? ==> |r.value.rest| < |s|
  {
    var name :- NameAt(s);
    var body :- BodyAt(name.rest);
    Some(Block(name.text, body.text, body.rest))
  }

  function AlgoAt(s: string): Option<string> {
    var s :- Lit("algorithm", s);
    var gap :- Some1(IsSpace, s);
    AlgoField(gap.rest)
  }

  /** An algorithm, quoted or not, and a semicolon. */
  function AlgoField(s: string): Option<string> {
    var algo :- Some1(AlgoChar, Maybe("\"", s));
    var s :- Lit(";", Many(IsSpace, Maybe("\"", algo.rest)).rest);
    Some(algo.text)
  }

  function SecretAt(s: string): Option<string> {
    var s :- Lit("secret", s);
    var m :- Some1(IsSpace, s);
    var s :- Lit("\"", m.rest);
    var secret :- Some1(NotQuote, s);
    var s :- Lit("\"", secret.rest);
    Some(secret.text)
  }

  /** The leftmost match. */
  function FindFirst(at: string -> Option<string>, s: string): Option<string> {
    if at(s).Some? then at(s) else if s == "" then None else FindFirst(at, s[1..])
  }

  /** All matches of the block pattern, leftmost first, without overlap. */
  function FindBlocks(s: string): seq<Block>
    decreases |s|
  {
    if s == "" then []
    else
      match BlockAt(s)
      case None => FindBlocks(s[1..])
      case Some(b) => [b] + FindBlocks(b.rest)
  }

  function OrEmpty(o: Option<string>): string {
    if o.Some? then o.value else ""
  }

  function KeyOf(b: Block): Key {
    Key(TrimDot(b.name), OrEmpty(FindFirst(AlgoAt, b.body)), OrEmpty(FindFirst(SecretAt, b.body)))
  }

  lemma ImageConcat<A, B>(f: A -> B, s: seq<A>, t: seq<A>)
    ensures Image(f, s + t) == Image(f, s) + Image(f, t)
  {
  }

  function Parsed(data: string): seq<Key> {
    Image(KeyOf, FindBlocks(data))
  }

  method ReadKey(b: Block) returns (k: Key)
    ensures k == KeyOf(b)
  {
    k := Key(TrimDot(b.name), "", "");
    var a := FindFirst(AlgoAt, b.body);
    if a.Some? {
      k := k.(algo := a.value);
    }
    var s := FindFirst(SecretAt, b.body);
    if s.Some? {
      k := k.(secret := s.value);
    }
  }

  lemma ImageStep<A, B>(f: A -> B, s: seq<A>, i: nat)
    requires i < |s|
    ensures Image(f, s[..i + 1]) == Image(f, s[..i]) + [f(s[i])]
    ensures Image(f, s[..|s|]) == Image(f, s)
  {
    assert s[..|s|] == s;
  }

  method ReadKeys(blocks: seq<Block>) returns (keys: seq<Key>)
    ensures keys == Image(KeyOf, blocks)
  {
    keys := [];
    for i := 0 to |blocks|
      invariant keys == Image(KeyOf, blocks[..i])
    {
      ImageStep(KeyOf, blocks, i);
      var k := ReadKey(blocks[i]);
      keys := keys + [k];
    }
    assert blocks[..|blocks|] == blocks;
  }

  /** `Parse`. */
  method Parse(data: string) returns (keys: seq<Key>)
    ensures keys == Parsed(data)
  {
    keys := ReadKeys(FindBlocks(data));
  }

  // ----- Writing -----

  /** The comment `Render` starts with, around the one `k` in it. */
  const HEADER := BEFORE_K + ("k" + AFTER_K)
  const BEFORE_K := "// Managed by" + (" goddns (rot" + ("ate with `go" + "ddns rotate-"))
  const AFTER_K := "ey`" + ("). Included " + ("once by name" + "d.conf.\n"))

  function AlgoOf(k: Key): string {
    if k.algo == "" then "hmac-sha256" else k.algo
  }

  function SecretLine(secret: string): string {
    "secret" + (" " + ("\"" + (secret + ("\"" + ";\n"))))
  }

  /** Between the braces: a line for the algorithm and one for the secret, both indented. */
  function Body(algo: string, secret: string): string {
    "\n\t" + ("algorithm" + (" " + (algo + (";" + ("\n\t" + SecretLine(secret))))))
  }

  /** A key's block, and what follows it. */
  function Write(k: Key, rest: string): string {
    "key" + (" " + ("\"" + (TrimDot(k.name) + ("\""
      + (" " + ("{" + (Body(AlgoOf(k), k.secret) + ("}" + (";\n" + rest)))))))))
  }

  function WriteAll(keys: seq<Key>): string {
    if keys == [] then "" else Write(keys[0], WriteAll(keys[1..]))
  }

  function Rendered(keys: seq<Key>): string {
    HEADER + WriteAll(keys)
  }

  lemma AppendPast(p: string, a: string, rest: string)
    ensures p + (a + rest) == (p + a) + rest
  {
  }

  lemma WriteAppends(k: Key, rest: string)
    ensures Write(k, rest) == Write(k, "") + rest
  {
    var e9 := ";\n" + "";
    var e8 := "}" + e9;
    var e7 := Body(AlgoOf(k), k.secret) + e8;
    var e6 := "{" + e7;
    var e5 := " " + e6;
    var e4 := "\"" + e5;
    var e3 := TrimDot(k.name) + e4;
    var e2 := "\"" + e3;
    var e1 := " " + e2;
    assert ";\n" + rest == e9 + rest;
    AppendPast("}", e9, rest);
    AppendPast(Body(AlgoOf(k), k.secret), e8, rest);
    AppendPast("{", e7, rest);
    AppendPast(" ", e6, rest);
    AppendPast("\"", e5, rest);
    AppendPast(TrimDot(k.name), e4, rest);
    AppendPast("\"", e3, rest);
    AppendPast(" ", e2, rest);
    AppendPast("key", e1, rest);
  }

  lemma WriteAllStep(keys: seq<Key>, i: nat, b: string)
    requires i < |keys|
    ensures b + WriteAll(keys[i..]) == b + Write(keys[i], "") + WriteAll(keys[i + 1..])
  {
    assert keys[i..][1..] == keys[i + 1..];
    WriteAppends(keys[i], WriteAll(keys[i + 1..]));
    AppendPast(b, Write(keys[i], ""), WriteAll(keys[i + 1..]));
  }

  /** `Render`. */
  method Render(keys: seq<Key>) returns (b: string)
    ensures b == Rendered(keys)
  {
    b := HEADER;
    for i := 0 to |keys|
      invariant b + WriteAll(keys[i..]) == Rendered(keys)
    {
      WriteAllStep(keys, i, b);
      b := b + Write(keys[i], "");
    }
  }

  // ----- The patterns read what they should -----

  lemma {:induction false} SpanIs(ok: char -> bool, a: string, b: string)
    requires All(ok, a) && (b == "" || !ok(b[0]))
    ensures Span(ok, a + b) == |a|
  {
    if a == "" {
      assert a + b == b;
    } else {
      assert (a + b)[1..] == a[1..] + b;
      SpanIs(ok, a[1..], b);
    }
  }

  lemma ManyIs(ok: char -> bool, a: string, b: string)
    requires All(ok, a) && (b == "" || !ok(b[0]))
    ensures Many(ok, a + b) == Match(a, b)
  {
    SpanIs(ok, a, b);
  }

  lemma LitIs(p: string, s: string)
    ensures Lit(p, p + s) == Some(s)
  {
  }

  /** Blanks of the patterns: space, tab, newline, carriage return, form feed. */
  predicate Blank(s: string) {
    forall i :: 0 <= i < |s| ==> s[i] in " \t\n\r\U{0c}"
  }

  /** Letters, digits and the hyphen. */
  predicate WordChar(c: char) {
    c in "ABCDEFGHIJKLMNOPQRSTUVWXYZ" || c in "abcdefghijklmnopqrstuvwxyz" || c in "0123456789" || c == '-'
  }

  predicate AlgoWord(s: string) {
    forall i :: 0 <= i < |s| ==> WordChar(s[i])
  }

  lemma UpperAre(c: char)
    ensures 'A' <= c <= 'Z' <==> c in "ABCDEFGHIJKLMNOPQRSTUVWXYZ"
  {
    if 'A' <= c <= 'Z' {
      assert "ABCDEFGHIJKLMNOPQRSTUVWXYZ"[c as int - 'A' as int] == c;
    }
  }

  lemma LowerAre(c: char)
    ensures 'a' <= c <= 'z' <==> c in "abcdefghijklmnopqrstuvwxyz"
  {
    if 'a' <= c <= 'z' {
      assert "abcdefghijklmnopqrstuvwxyz"[c as int - 'a' as int] == c;
    }
  }

  lemma DigitsAre(c: char)
    ensures '0' <= c <= '9' <==> c in "0123456789"
  {
    if '0' <= c <= '9' {
      assert "0123456789"[c as int - '0' as int] == c;
    }
  }

  lemma WordCharIs(c: char)
    ensures AlgoChar(c) <==> WordChar(c)
  {
    UpperAre(c);
    LowerAre(c);
    DigitsAre(c);
  }

  lemma AlgoCharsAre(s: string)
    ensures All(AlgoChar, s) <==> AlgoWord(s)
  {
    forall i | 0 <= i < |s| ensures AlgoChar(s[i]) <==> WordChar(s[i]) {
      WordCharIs(s[i]);
    }
  }

  /** The character classes of the patterns, spelled out. */
  lemma ClassesAre(s: string)
    ensures All(IsSpace, s) <==> Blank(s)
    ensures All(NotQuote, s) <==> '\"' !in s
    ensures All(NotBrace, s) <==> '}' !in s
  {
  }

  ghost predicate NameSplits(s: string, gap: string, name: string, rest: string) {
    && s == "key" + (gap + ("\"" + (name + ("\"" + rest))))
    && gap != "" && Blank(gap) && name != "" && '\"' !in name
  }

  ghost predicate BodySplits(s: string, gap: string, body: string, rest: string) {
    && s == gap + ("{" + (body + ("}" + rest)))
    && Blank(gap) && '}' !in body
  }

  /** The declarative reading of the block pattern: its parts, one after the other. */
  ghost predicate Splits(s: string, b: Block) {
    exists gap, gap', t :: NameSplits(s, gap, b.name, t) && BodySplits(t, gap', b.body, b.rest)
  }

  lemma NameComplete(s: string, gap: string, name: string, rest: string)
    requires NameSplits(s, gap, name, rest)
    ensures NameAt(s) == Some(Match(name, rest))
  {
    var t4 := "\"" + rest;
    var t3 := "\"" + (name + t4);
    ClassesAre(gap);
    ClassesAre(name);
    LitIs("key", gap + t3);
    ManyIs(IsSpace, gap, t3);
    LitIs("\"", name + t4);
    ManyIs(NotQuote, name, t4);
    LitIs("\"", rest);
  }

  lemma BodyComplete(s: string, gap: string, body: string, rest: string)
    requires BodySplits(s, gap, body, rest)
    ensures BodyAt(s) == Some(Match(body, rest))
  {
    var t := "}" + rest;
    ClassesAre(gap);
    ClassesAre(body);
    ManyIs(IsSpace, gap, "{" + (body + t));
    LitIs("{", body + t);
    ManyIs(NotBrace, body, t);
    LitIs("}", rest);
  }

  lemma LitSound(p: string, s: string)
    requires Lit(p, s).Some?
    ensures s == p + Lit(p, s).value
  {
  }

  lemma ManySound(ok: char -> bool, s: string)
    ensures s == Many(ok, s).text + Many(ok, s).rest && All(ok, Many(ok, s).text)
  {
  }

  lemma NameSound(s: string)
    requires NameAt(s).Some?
    ensures NameSplits(s, Many(IsSpace, Lit("key", s).value).text, NameAt(s).value.text, NameAt(s).value.rest)
  {
    LitSound("key", s);
    var t2 := Lit("key", s).value;
    ManySound(IsSpace, t2);
    var gap := Many(IsSpace, t2);
    LitSound("\"", gap.rest);
    var t3 := Lit("\"", gap.rest).value;
    ManySound(NotQuote, t3);
    LitSound("\"", Many(NotQuote, t3).rest);
    ClassesAre(gap.text);
    ClassesAre(Many(NotQuote, t3).text);
  }

  lemma BodySound(s: string)
    requires BodyAt(s).Some?
    ensures BodySplits(s, Many(IsSpace, s).text, BodyAt(s).value.text, BodyAt(s).value.rest)
  {
    ManySound(IsSpace, s);
    var gap := Many(IsSpace, s);
    LitSound("{", gap.rest);
    var t := Lit("{", gap.rest).value;
    ManySound(NotBrace, t);
    LitSound("}", Many(NotBrace, t).rest);
    ClassesAre(gap.text);
    ClassesAre(Many(NotBrace, t).text);
  }

  /** The hand-written matcher is the pattern: it succeeds exactly on the texts that split so, and in one way. */
  lemma BlockPattern(s: string, b: Block)
    ensures BlockAt(s) == Some(b) <==> Splits(s, b)
  {
    if BlockAt(s) == Some(b) {
      NameSound(s);
      BodySound(NameAt(s).value.rest);
    }
    if Splits(s, b) {
      var gap, gap', t :| NameSplits(s, gap, b.name, t) && BodySplits(t, gap', b.body, b.rest);
      NameComplete(s, gap, b.name, t);
      BodyComplete(t, gap', b.body, b.rest);
    }
  }

  /** The secret pattern, part by part. */
  ghost predicate SecretSplits(s: string, gap: string, secret: string, rest: string) {
    && s == "secret" + (gap + ("\"" + (secret + ("\"" + rest))))
    && gap != "" && Blank(gap) && secret != "" && '\"' !in secret
  }

  /** The matcher of secrets is its pattern, and matches in one way. */
  lemma SecretPattern(s: string, secret: string)
    ensures SecretAt(s) == Some(secret) <==> exists gap, rest :: SecretSplits(s, gap, secret, rest)
  {
    if gap, rest :| SecretSplits(s, gap, secret, rest) {
      var t4 := "\"" + rest;
      var t3 := "\"" + (secret + t4);
      ClassesAre(gap);
      ClassesAre(secret);
      LitIs("secret", gap + t3);
      ManyIs(IsSpace, gap, t3);
      LitIs("\"", secret + t4);
      ManyIs(NotQuote, secret, t4);
      LitIs("\"", rest);
    }
    if SecretAt(s) == Some(secret) {
      SecretSound(s);
    }
  }

  lemma SecretSound(s: string)
    requires SecretAt(s).Some?
    ensures exists gap, rest :: SecretSplits(s, gap, SecretAt(s).value, rest)
  {
    LitSound("secret", s);
    var t2 := Lit("secret", s).value;
    ManySound(IsSpace, t2);
    var gap := Many(IsSpace, t2);
    LitSound("\"", gap.rest);
    var t3 := Lit("\"", gap.rest).value;
    ManySound(NotQuote, t3);
    LitSound("\"", Many(NotQuote, t3).rest);
    ClassesAre(gap.text);
    ClassesAre(Many(NotQuote, t3).text);
    assert SecretSplits(s, gap.text, SecretAt(s).value, Lit("\"", Many(NotQuote, t3).rest).value);
  }

  /** What may stand on either side of an algorithm: a quote, or nothing. */
  predicate MaybeQuote(q: string) {
    q == "" || q == "\""
  }

  ghost predicate FieldSplits(s: string, q: string, algo: string, q': string, gap: string, rest: string) {
    && s == q + (algo + (q' + (gap + (";" + rest))))
    && MaybeQuote(q) && MaybeQuote(q') && algo != "" && AlgoWord(algo) && Blank(gap)
  }

  lemma MaybeIs(q: string, s: string)
    requires MaybeQuote(q) && s != "" && s[0] != '\"'
    ensures Maybe("\"", q + s) == s
  {
    if q == "" {
      assert q + s == s;
    }
  }

  lemma MaybeSound(s: string) returns (q: string)
    ensures MaybeQuote(q) && s == q + Maybe("\"", s)
  {
    q := if "\"" <= s then "\"" else "";
  }

  lemma FieldComplete(s: string, q: string, algo: string, q': string, gap: string, rest: string)
    requires FieldSplits(s, q, algo, q', gap, rest)
    ensures AlgoField(s) == Some(algo)
  {
    var t1 := ";" + rest;
    var t2 := gap + t1;
    var t3 := q' + t2;
    AlgoCharsAre(algo);
    ClassesAre(gap);
    assert t2[0] == if gap == "" then ';' else gap[0];
    assert t3[0] == if q' == "" then t2[0] else '\"';
    MaybeIs(q, algo + t3);
    ManyIs(AlgoChar, algo, t3);
    MaybeIs(q', t2);
    ManyIs(IsSpace, gap, t1);
    LitIs(";", rest);
  }

  lemma FieldSound(s: string)
    requires AlgoField(s).Some?
    ensures exists q, q', gap, rest :: FieldSplits(s, q, AlgoField(s).value, q', gap, rest)
  {
    var q := MaybeSound(s);
    var t1 := Maybe("\"", s);
    ManySound(AlgoChar, t1);
    var algo := Many(AlgoChar, t1);
    var q' := MaybeSound(algo.rest);
    var t2 := Maybe("\"", algo.rest);
    ManySound(IsSpace, t2);
    var gap := Many(IsSpace, t2);
    LitSound(";", gap.rest);
    AlgoCharsAre(algo.text);
    ClassesAre(gap.text);
    assert FieldSplits(s, q, algo.text, q', gap.text, Lit(";", gap.rest).value);
  }

  /** The matcher of algorithms: the word, blanks, and the algorithm, quoted or not, up to a semicolon. */
  lemma AlgoPattern(s: string, algo: string)
    ensures AlgoAt(s) == Some(algo)
            <==> exists gap, t, q, q', gap', rest ::
                   s == "algorithm" + (gap + t) && gap != "" && Blank(gap) && FieldSplits(t, q, algo, q', gap', rest)
  {
    if gap, t, q, q', gap', rest :|
        s == "algorithm" + (gap + t) && gap != "" && Blank(gap) && FieldSplits(t, q, algo, q', gap', rest) {
      ClassesAre(gap);
      AlgoCharsAre(algo);
      assert t[0] == if q == "" then algo[0] else '\"';
      LitIs("algorithm", gap + t);
      ManyIs(IsSpace, gap, t);
      FieldComplete(t, q, algo, q', gap', rest);
    }
    if AlgoAt(s) == Some(algo) {
      LitSound("algorithm", s);
      var t2 := Lit("algorithm", s).value;
      ManySound(IsSpace, t2);
      var gap := Many(IsSpace, t2);
      ClassesAre(gap.text);
      FieldSound(gap.rest);
    }
  }

  /** The search takes the leftmost place where the pattern matches. */
  lemma {:induction false} FirstIs(at: string -> Option<string>, s: string, i: nat)
    requires i <= |s| && forall j :: 0 <= j < i ==> at(s[j..]).None?
    ensures at(s[i..]).Some? ==> FindFirst(at, s) == at(s[i..])
    ensures i == |s| && at(s[i..]).None? ==> FindFirst(at, s) == None
    decreases i
  {
    assert s[0..] == s;
    if i > 0 {
      forall j | 0 <= j < i - 1 ensures at(s[1..][j..]).None? {
        assert s[1..][j..] == s[j + 1..];
      }
      assert s[1..][i - 1..] == s[i..];
      FirstIs(at, s[1..], i - 1);
    }
  }

  /** The blocks of a file: the leftmost one, and then those of what follows it. */
  lemma {:induction false} BlocksAre(s: string, i: nat)
    requires i <= |s| && forall j :: 0 <= j < i ==> BlockAt(s[j..]).None?
    ensures i < |s| && BlockAt(s[i..]).Some?
            ==> FindBlocks(s) == [BlockAt(s[i..]).value] + FindBlocks(BlockAt(s[i..]).value.rest)
    ensures i == |s| ==> FindBlocks(s) == []
    decreases i
  {
    assert s[0..] == s;
    if i > 0 {
      forall j | 0 <= j < i - 1 ensures BlockAt(s[1..][j..]).None? {
        assert s[1..][j..] == s[j + 1..];
      }
      assert s[1..][i - 1..] == s[i..];
      BlocksAre(s[1..], i - 1);
    }
  }

  /** A block in whose body no algorithm, or no secret, matches anywhere gives a key with an empty one. */
  lemma AbsentFields(b: Block)
    ensures KeyOf(b).name == TrimDot(b.name)
    ensures (forall i :: 0 <= i <= |b.body| ==> AlgoAt(b.body[i..]).None?) ==> KeyOf(b).algo == ""
    ensures (forall i :: 0 <= i <= |b.body| ==> SecretAt(b.body[i..]).None?) ==> KeyOf(b).secret == ""
  {
    if forall i :: 0 <= i <= |b.body| ==> AlgoAt(b.body[i..]).None? {
      FirstIs(AlgoAt, b.body, |b.body|);
    }
    if forall i :: 0 <= i <= |b.body| ==> SecretAt(b.body[i..]).None? {
      FirstIs(SecretAt, b.body, |b.body|);
    }
  }

  /** What a key is read as: its name without the trailing dot, a missing algorithm being the default. */
  lemma FilledIs(k: Key)
    ensures Filled(k) == Key(TrimDot(k.name), if k.algo == "" then "hmac-sha256" else k.algo, k.secret)
  {
  }

  // ----- Reading back what was written -----

  predicate Writable(k: Key) {
    && All(NotQuote, k.name) && All(AlgoChar, k.algo)
    && All(NotQuote, k.secret) && All(NotBrace, k.secret)
  }

  /** The name is not empty and has no dot left once one is trimmed. */
  predicate Named(k: Key) {
    TrimDot(k.name) != "" && TrimDot(TrimDot(k.name)) == TrimDot(k.name)
  }

  /** The key as it comes back: no trailing dot, the default algorithm filled in. */
  function Filled(k: Key): Key {
    Key(TrimDot(k.name), AlgoOf(k), k.secret)
  }

  /** Text in which no block can start is skipped. */
  lemma {:induction false} SkipText(a: string, s: string)
    requires 'k' !in a
    ensures FindBlocks(a + s) == FindBlocks(s)
  {
    if a == "" {
      assert a + s == s;
    } else {
      var t := a + s;
      assert t[0] == a[0] && t[1..] == a[1..] + s;
      assert !("key" <= t) by {
        assert "key"[0] == 'k';
      }
      assert BlockAt(t) == None;
      SkipText(a[1..], s);
    }
  }

  lemma BeforeHasNoK()
    ensures 'k' !in BEFORE_K
  {
    assert 'k' !in "// Managed by" && 'k' !in " goddns (rot" && 'k' !in "ate with `go" && 'k' !in "ddns rotate-";
  }

  lemma AfterHasNoK()
    ensures 'k' !in AFTER_K
  {
    assert 'k' !in "ey`" && 'k' !in "). Included " && 'k' !in "once by name" && 'k' !in "d.conf.\n";
  }

  /** The key that is not a block: `key` with no blank after it. */
  lemma SkipKey(s: string)
    requires "key`" <= s
    ensures BlockAt(s) == None
  {
    var t := Lit("key", s).value;
    assert t[0] == s[3] == "key`"[3];
  }

  lemma SkipOneKey(b: string, s: string)
    requires "ey`" <= b
    ensures FindBlocks("k" + (b + s)) == FindBlocks(b + s)
  {
    var t := "k" + (b + s);
    assert t[1..] == b + s;
    assert t[..4] == "k" + b[..3] == "key`";
    SkipKey(t);
  }

  lemma SkipAround(a: string, b: string, s: string)
    requires 'k' !in a && 'k' !in b && "ey`" <= b
    ensures FindBlocks(a + ("k" + b) + s) == FindBlocks(s)
  {
    var t := "k" + (b + s);
    assert a + ("k" + b) + s == a + t;
    SkipText(a, t);
    SkipOneKey(b, s);
    SkipText(b, s);
  }

  lemma SkipHeader(s: string)
    ensures FindBlocks(HEADER + s) == FindBlocks(s)
  {
    BeforeHasNoK();
    AfterHasNoK();
    SkipAround(BEFORE_K, AFTER_K, s);
  }

  // ----- The two fields of a body -----

  lemma {:induction false} FindSkips(at: string -> Option<string>, a: string, s: string)
    requires forall i :: 0 <= i < |a| ==> at(a[i..] + s) == None
    ensures FindFirst(at, a + s) == FindFirst(at, s)
  {
    if a == "" {
      assert a + s == s;
    } else {
      var t := a + s;
      assert a[0..] == a && at(t) == None;
      assert t[1..] == a[1..] + s;
      forall i | 0 <= i < |a| - 1 ensures at(a[1..][i..] + s) == None {
        assert a[1..][i..] == a[i + 1..];
      }
      FindSkips(at, a[1..], s);
    }
  }

  /** A literal does not match where its first character is not. */
  lemma NotHere(p: string, s: string)
    requires p != "" && s != "" && s[0] != p[0]
    ensures Lit(p, s) == None
  {
  }

  lemma AlgoFieldReads(algo: string, rest: string)
    requires algo != "" && All(AlgoChar, algo)
    ensures AlgoField(algo + (";" + rest)) == Some(algo)
  {
    var t := ";" + rest;
    assert (algo + t)[0] == algo[0];
    ManyIs(AlgoChar, algo, t);
    ManyIs(IsSpace, "", t);
    assert "" + t == t;
    LitIs(";", rest);
  }

  lemma AlgoReads(algo: string, rest: string)
    requires algo != "" && All(AlgoChar, algo)
    ensures AlgoAt("algorithm" + (" " + (algo + (";" + rest)))) == Some(algo)
  {
    var t := algo + (";" + rest);
    LitIs("algorithm", " " + t);
    assert t[0] == algo[0];
    ManyIs(IsSpace, " ", t);
    AlgoFieldReads(algo, rest);
  }

  lemma SecretReads(secret: string, rest: string)
    requires secret != "" && All(NotQuote, secret)
    ensures SecretAt("secret" + (" " + ("\"" + (secret + ("\"" + rest))))) == Some(secret)
  {
    var t4 := "\"" + rest;
    var t3 := "\"" + (secret + t4);
    LitIs("secret", " " + t3);
    ManyIs(IsSpace, " ", t3);
    LitIs("\"", secret + t4);
    ManyIs(NotQuote, secret, t4);
    LitIs("\"", rest);
  }

  lemma AlgoFound(algo: string, secret: string)
    requires algo != "" && All(AlgoChar, algo)
    ensures FindFirst(AlgoAt, Body(algo, secret)) == Some(algo)
  {
    var s := "algorithm" + (" " + (algo + (";" + ("\n\t" + SecretLine(secret)))));
    AlgoReads(algo, "\n\t" + SecretLine(secret));
    SkipIndent(s);
  }

  lemma NoAlgoHere(s: string)
    requires s != "" && s[0] != 'a'
    ensures AlgoAt(s) == None
  {
    NotHere("algorithm", s);
  }

  lemma NoSecretHere(s: string)
    requires s != "" && s[0] != 's'
    ensures SecretAt(s) == None
  {
    NotHere("secret", s);
  }

  lemma SkipIndent(s: string)
    ensures FindFirst(AlgoAt, "\n\t" + s) == FindFirst(AlgoAt, s)
  {
    var a := "\n\t";
    forall i | 0 <= i < |a| ensures AlgoAt(a[i..] + s) == None {
      NoAlgoHere(a[i..] + s);
    }
    FindSkips(AlgoAt, a, s);
  }

  /** Inside the algorithm there may be the word `secret`, but never with a blank after it. */
  lemma NoSecretIn(algo: string, rest: string)
    requires algo != "" && All(AlgoChar, algo)
    ensures SecretAt(algo + (";" + rest)) == None
  {
    var s := algo + (";" + rest);
    assert s[|algo|] == ';';
    if "secret" <= s && |algo| >= 6 {
      assert !IsSpace(s[6]);
      assert Many(IsSpace, s[6..]).text == "";
    }
  }

  /** No secret starts in a text that ends before the first `s`. */
  lemma SkipPlain(a: string, s: string)
    requires 's' !in a
    ensures FindFirst(SecretAt, a + s) == FindFirst(SecretAt, s)
  {
    forall i | 0 <= i < |a| ensures SecretAt(a[i..] + s) == None {
      assert (a[i..] + s)[0] == a[i] && a[i] in a;
      NoSecretHere(a[i..] + s);
    }
    FindSkips(SecretAt, a, s);
  }

  lemma SkipAlgo(algo: string, rest: string)
    requires All(AlgoChar, algo)
    ensures FindFirst(SecretAt, algo + (";" + rest)) == FindFirst(SecretAt, ";" + rest)
  {
    forall i | 0 <= i < |algo| ensures SecretAt(algo[i..] + (";" + rest)) == None {
      NoSecretIn(algo[i..], rest);
    }
    FindSkips(SecretAt, algo, ";" + rest);
  }

  lemma NoSecretQuoted(end: string)
    ensures SecretAt("secret" + (" " + ("\"" + ("" + ("\"" + end))))) == None
  {
    var t := "" + ("\"" + end);
    LitIs("secret", " " + ("\"" + t));
    ManyIs(IsSpace, " ", "\"" + t);
    LitIs("\"", t);
    ManyIs(NotQuote, "", "\"" + end);
  }

  /** An empty secret is not matched, and nothing after it is. */
  lemma EmptySecret()
    ensures FindFirst(SecretAt, SecretLine("")) == None
  {
    NoSecretQuoted(";\n");
    var t := "ecret" + (" " + ("\"" + ("" + ("\"" + ";\n"))));
    assert SecretLine("") == "s" + t;
    NoMoreSecrets(t);
    SkipFirst(SecretAt, "s", t);
  }

  lemma SkipFirst(at: string -> Option<string>, c: string, t: string)
    requires |c| == 1 && at(c + t) == None
    ensures FindFirst(at, c + t) == FindFirst(at, t)
  {
    assert (c + t)[1..] == t;
  }

  lemma NoMoreSecrets(t: string)
    requires t == "ecret" + (" " + ("\"" + ("" + ("\"" + ";\n"))))
    ensures FindFirst(SecretAt, t) == None
  {
    assert 's' !in "ecret" && 's' !in " " && 's' !in "\"" && 's' !in "" && 's' !in ";\n";
    SkipPlain(t, "");
    assert t + "" == t;
    assert SecretAt("") == None;
  }

  lemma SecretFound(algo: string, secret: string)
    requires All(AlgoChar, algo) && All(NotQuote, secret)
    ensures OrEmpty(FindFirst(SecretAt, Body(algo, secret))) == secret
  {
    var t5 := "\n\t" + SecretLine(secret);
    var t3 := algo + (";" + t5);
    SkipPlain("\n\t", "algorithm" + (" " + t3));
    SkipPlain("algorithm", " " + t3);
    SkipPlain(" ", t3);
    SkipAlgo(algo, t5);
    SkipPlain(";", t5);
    SkipPlain("\n\t", SecretLine(secret));
    if secret == "" {
      EmptySecret();
    } else {
      SecretReads(secret, ";\n");
    }
  }

  // ----- Whole rings -----

  lemma {:induction false} AllConcat(ok: char -> bool, a: string, b: string)
    requires All(ok, a) && All(ok, b)
    ensures All(ok, a + b)
  {
  }

  lemma BodyHasNoBrace(algo: string, secret: string)
    requires All(AlgoChar, algo) && All(NotBrace, secret)
    ensures All(NotBrace, Body(algo, secret))
  {
    var end := "\"" + ";\n";
    AllConcat(NotBrace, secret, end);
    AllConcat(NotBrace, "\"", secret + end);
    AllConcat(NotBrace, " ", "\"" + (secret + end));
    AllConcat(NotBrace, "secret", " " + ("\"" + (secret + end)));
    var t := SecretLine(secret);
    AllConcat(NotBrace, "\n\t", t);
    AllConcat(NotBrace, ";", "\n\t" + t);
    AllConcat(NotBrace, algo, ";" + ("\n\t" + t));
    AllConcat(NotBrace, " ", algo + (";" + ("\n\t" + t)));
    AllConcat(NotBrace, "algorithm", " " + (algo + (";" + ("\n\t" + t))));
  }

  lemma AlgoOfWritable(k: Key)
    requires Writable(k)
    ensures AlgoOf(k) != "" && All(AlgoChar, AlgoOf(k)) && All(NotQuote, TrimDot(k.name))
  {
  }

  /** One written block is read back; reading trims one more dot off the name. */
  lemma BlockReads(k: Key, rest: string)
    requires Writable(k) && TrimDot(k.name) != ""
    ensures BlockAt(Write(k, rest)) == Some(Block(TrimDot(k.name), Body(AlgoOf(k), k.secret), ";\n" + rest))
  {
    var body := Body(AlgoOf(k), k.secret);
    var t := " " + ("{" + (body + ("}" + (";\n" + rest))));
    AlgoOfWritable(k);
    BodyHasNoBrace(AlgoOf(k), k.secret);
    NameComplete(Write(k, rest), " ", TrimDot(k.name), t);
    BodyComplete(t, " ", body, ";\n" + rest);
  }

  function Reread(k: Key): Key {
    Filled(k).(name := TrimDot(TrimDot(k.name)))
  }

  lemma KeyReads(k: Key, rest: string)
    requires Writable(k)
    ensures KeyOf(Block(TrimDot(k.name), Body(AlgoOf(k), k.secret), rest)) == Reread(k)
  {
    AlgoOfWritable(k);
    AlgoFound(AlgoOf(k), k.secret);
    SecretFound(AlgoOf(k), k.secret);
  }

  lemma FindBlocksAt(s: string, b: Block)
    requires BlockAt(s) == Some(b)
    ensures FindBlocks(s) == [b] + FindBlocks(b.rest)
  {
  }

  lemma ParsedStep(k: Key, rest: string)
    requires Writable(k) && TrimDot(k.name) != ""
    ensures Parsed(Write(k, rest)) == [Reread(k)] + Parsed(rest)
  {
    var b := Block(TrimDot(k.name), Body(AlgoOf(k), k.secret), ";\n" + rest);
    BlockReads(k, rest);
    KeyReads(k, ";\n" + rest);
    SkipText(";\n", rest);
    FindBlocksAt(Write(k, rest), b);
    ImageConcat(KeyOf, [b], FindBlocks(rest));
    assert Image(KeyOf, [b]) == [Reread(k)];
  }

  lemma {:induction false} RingReads(keys: seq<Key>)
    requires forall i :: 0 <= i < |keys| ==> Writable(keys[i]) && TrimDot(keys[i].name) != ""
    ensures Parsed(WriteAll(keys)) == Image(Reread, keys)
  {
    if keys != [] {
      ParsedStep(keys[0], WriteAll(keys[1..]));
      RingReads(keys[1..]);
      ImageConcat(Reread, [keys[0]], keys[1..]);
      assert keys == [keys[0]] + keys[1..];
    }
  }

  lemma RenderedReads(keys: seq<Key>)
    requires forall i :: 0 <= i < |keys| ==> Writable(keys[i]) && TrimDot(keys[i].name) != ""
    ensures Parsed(Rendered(keys)) == Image(Reread, keys)
  {
    SkipHeader(WriteAll(keys));
    RingReads(keys);
  }

  // ----- What can come out of a file -----

  lemma {:induction false} FindFirstIs(at: string -> Option<string>, s: string) returns (i: nat)
    requires FindFirst(at, s).Some?
    ensures i <= |s| && at(s[i..]) == FindFirst(at, s)
  {
    if at(s).Some? {
      i := 0;
      assert s[0..] == s;
    } else {
      var j := FindFirstIs(at, s[1..]);
      i := j + 1;
      assert s[1..][j..] == s[i..];
    }
  }

  lemma AlgoClean(body: string)
    ensures All(AlgoChar, OrEmpty(FindFirst(AlgoAt, body)))
  {
    if FindFirst(AlgoAt, body).Some? {
      var i := FindFirstIs(AlgoAt, body);
      AlgoAtClean(body[i..]);
    }
  }

  lemma AlgoAtClean(s: string)
    requires AlgoAt(s).Some?
    ensures All(AlgoChar, AlgoAt(s).value)
  {
    var gap := Many(IsSpace, Lit("algorithm", s).value);
    ManySound(AlgoChar, Maybe("\"", gap.rest));
  }

  lemma SecretClean(body: string)
    requires All(NotBrace, body)
    ensures All(NotQuote, OrEmpty(FindFirst(SecretAt, body))) && All(NotBrace, OrEmpty(FindFirst(SecretAt, body)))
  {
    if FindFirst(SecretAt, body).Some? {
      var i := FindFirstIs(SecretAt, body);
      SecretAtClean(body[i..]);
    }
  }

  lemma SecretAtClean(s: string)
    requires SecretAt(s).Some? && All(NotBrace, s)
    ensures All(NotQuote, SecretAt(s).value) && All(NotBrace, SecretAt(s).value)
  {
    var t := Lit("secret", s).value;
    var gap := Many(IsSpace, t);
    var q := Lit("\"", gap.rest).value;
    assert All(NotBrace, t) && All(NotBrace, gap.rest) && All(NotBrace, q);
    ManySound(NotQuote, q);
  }

  /** Whatever the file holds, a key read from it can be written. */
  lemma BlockWritable(s: string)
    requires BlockAt(s).Some?
    ensures Writable(KeyOf(BlockAt(s).value))
  {
    NameSound(s);
    BodySound(NameAt(s).value.rest);
    var b := BlockAt(s).value;
    AlgoClean(b.body);
    SecretClean(b.body);
  }

  predicate AllWritable(keys: seq<Key>) {
    forall i :: 0 <= i < |keys| ==> Writable(keys[i])
  }

  lemma {:induction false} ParsedWritable(data: string)
    ensures AllWritable(Parsed(data))
    decreases |data|
  {
    if data != "" {
      if BlockAt(data).None? {
        ParsedWritable(data[1..]);
      } else {
        var b := BlockAt(data).value;
        BlockWritable(data);
        ParsedWritable(b.rest);
        FindBlocksAt(data, b);
        ImageConcat(KeyOf, [b], FindBlocks(b.rest));
      }
    }
  }

  // ----- Round trip and rotation -----

  predicate AllNamed(keys: seq<Key>) {
    forall i :: 0 <= i < |keys| ==> Named(keys[i])
  }

  /**
   * A ring whose names are not empty comes back from its file, with defaults filled in, if and
   * only if names hold no quote and no second trailing dot, algorithms keep to their alphabet,
   * and secrets hold no quote and no closing brace. An empty secret is no obstacle.
   */
  lemma RoundTrip(keys: seq<Key>)
    requires forall i :: 0 <= i < |keys| ==> TrimDot(keys[i].name) != ""
    ensures Parsed(Rendered(keys)) == Image(Filled, keys) <==> AllWritable(keys) && AllNamed(keys)
  {
    if AllWritable(keys) && AllNamed(keys) {
      RenderedReads(keys);
    }
    if Parsed(Rendered(keys)) == Image(Filled, keys) {
      ParsedWritable(Rendered(keys));
      forall i | 0 <= i < |keys| ensures Writable(keys[i]) {
        FilledWritable(keys, i);
      }
      RenderedReads(keys);
      forall i | 0 <= i < |keys| ensures Named(keys[i]) {
        assert Image(Reread, keys)[i] == Image(Filled, keys)[i];
      }
    }
  }

  lemma FilledWritable(keys: seq<Key>, i: nat)
    requires i < |keys| && AllWritable(Image(Filled, keys))
    ensures Writable(keys[i])
  {
    var k := keys[i];
    assert Writable(Image(Filled, keys)[i]);
    assert All(NotQuote, TrimDot(k.name));
  }

  lemma NoName(name: string, u: string)
    requires name == ""
    ensures NameAt("key" + (" " + ("\"" + (name + ("\"" + u))))) == None
  {
    var t := name + ("\"" + u);
    LitIs("key", " " + ("\"" + t));
    ManyIs(IsSpace, " ", "\"" + t);
    LitIs("\"", t);
    ManyIs(NotQuote, name, "\"" + u);
  }

  /** A block written for an empty name is not read as a key: the hypothesis above is needed. */
  lemma EmptyNameLost(k: Key, rest: string)
    requires TrimDot(k.name) == ""
    ensures BlockAt(Write(k, rest)) == None
  {
    NoName(TrimDot(k.name), " " + ("{" + (Body(AlgoOf(k), k.secret) + ("}" + (";\n" + rest)))));
  }

  /** `Find`: the first key of that name, a trailing dot aside; none is -1. */
  method Find(keys: seq<Key>, name: string) returns (i: int)
    ensures -1 <= i < |keys|
    ensures i >= 0 ==> TrimDot(keys[i].name) == TrimDot(name)
    ensures forall j :: 0 <= j < (if i < 0 then |keys| else i) ==> TrimDot(keys[j].name) != TrimDot(name)
  {
    for j := 0 to |keys|
      invariant forall k :: 0 <= k < j ==> TrimDot(keys[k].name) != TrimDot(name)
    {
      if TrimDot(keys[j].name) == TrimDot(name) {
        return j;
      }
    }
    return -1;
  }

  /** The characters of a generated secret. */
  predicate Base64(c: char) {
    'A' <= c <= 'Z' || 'a' <= c <= 'z' || '0' <= c <= '9' || c == '+' || c == '/' || c == '='
  }

  function Rotated(keys: seq<Key>, i: nat, secret: string): seq<Key>
    requires i < |keys|
  {
    keys[i := keys[i].(secret := secret)]
  }

  lemma RingRoundTrip(keys: seq<Key>)
    requires AllWritable(keys) && AllNamed(keys)
    ensures Parsed(Rendered(keys)) == Image(Filled, keys)
  {
    forall i | 0 <= i < |keys| ensures TrimDot(keys[i].name) != "" {
      assert Named(keys[i]);
    }
    RoundTrip(keys);
  }

  lemma RotatedFits(keys: seq<Key>, i: nat, secret: string)
    requires i < |keys| && AllWritable(keys) && AllNamed(keys) && All(Base64, secret)
    ensures AllWritable(Rotated(keys, i, secret)) && AllNamed(Rotated(keys, i, secret))
  {
  }

  lemma ImageUpdate<A, B>(f: A -> B, s: seq<A>, i: nat, x: A)
    requires i < |s|
    ensures Image(f, s[i := x]) == Image(f, s)[i := f(x)]
  {
  }

  /**
   * A rotation, for every key file whose names are not empty and do not end in a dot twice: the file
   * written with the new secret reads as the old ring with that one secret changed, and writing
   * the old ring back - the rollback - reads as the old ring, whatever the file looked like.
   */
  lemma Rotation(data: string, i: nat, secret: string)
    requires i < |Parsed(data)| && AllNamed(Parsed(data)) && All(Base64, secret)
    ensures var keys := Parsed(data);
            var ring := Image(Filled, keys);
            && Parsed(Rendered(keys)) == ring
            && Parsed(Rendered(Rotated(keys, i, secret))) == Rotated(ring, i, secret)
  {
    var keys := Parsed(data);
    ParsedWritable(data);
    RingRoundTrip(keys);
    RotatedFits(keys, i, secret);
    RingRoundTrip(Rotated(keys, i, secret));
    ImageUpdate(Filled, keys, i, keys[i].(secret := secret));
  }
}
