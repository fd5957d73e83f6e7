/** Strings, lines and decimal numbers, as the zone-file code uses them. */
module Text {

  datatype Option<+T> = None | Some(value: T) {
    predicate IsFailure() {
      None?
    }
    function PropagateFailure<U>(): Option<U>
      requires None?
    {
      None
    }
    function Extract(): T
      requires Some?
    {
      value
    }
  }

  // ----- ASCII case folding -----

  function UpperChar(c: char): char {
    if 'a' <= c <= 'z' then (c as int - 32) as char else c
  }

  function Upper(s: string): (r: string)
    ensures |r| == |s|
    ensures forall i :: 0 <= i < |s| ==> r[i] == UpperChar(s[i])
  {
    seq(|s|, i requires 0 <= i < |s| => UpperChar(s[i]))
  }

  /** Folding pairs the letters of the alphabet and leaves every other character alone. */
  lemma FoldsLetters(c: char)
    ensures forall i :: 0 <= i < 26 ==> UpperChar("abcdefghijklmnopqrstuvwxyz"[i]) == "ABCDEFGHIJKLMNOPQRSTUVWXYZ"[i]
    ensures c !in "abcdefghijklmnopqrstuvwxyz" ==> UpperChar(c) == c
  {
    var i := c as int - 'a' as int;
    if 0 <= i < 26 {
      assert "abcdefghijklmnopqrstuvwxyz"[i] == c;
    }
  }

  predicate EqualFold(a: string, b: string) {
    Upper(a) == Upper(b)
  }

  /** `strings.TrimSuffix(s, ".")`. */
  function TrimDot(s: string): string {
    if s != "" && s[|s| - 1] == '.' then s[..|s| - 1] else s
  }

  // ----- Order -----

  /** Byte-wise order of strings. */
  predicate Less(a: string, b: string) {
    if b == "" then false
    else if a == "" then true
    else if a[0] != b[0] then a[0] < b[0]
    else Less(a[1..], b[1..])
  }

  lemma {:induction false} LessIrreflexive(a: string)
    ensures !Less(a, a)
  {
    if a != "" {
      LessIrreflexive(a[1..]);
    }
  }

  lemma {:induction false} LessTotal(a: string, b: string)
    ensures a == b || Less(a, b) || Less(b, a)
  {
    if a != "" && b != "" && a[0] == b[0] {
      LessTotal(a[1..], b[1..]);
      assert a == [a[0]] + a[1..] && b == [b[0]] + b[1..];
    }
  }

  lemma {:induction false} LessTransitive(a: string, b: string, c: string)
    requires Less(a, b) && Less(b, c)
    ensures Less(a, c)
  {
    if a != "" && a[0] == b[0] && b[0] == c[0] {
      LessTransitive(a[1..], b[1..], c[1..]);
    }
  }

  lemma LessAsymmetric(a: string, b: string)
    requires Less(a, b)
    ensures !Less(b, a)
  {
    if Less(b, a) {
      LessTransitive(a, b, a);
      LessIrreflexive(a);
    }
  }

  lemma LessNegative(a: string, b: string, c: string)
    requires !Less(a, b) && !Less(b, c)
    ensures !Less(a, c)
  {
    LessTotal(a, b);
    LessTotal(b, c);
    if Less(a, c) && b != c && a != b {
      LessTransitive(b, a, c);
    }
  }

  /** The order is lexicographic: the first difference decides, and a proper prefix comes first. */
  lemma {:induction false} LessIs(a: string, b: string, k: nat)
    requires k <= |a| && k <= |b| && a[..k] == b[..k]
    requires k < |a| && k < |b| ==> a[k] != b[k]
    ensures Less(a, b) <==> k < |b| && (k < |a| ==> a[k] < b[k])
    decreases k
  {
    if k > 0 {
      assert a[0] == a[..k][0] == b[..k][0] == b[0];
      assert a[1..][..k - 1] == a[..k][1..] == b[..k][1..] == b[1..][..k - 1];
      LessIs(a[1..], b[1..], k - 1);
    }
  }

  // ----- Lines -----

  predicate NoNewline(s: string) {
    '\n' !in s
  }

  /** Where the first piece of a text ends. */
  function PieceEnd(sep: char, s: string): (n: nat)
    ensures n <= |s| && sep !in s[..n] && (n < |s| ==> s[n] == sep)
  {
    if s == "" || s[0] == sep then 0
    else
      var n := 1 + PieceEnd(sep, s[1..]);
      assert s[..n] == [s[0]] + s[1..][..n - 1];
      n
  }

  /** `strings.Split` on one character; never empty. */
  function SplitOn(sep: char, s: string): (r: seq<string>)
    ensures r != []
    ensures forall i :: 0 <= i < |r| ==> sep !in r[i]
    decreases |s|
  {
    var n := PieceEnd(sep, s);
    if n == |s| then [s] else [s[..n]] + SplitOn(sep, s[n + 1..])
  }

  /** `strings.Join` with one character. */
  function JoinWith(sep: char, pieces: seq<string>): string {
    if pieces == [] then ""
    else if |pieces| == 1 then pieces[0]
    else pieces[0] + [sep] + JoinWith(sep, pieces[1..])
  }

  lemma {:induction false} JoinWithConcat(sep: char, a: seq<string>, b: seq<string>)
    requires a != [] && b != []
    ensures JoinWith(sep, a + b) == JoinWith(sep, a) + [sep] + JoinWith(sep, b)
  {
    assert (a + b)[1..] == a[1..] + b;
    if |a| > 1 {
      JoinWithConcat(sep, a[1..], b);
    }
  }

  /** Rejoining the pieces of a text gives back the text. */
  lemma {:induction false} JoinSplitOn(sep: char, s: string)
    ensures JoinWith(sep, SplitOn(sep, s)) == s
    decreases |s|
  {
    var n := PieceEnd(sep, s);
    if n < |s| {
      JoinSplitOn(sep, s[n + 1..]);
      assert SplitOn(sep, s)[1..] == SplitOn(sep, s[n + 1..]);
      assert s == s[..n] + [sep] + s[n + 1..];
    }
  }

  lemma {:induction false} PieceEndIs(sep: char, l: string, t: string)
    requires sep !in l && (t == "" || t[0] == sep)
    ensures PieceEnd(sep, l + t) == |l|
  {
    if l == "" {
      assert l + t == t;
    } else {
      assert (l + t)[1..] == l[1..] + t;
      PieceEndIs(sep, l[1..], t);
    }
  }

  /** Splitting goes piece by piece. */
  lemma SplitOnPrefix(sep: char, l: string, t: string)
    requires sep !in l
    ensures SplitOn(sep, l) == [l]
    ensures SplitOn(sep, l + [sep] + t) == [l] + SplitOn(sep, t)
  {
    assert l + "" == l;
    PieceEndIs(sep, l, "");
    var u := l + [sep] + t;
    assert u == l + ([sep] + t);
    PieceEndIs(sep, l, [sep] + t);
    assert u[..|l|] == l && u[|l| + 1..] == t;
  }

  lemma JoinedPieces(x: string, l: string, sep: char, t: string, p: string)
    requires x == l + [sep] + t
    ensures x + [sep] + p == l + [sep] + (t + [sep] + p)
  {
  }

  lemma FirstThen(l: string, a: seq<string>, b: seq<string>)
    ensures [l] + (a + b) == ([l] + a) + b
  {
  }

  lemma {:induction false} SplitOnConcat(sep: char, x: string, p: string)
    ensures SplitOn(sep, x + [sep] + p) == SplitOn(sep, x) + SplitOn(sep, p)
    decreases |x|
  {
    var n := PieceEnd(sep, x);
    if n == |x| {
      SplitOnPrefix(sep, x, p);
    } else {
      var l, t := x[..n], x[n + 1..];
      assert x == l + [sep] + t;
      SplitOnConcat(sep, t, p);
      JoinedPieces(x, l, sep, t, p);
      SplitOnPrefix(sep, l, t + [sep] + p);
      FirstThen(l, SplitOn(sep, t), SplitOn(sep, p));
    }
  }

  /** Splitting on every newline, as `strings.Split(s, "\n")` does; never empty. */
  function Split(s: string): (r: seq<string>)
    ensures r != []
    ensures forall i :: 0 <= i < |r| ==> NoNewline(r[i])
  {
    SplitOn('\n', s)
  }

  /** Joining with newlines, as `strings.Join(lines, "\n")` does. */
  function Join(lines: seq<string>): string {
    JoinWith('\n', lines)
  }

  /** Splitting a join of newline-free lines gives back exactly those lines. */
  lemma {:induction false} SplitJoin(lines: seq<string>)
    requires lines != []
    requires forall i :: 0 <= i < |lines| ==> NoNewline(lines[i])
    ensures Split(Join(lines)) == lines
  {
    if |lines| == 1 {
      SplitOnPrefix('\n', lines[0], "");
    } else {
      SplitJoin(lines[1..]);
      SplitOnPrefix('\n', lines[0], Join(lines[1..]));
      assert lines == [lines[0]] + lines[1..];
    }
  }

  // ----- Decimal numbers -----

  const UINT32: nat := 0x1_0000_0000

  predicate IsDigit(c: char) {
    '0' <= c <= '9'
  }

  predicate AllDigits(s: string) {
    forall i :: 0 <= i < |s| ==> IsDigit(s[i])
  }

  function Digit(d: nat): (c: char)
    requires d < 10
    ensures IsDigit(c)
  {
    ('0' as int + d) as char
  }

  function Dec(n: nat): (s: string)
    ensures s != "" && AllDigits(s)
  {
    if n < 10 then [Digit(n)] else Dec(n / 10) + [Digit(n % 10)]
  }

  function Value(s: string): nat
    requires AllDigits(s)
  {
    if s == "" then 0
    else 10 * Value(s[..|s| - 1]) + (s[|s| - 1] as int - '0' as int)
  }

  /** `strconv.ParseUint(s, 10, 32)`. */
  function ParseUint32(s: string): Option<nat> {
    if s != "" && AllDigits(s) && Value(s) < UINT32 then Some(Value(s)) else None
  }

  /** A printed number reads back as itself. */
  lemma {:induction false} DecValue(n: nat)
    ensures Value(Dec(n)) == n
  {
    if n < 10 {
      assert [Digit(n)][..0] == "";
    } else {
      DecValue(n / 10);
      var s := Dec(n);
      assert s[..|s| - 1] == Dec(n / 10);
    }
  }

  lemma ParseDec(n: nat)
    requires n < UINT32
    ensures ParseUint32(Dec(n)) == Some(n)
  {
    DecValue(n);
  }

  /** A record in the form of RFC 3597, for types without a mnemonic: class and type by number. */
  function GenericText(name: string, ttl: nat, rtype: nat, data: string): string {
    name + ("\t" + (Dec(ttl) + ("\tCLASS1\tTYPE" + (Dec(rtype) + ("\t" + data)))))
  }

  lemma DigitsHaveNoTab(s: string)
    requires AllDigits(s)
    ensures '\t' !in s
  {
  }

  /** Two texts cut at their first tab. */
  lemma SameFirstPiece(a: string, b: string, x: string, y: string)
    requires '\t' !in a && '\t' !in b && a + ("\t" + x) == b + ("\t" + y)
    ensures a == b && x == y
  {
    var s := a + ("\t" + x);
    PieceEndIs('\t', a, "\t" + x);
    PieceEndIs('\t', b, "\t" + y);
    assert a == s[..|a|] == b;
    assert x == s[|a| + 1..] == y;
  }

  lemma DecInjective(a: nat, b: nat)
    requires Dec(a) == Dec(b)
    ensures a == b
  {
    DecValue(a);
    DecValue(b);
  }

  lemma SamePrefix(p: string, a: string, b: string)
    requires p + a == p + b
    ensures a == b
  {
    assert a == (p + a)[|p|..] == b;
  }

  /** The form says everything about a record whose name holds no tab. */
  lemma GenericTextTells(name: string, ttl: nat, rtype: nat, data: string, name': string, ttl': nat, rtype': nat,
                         data': string)
    requires '\t' !in name && '\t' !in name'
    requires GenericText(name, ttl, rtype, data) == GenericText(name', ttl', rtype', data')
    ensures name == name' && ttl == ttl' && rtype == rtype' && data == data'
  {
    var r, r' := Dec(rtype) + ("\t" + data), Dec(rtype') + ("\t" + data');
    var q, q' := "CLASS1\tTYPE" + r, "CLASS1\tTYPE" + r';
    assert "\tCLASS1\tTYPE" + r == "\t" + q && "\tCLASS1\tTYPE" + r' == "\t" + q';
    SameFirstPiece(name, name', Dec(ttl) + ("\t" + q), Dec(ttl') + ("\t" + q'));
    DigitsHaveNoTab(Dec(ttl));
    DigitsHaveNoTab(Dec(ttl'));
    SameFirstPiece(Dec(ttl), Dec(ttl'), q, q');
    SamePrefix("CLASS1\tTYPE", r, r');
    DigitsHaveNoTab(Dec(rtype));
    DigitsHaveNoTab(Dec(rtype'));
    SameFirstPiece(Dec(rtype), Dec(rtype'), data, data');
    DecInjective(ttl, ttl');
    DecInjective(rtype, rtype');
  }
}
