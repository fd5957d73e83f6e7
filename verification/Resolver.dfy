/**
 * What a zone file means: the records it resolves to. This is the specification of the
 * master-file reader the program relies on: section 5.1 of RFC 1035 (an omitted owner
 * or TTL repeats the last one stated) and section 4 of RFC 2308 (`$TTL`). It reads the
 * entries of the tokenizer with their positions forgotten; record data is opaque.
 */
module Resolver {
  import opened Text
  import opened Tokenizer

  /** A resolved record; its data is a list of canonical fields, the SOA serial being the third. */
  datatype Rr = Rr(name: string, rtype: nat, ttl: nat, rdata: seq<string>)

  const SOA: nat := 6

  /**
   * What the DNS library contributes: its table of type mnemonics, both ways, and the
   * canonical fields of record data given type, tokens and origin (none: a syntax error).
   * An SOA's serial is not among the tokens handed to it: see `DataOf`.
   */
  datatype Lib = Lib(
    names: map<nat, string>,
    codes: map<string, nat>,
    read: (nat, seq<string>, string) -> Option<seq<string>>)

  ghost predicate ValidLib(lib: Lib) {
    && (forall c {:trigger c in lib.names} :: c in lib.names ==>
          lib.names[c] in lib.codes && lib.codes[lib.names[c]] == c)
    && (forall s {:trigger TypeOf(lib, s)} :: Upper(s) in lib.codes ==>
          lib.codes[Upper(s)] in lib.names && lib.names[lib.codes[Upper(s)]] == Upper(s))
    && (forall s {:trigger s in lib.codes} :: s in lib.codes ==> s != "" && !IsDigit(s[0]) && Upper(s) == s)
    && SOA in lib.names && lib.names[SOA] == "SOA"
  }

  function TypeName(lib: Lib, rtype: nat): string {
    if rtype in lib.names then lib.names[rtype] else ""
  }

  // ----- The fields of a record line -----

  predicate IsClass(s: string) {
    var u := Upper(s);
    u == "IN" || u == "CH" || u == "HS" || u == "CS" || u == "ANY" || u == "NONE"
  }

  /** `TYPE123` or `CLASS1`: a keyword followed by a number. */
  predicate IsGeneric(word: string, s: string) {
    |s| > |word| && Upper(s[..|word|]) == word && AllDigits(s[|word|..])
  }

  predicate IsClassWord(s: string) {
    IsClass(s) || IsGeneric("CLASS", s)
  }

  /** The type a token names: a mnemonic of the table, or the generic spelling. */
  function TypeOf(lib: Lib, s: string): Option<nat> {
    if Upper(s) in lib.codes then Some(lib.codes[Upper(s)])
    else if IsGeneric("TYPE", s) then Some(Value(s[4..]))
    else None
  }

  function Unit(c: char): nat {
    var u := UpperChar(c);
    if u == 'S' then 1 else if u == 'M' then 60 else if u == 'H' then 3600
    else if u == 'D' then 86400 else if u == 'W' then 604800 else 0
  }

  /** Seconds, minutes, hours, days and weeks, in either case, and nothing else. */
  lemma UnitsAre(c: char)
    ensures Unit(c) == if c in "sS" then 1 else if c in "mM" then 60 else if c in "hH" then 3600
                       else if c in "dD" then 24 * 3600 else if c in "wW" then 7 * 24 * 3600 else 0
  {
  }

  /** A TTL token: a number, or a duration such as 1h30m; arithmetic modulo 2^32. */
  function TtlFrom(s: string, total: nat, num: nat): Option<nat> {
    if s == "" then Some((total + num) % UINT32)
    else if IsDigit(s[0]) then TtlFrom(s[1..], total, (10 * num + (s[0] as int - '0' as int)) % UINT32)
    else if Unit(s[0]) > 0 then TtlFrom(s[1..], (total + num * Unit(s[0])) % UINT32, 0)
    else None
  }

  function TtlOf(s: string): Option<nat> {
    TtlFrom(s, 0, 0)
  }

  /** The fields before the record data: TTL if stated, whether a class is, where the type is. */
  datatype Head = Head(ttl: Option<nat>, cls: bool, at: nat, rtype: nat)

  function HeadFrom(lib: Lib, texts: seq<string>, i: nat, ttl: Option<nat>, cls: bool): (h: Option<Head>)
    ensures h.Some? ==> i <= h.value.at < |texts|
    decreases |texts| - i
  {
    if i >= |texts| then None
    else if IsClassWord(texts[i]) then
      if cls then None else HeadFrom(lib, texts, i + 1, ttl, true)
    else match TypeOf(lib, texts[i])
      case Some(t) => Some(Head(ttl, cls, i, t))
      case None =>
        match TtlOf(texts[i])
        case Some(v) => if ttl.Some? then None else HeadFrom(lib, texts, i + 1, Some(v), cls)
        case None => None
  }

  // ----- Entries without their positions -----

  datatype Item = Item(kind: Kind, explicit: bool, texts: seq<string>, depth: int)

  function Texts(toks: seq<Tok>): (r: seq<string>)
    ensures |r| == |toks|
    ensures forall i :: 0 <= i < |toks| ==> r[i] == toks[i].text
  {
    seq(|toks|, i requires 0 <= i < |toks| => toks[i].text)
  }

  function ItemOf(e: Entry): Item {
    Item(e.kind, e.explicit, Texts(e.toks), e.depth)
  }

  function Items(es: seq<Entry>): (r: seq<Item>)
    ensures |r| == |es|
    ensures forall i :: 0 <= i < |es| ==> r[i] == ItemOf(es[i])
  {
    seq(|es|, i requires 0 <= i < |es| => ItemOf(es[i]))
  }

  function HeadOf(lib: Lib, it: Item): Option<Head> {
    HeadFrom(lib, it.texts, if it.explicit then 1 else 0, None, false)
  }

  // ----- Resolution -----

  datatype Default = Unset | Inherited(ttl: nat) | Directed(ttl: nat)

  /** The reader's context: the origin, the last owner and the TTL in force. */
  datatype Ctx = Ctx(scope: string, owner: string, ttl: Default)

  function Fqdn(s: string): string {
    if s != "" && s[|s| - 1] == '.' then s else s + "."
  }

  function Qualify(name: string, scope: string): string {
    if name == "@" then scope
    else if name != "" && name[|name| - 1] == '.' then name
    else if scope == "." then name + "."
    else name + "." + scope
  }

  /** The TTL of a record: its own, or the one in force; none when a bare line has neither. */
  function TtlIn(d: Default, h: Head, explicit: bool): Option<nat> {
    match h.ttl
    case Some(v) => Some(v)
    case None =>
      match d
      case Inherited(v) => Some(v)
      case Directed(v) => Some(v)
      case Unset => if explicit && !h.cls then None else Some(0)
  }

  /** A stated TTL becomes the one in force, unless `$TTL` has fixed it. */
  function DefaultAfter(d: Default, h: Head): Default {
    if h.ttl.Some? && !d.Directed? then Inherited(h.ttl.value) else d
  }

  /** The record data: an SOA's serial must be a 32-bit number and is kept as such. */
  function DataOf(lib: Lib, rtype: nat, data: seq<string>, scope: string): Option<seq<string>> {
    if rtype != SOA then lib.read(rtype, data, scope)
    else if |data| < 3 || ParseUint32(data[2]).None? then None
    else
      match lib.read(SOA, data[..2] + data[3..], scope)
      case Some(d) =>
        if |d| < 2 then None else Some(d[..2] + [Dec(ParseUint32(data[2]).value)] + d[2..])
      case None => None
  }

  function SerialOf(rr: Rr): nat {
    if rr.rtype == SOA && |rr.rdata| > 2 then
      match ParseUint32(rr.rdata[2])
      case Some(v) => v
      case None => 0
    else 0
  }

  function OwnerIn(ctx: Ctx, it: Item): string {
    if it.explicit && it.texts != [] then Qualify(it.texts[0], ctx.scope) else ctx.owner
  }

  function ReadRecord(lib: Lib, ctx: Ctx, it: Item): Option<Rr> {
    match HeadOf(lib, it)
    case None => None
    case Some(h) =>
      match (TtlIn(ctx.ttl, h, it.explicit), DataOf(lib, h.rtype, it.texts[h.at + 1..], ctx.scope))
      case (Some(ttl), Some(d)) => Some(Rr(OwnerIn(ctx, it), h.rtype, ttl, d))
      case _ => None
  }

  /** What an entry that is not a record does to the context; none when the reader stops. */
  function ReadControl(ctx: Ctx, it: Item): Option<Ctx> {
    if it.depth != 0 then None
    else match it.kind
      case Directive(Origin) => if |it.texts| == 2 then Some(ctx.(scope := Qualify(it.texts[1], ctx.scope))) else None
      case Directive(Ttl) =>
        if |it.texts| == 2 && TtlOf(it.texts[1]).Some? then Some(ctx.(ttl := Directed(TtlOf(it.texts[1]).value)))
        else None
      case Directive(_) => None
      case _ => Some(ctx)
  }

  function AfterRecord(lib: Lib, ctx: Ctx, it: Item): Ctx {
    match HeadOf(lib, it)
    case None => ctx
    case Some(h) => Ctx(ctx.scope, OwnerIn(ctx, it), DefaultAfter(ctx.ttl, h))
  }

  /** The records read before the first error, and whether there was none. */
  datatype Resolved = Resolved(rrs: seq<Rr>, ok: bool)

  function Resolve(lib: Lib, ctx: Ctx, items: seq<Item>): Resolved
    decreases |items|
  {
    if items == [] then Resolved([], true)
    else if items[0].kind.Record? then
      match ReadRecord(lib, ctx, items[0])
      case Some(rr) =>
        if items[0].depth != 0 then Resolved([], false)
        else
          var r := Resolve(lib, AfterRecord(lib, ctx, items[0]), items[1..]);
          r.(rrs := [rr] + r.rrs)
      case None => Resolved([], false)
    else
      match ReadControl(ctx, items[0])
      case Some(c) => Resolve(lib, c, items[1..])
      case None => Resolved([], false)
  }

  function Start(origin: string): Ctx {
    Ctx(Fqdn(origin), "", Unset)
  }

  /** The meaning of a zone file's text. */
  function Meaning(lib: Lib, origin: string, data: string): Resolved {
    Resolve(lib, Start(origin), Items(Entries(Split(data))))
  }
}
