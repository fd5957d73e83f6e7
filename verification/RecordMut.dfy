/** internal/recordmut over record lists: `restoreOps`, `ownedBy`, `validateOps` and `buildResult`. */
module RecordMut {
  import opened Text
  import opened Ownership
  import opened Sorting
  import U = Update
  import R = Restore

  datatype Record = Record(name: string, rtype: nat, ttl: nat, rdata: string)

  datatype Action = AddRR | DelRR | DelRRset | DelName

  datatype Op = Op(action: Action, rr: Record)

  /** What `rrKey` compares: name without case or trailing dot, type mnemonic, data. */
  datatype Key = Key(name: string, typeName: string, rdata: string)

  function Canon(name: string): string {
    Upper(TrimDot(name))
  }

  /** How the DNS library prints: its table of type mnemonics, and a record whose type has none. */
  datatype Names = Names(types: map<nat, string>, generic: Record -> string)

  /** The mnemonic; types without one have the empty string. */
  function TypeName(names: Names, rtype: nat): string {
    if rtype in names.types then names.types[rtype] else ""
  }

  ghost predicate ValidNames(names: Names) {
    forall a, b :: a in names.types && b in names.types && names.types[a] == names.types[b] ==> a == b
  }

  /** What the library prints of a header. */
  function Header(names: Names, rr: Record): string {
    rr.name + "\t" + Dec(rr.ttl) + "\tIN\t"
    + (if rr.rtype in names.types then names.types[rr.rtype] else "TYPE" + Dec(rr.rtype)) + "\t"
  }

  /** The record's zone-file form, which orders plans and shows in previews. */
  function TextOf(names: Names, rr: Record): string {
    if rr.rtype in names.types then Header(names, rr) + rr.rdata else names.generic(rr)
  }

  /** `strings.TrimPrefix` of the header: the data, where the record's text starts with its header. */
  function DataText(names: Names, rr: Record): (d: string)
    ensures rr.rtype in names.types ==> d == rr.rdata
  {
    var t, h := TextOf(names, rr), Header(names, rr);
    if h <= t then t[|h|..] else t
  }

  /** `rrKey`. */
  function KeyOf(names: Names, rr: Record): Key {
    Key(Canon(rr.name), TypeName(names, rr.rtype), DataText(names, rr))
  }

  function IdentOf(rr: Record): U.Ident {
    U.Ident(Canon(rr.name), rr.rtype, rr.rdata)
  }

  ghost predicate Known(names: Names, rrs: seq<Record>) {
    forall rr :: rr in rrs ==> rr.rtype in names.types
  }

  predicate KeyAgrees(names: Names, a: Record, b: Record) {
    KeyOf(names, a) == KeyOf(names, b) <==> IdentOf(a) == IdentOf(b)
  }

  /** On types with a mnemonic the key is type, data and owner, the owner without case or trailing dot. */
  lemma KeysTell(names: Names, a: Record, b: Record)
    requires ValidNames(names) && a.rtype in names.types && b.rtype in names.types
    ensures KeyOf(names, a) == KeyOf(names, b) <==> IdentOf(a) == IdentOf(b)
    ensures IdentOf(a) == IdentOf(b)
            <==> a.rtype == b.rtype && a.rdata == b.rdata && EqualFold(TrimDot(a.name), TrimDot(b.name))
  {
  }

  /** Among these records, `rrKey` tells apart exactly what the server tells apart. */
  ghost predicate Faithful(names: Names, rrs: seq<Record>) {
    forall a, b :: a in rrs && b in rrs ==> KeyAgrees(names, a, b)
  }

  /** On known types, equal keys mean the same record to the server, and conversely. */
  lemma KeysIdentify(names: Names, a: Record, b: Record)
    requires ValidNames(names) && a.rtype in names.types && b.rtype in names.types
    ensures KeyAgrees(names, a, b)
  {
  }

  /**
   * These records, as far as their types have no mnemonic, are printed so that the text does not
   * start with the header, and no two of them print alike.
   */
  ghost predicate PrintsGenericForm(names: Names, rrs: seq<Record>) {
    && ValidNames(names) && (forall t :: t in names.types ==> names.types[t] != "")
    && (forall rr :: rr in rrs && rr.rtype !in names.types ==> !(Header(names, rr) <= names.generic(rr)))
    && (forall a, b :: a in rrs && b in rrs ==> TellsApart(names, a, b))
  }

  predicate TellsApart(names: Names, a: Record, b: Record) {
    a.rtype !in names.types && b.rtype !in names.types && names.generic(a) == names.generic(b) ==> a == b
  }

  /** What RFC 3597 prints. */
  function GenericForm(rr: Record): string {
    GenericText(rr.name, rr.ttl, rr.rtype, rr.rdata)
  }

  lemma GenericStart(names: Names, rr: Record)
    requires rr.rtype !in names.types
    ensures !(Header(names, rr) <= GenericForm(rr))
  {
    var start := rr.name + "\t" + Dec(rr.ttl) + "\t";
    var h, g := Header(names, rr), GenericForm(rr);
    var hr := "N\t" + ("TYPE" + Dec(rr.rtype)) + "\t";
    var gr := "LASS1\tTYPE" + (Dec(rr.rtype) + ("\t" + rr.rdata));
    assert h == start + ("I" + hr);
    assert g == start + ("C" + gr);
    assert h[|start|] == 'I' && g[|start|] == 'C';
  }

  /** A printer that follows RFC 3597 does so for all records whose names hold no tab. */
  lemma Rfc3597Prints(names: Names, rrs: seq<Record>)
    requires ValidNames(names) && (forall t :: t in names.types ==> names.types[t] != "")
    requires forall rr :: rr in rrs ==> '\t' !in rr.name && names.generic(rr) == GenericForm(rr)
    ensures PrintsGenericForm(names, rrs)
  {
    forall rr | rr in rrs && rr.rtype !in names.types ensures !(Header(names, rr) <= names.generic(rr)) {
      GenericStart(names, rr);
    }
    forall a, b | a in rrs && b in rrs ensures TellsApart(names, a, b) {
      if names.generic(a) == names.generic(b) {
        GenericTextTells(a.name, a.ttl, a.rtype, a.rdata, b.name, b.ttl, b.rtype, b.rdata);
      }
    }
  }

  lemma GenericKeys(names: Names, rrs: seq<Record>, a: Record, b: Record)
    requires PrintsGenericForm(names, rrs) && a in rrs && b in rrs
    ensures KeyAgrees(names, a, b) <==> (IdentOf(a) == IdentOf(b) && a.rtype !in names.types ==> a == b)
    ensures KeyOf(names, a) == KeyOf(names, b) ==> IdentOf(a) == IdentOf(b)
  {
    assert TellsApart(names, a, b);
    if a.rtype in names.types && b.rtype in names.types {
      KeysIdentify(names, a, b);
    } else if a.rtype !in names.types && b.rtype !in names.types {
      assert !(Header(names, a) <= names.generic(a)) && !(Header(names, b) <= names.generic(b));
    }
  }

  /**
   * With types printed in that form, keys are faithful exactly when no two of the records are the
   * same record of a type without a mnemonic in different dress: another TTL, or another spelling of the owner.
   */
  lemma FaithfulExactly(names: Names, rrs: seq<Record>)
    requires PrintsGenericForm(names, rrs)
    ensures Faithful(names, rrs)
            <==> forall a, b :: a in rrs && b in rrs && IdentOf(a) == IdentOf(b) && a.rtype !in names.types ==> a == b
    ensures Separate(names, rrs)
  {
    forall a, b | a in rrs && b in rrs
      ensures KeyAgrees(names, a, b) <==> (IdentOf(a) == IdentOf(b) && a.rtype !in names.types ==> a == b)
      ensures Tells(names, a, b)
    {
      GenericKeys(names, rrs, a, b);
    }
  }

  /** Equal keys mean the same record to the server; one record may still have several keys. */
  predicate Tells(names: Names, a: Record, b: Record) {
    KeyOf(names, a) == KeyOf(names, b) ==> IdentOf(a) == IdentOf(b)
  }

  ghost predicate Separate(names: Names, rrs: seq<Record>) {
    forall a, b :: a in rrs && b in rrs ==> Tells(names, a, b)
  }

  /** On known types keys are always faithful. */
  lemma KnownFaithful(names: Names, rrs: seq<Record>)
    requires ValidNames(names) && Known(names, rrs)
    ensures Faithful(names, rrs) && Separate(names, rrs)
  {
    forall a, b | a in rrs && b in rrs ensures KeyAgrees(names, a, b) && Tells(names, a, b) {
      KeysIdentify(names, a, b);
    }
  }

  // ----- Key sets -----

  /** The operator's records by key, the last one winning. */
  function Keyed(names: Names, rrs: seq<Record>): map<Key, Record> {
    if rrs == [] then map[]
    else
      var n := |rrs| - 1;
      var m := Keyed(names, rrs[..n]);
      if U.Managed(rrs[n].rtype) then m else m[KeyOf(names, rrs[n]) := rrs[n]]
  }

  method KeySet(names: Names, rrs: seq<Record>) returns (m: map<Key, Record>)
    ensures m == Keyed(names, rrs)
  {
    m := map[];
    for i := 0 to |rrs|
      invariant m == Keyed(names, rrs[..i])
    {
      assert rrs[..i + 1][..i] == rrs[..i];
      if !U.Managed(rrs[i].rtype) {
        m := m[KeyOf(names, rrs[i]) := rrs[i]];
      }
    }
    assert rrs[..|rrs|] == rrs;
  }

  ghost predicate WellKeyed(names: Names, m: map<Key, Record>) {
    forall k :: k in m ==> KeyOf(names, m[k]) == k
  }

  lemma {:induction false} KeyedMembers(names: Names, rrs: seq<Record>)
    ensures WellKeyed(names, Keyed(names, rrs))
    ensures forall k :: k in Keyed(names, rrs) ==> Keyed(names, rrs)[k] in rrs && !U.Managed(Keyed(names, rrs)[k].rtype)
    ensures forall rr :: rr in rrs && !U.Managed(rr.rtype) ==> KeyOf(names, rr) in Keyed(names, rrs)
  {
    if rrs != [] {
      var n := |rrs| - 1;
      KeyedMembers(names, rrs[..n]);
      assert rrs == rrs[..n] + [rrs[n]];
    }
  }

  // ----- Sorting -----

  function TextLess(names: Names): (Record, Record) -> bool {
    (a: Record, b: Record) => Less(TextOf(names, a), TextOf(names, b))
  }

  lemma TextOrder(names: Names)
    ensures StrictWeakOrder(TextLess(names))
  {
    forall a, b | TextLess(names)(a, b) ensures !TextLess(names)(b, a) {
      LessAsymmetric(TextOf(names, a), TextOf(names, b));
    }
    forall a, b, c | !TextLess(names)(a, b) && !TextLess(names)(b, c) ensures !TextLess(names)(a, c) {
      LessNegative(TextOf(names, a), TextOf(names, b), TextOf(names, c));
    }
  }

  // ----- The plan -----

  /** `out` holds, once each and sorted, the records of `a` whose key is not in `b`. */
  ghost predicate Difference(names: Names, a: map<Key, Record>, b: map<Key, Record>, out: seq<Record>) {
    && Sorted(TextLess(names), out)
    && (forall rr :: rr in out <==> KeyOf(names, rr) in a && KeyOf(names, rr) !in b && a[KeyOf(names, rr)] == rr)
    && |out| == |a.Keys - b.Keys|
  }

  /** Iterating over one map's keys, keeping those the other lacks. */
  method KeysMinus<K(==)>(a: set<K>, b: set<K>) returns (ks: seq<K>)
    ensures forall k :: k in ks <==> k in a - b
    ensures |ks| == |a - b|
  {
    var todo := a;
    ks := [];
    ghost var done: set<K> := {};
    while todo != {}
      invariant forall k :: k in ks <==> k in done
      invariant |ks| == |done| && done !! todo
      invariant done + (todo - b) == a - b
      decreases |todo|
    {
      var k :| k in todo;
      ghost var rest := todo - {k};
      assert todo == rest + {k};
      todo := todo - {k};
      if k !in b {
        ks := ks + [k];
        done := done + {k};
      }
      assert done + (todo - b) == a - b;
    }
    assert done == a - b;
  }

  lemma SameMembers(s: seq<Record>, t: seq<Record>)
    requires multiset(s) == multiset(t)
    ensures |s| == |t| && forall rr :: rr in s <==> rr in t
  {
    assert |s| == |multiset(s)| && |t| == |multiset(t)|;
    forall rr ensures rr in s <==> rr in t {
      assert rr in s <==> rr in multiset(s);
      assert rr in t <==> rr in multiset(t);
    }
  }

  function Lookup(a: map<Key, Record>, ks: seq<Key>): (r: seq<Record>)
    requires forall i :: 0 <= i < |ks| ==> ks[i] in a
    ensures |r| == |ks| && forall i :: 0 <= i < |r| ==> r[i] == a[ks[i]]
  {
    seq(|ks|, i requires 0 <= i < |ks| => a[ks[i]])
  }

  lemma LookupAt(a: map<Key, Record>, ks: seq<Key>, k: Key)
    requires (forall i :: 0 <= i < |ks| ==> ks[i] in a) && k in ks
    ensures a[k] in Lookup(a, ks)
  {
    var i :| 0 <= i < |ks| && ks[i] == k;
    assert Lookup(a, ks)[i] == a[k];
  }

  lemma LookupFrom(a: map<Key, Record>, ks: seq<Key>, rr: Record) returns (k: Key)
    requires (forall i :: 0 <= i < |ks| ==> ks[i] in a) && rr in Lookup(a, ks)
    ensures k in ks && a[k] == rr
  {
    var got := Lookup(a, ks);
    var i :| 0 <= i < |got| && got[i] == rr;
    k := ks[i];
  }

  lemma LookupMembers(names: Names, a: map<Key, Record>, ks: seq<Key>, rr: Record)
    requires WellKeyed(names, a) && forall i :: 0 <= i < |ks| ==> ks[i] in a
    ensures rr in Lookup(a, ks) <==> KeyOf(names, rr) in ks && a[KeyOf(names, rr)] == rr
  {
    if KeyOf(names, rr) in ks {
      LookupAt(a, ks, KeyOf(names, rr));
    }
    if rr in Lookup(a, ks) {
      var k := LookupFrom(a, ks, rr);
      assert KeyOf(names, a[k]) == k;
    }
  }

  method Minus(names: Names, a: map<Key, Record>, b: map<Key, Record>) returns (out: seq<Record>)
    requires WellKeyed(names, a)
    ensures Difference(names, a, b, out)
  {
    var ks := KeysMinus(a.Keys, b.Keys);
    assert forall i :: 0 <= i < |ks| ==> ks[i] in ks;
    var got := Lookup(a, ks);
    TextOrder(names);
    out := SortList(TextLess(names), got);
    SameMembers(out, got);
    forall rr ensures rr in out <==> KeyOf(names, rr) in a && KeyOf(names, rr) !in b && a[KeyOf(names, rr)] == rr {
      LookupMembers(names, a, ks, rr);
    }
  }

  function Ops(action: Action, rrs: seq<Record>): (r: seq<Op>)
    ensures |r| == |rrs| && forall i :: 0 <= i < |r| ==> r[i] == Op(action, rrs[i])
  {
    seq(|rrs|, i requires 0 <= i < |rrs| => Op(action, rrs[i]))
  }

  /** `restoreOps`: deletions of what live gained, then additions of what it lost, each sorted. */
  method RestoreOps(names: Names, want: seq<Record>, live: seq<Record>)
    returns (ops: seq<Op>, dels: seq<Record>, adds: seq<Record>)
    ensures ops == Ops(DelRR, dels) + Ops(AddRR, adds)
    ensures Difference(names, Keyed(names, live), Keyed(names, want), dels)
    ensures Difference(names, Keyed(names, want), Keyed(names, live), adds)
  {
    var wantSet := KeySet(names, want);
    var liveSet := KeySet(names, live);
    KeyedMembers(names, want);
    KeyedMembers(names, live);
    adds := Minus(names, wantSet, liveSet);
    dels := Minus(names, liveSet, wantSet);
    ops := Ops(DelRR, dels) + Ops(AddRR, adds);
  }

  // ----- Ownership -----

  /** `dns.CanonicalName`: folded case, fully qualified. */
  function Canonical(name: string): string {
    Canon(name) + "."
  }

  function OwnedBy(zones: seq<string>, target: string, rrs: seq<Record>): seq<Record> {
    if rrs == [] then []
    else
      var n := |rrs| - 1;
      OwnedBy(zones, target, rrs[..n])
      + (if MostSpecific(zones, Canonical(rrs[n].name)) == target then [rrs[n]] else [])
  }

  method FilterOwned(zones: seq<string>, target: string, rrs: seq<Record>) returns (out: seq<Record>)
    ensures out == OwnedBy(zones, target, rrs)
  {
    out := [];
    for i := 0 to |rrs|
      invariant out == OwnedBy(zones, target, rrs[..i])
    {
      assert rrs[..i + 1][..i] == rrs[..i];
      var z := MostSpecificZone(zones, Canonical(rrs[i].name));
      if z == target {
        out := out + [rrs[i]];
      }
    }
    assert rrs[..|rrs|] == rrs;
  }

  lemma {:induction false} OwnedMembers(zones: seq<string>, target: string, rrs: seq<Record>)
    ensures forall rr :: rr in OwnedBy(zones, target, rrs)
              <==> rr in rrs && MostSpecific(zones, Canonical(rr.name)) == target
  {
    if rrs != [] {
      var n := |rrs| - 1;
      OwnedMembers(zones, target, rrs[..n]);
      assert rrs == rrs[..n] + [rrs[n]];
    }
  }

  /** The names of identities that `target` owns. */
  function Own(zones: seq<string>, target: string): string -> bool {
    name => MostSpecific(zones, name + ".") == target
  }

  /** `validateOps` accepts: at least one operation, each on a record this zone owns. */
  predicate ValidOps(zones: seq<string>, target: string, ops: seq<Op>) {
    |ops| > 0 && forall i :: 0 <= i < |ops| ==> MostSpecific(zones, Canonical(ops[i].rr.name)) == target
  }

  method ValidateOps(zones: seq<string>, target: string, ops: seq<Op>) returns (ok: bool)
    requires target != ""
    ensures ok == ValidOps(zones, target, ops)
    ensures ok <==> ops != [] && forall op :: op in ops ==> MostSpecific(zones, Canonical(op.rr.name)) == target
  {
    if |ops| == 0 {
      return false;
    }
    for i := 0 to |ops|
      invariant forall j :: 0 <= j < i ==> MostSpecific(zones, Canonical(ops[j].rr.name)) == target
    {
      var owner := MostSpecificZone(zones, Canonical(ops[i].rr.name));
      if owner == "" {
        return false;
      }
      if owner != target {
        return false;
      }
    }
    return true;
  }

  // ----- From lists to the server's zone -----

  /** The zone a transfer shows; a repeated record counts once, the last TTL standing. */
  function ZoneOf(rrs: seq<Record>): U.Zone {
    if rrs == [] then map[]
    else ZoneOf(rrs[..|rrs| - 1])[IdentOf(rrs[|rrs| - 1]) := rrs[|rrs| - 1].ttl]
  }

  lemma {:induction false} ZoneMembers(rrs: seq<Record>)
    ensures forall rr :: rr in rrs ==> IdentOf(rr) in ZoneOf(rrs)
    ensures forall id :: id in ZoneOf(rrs) ==> exists rr :: rr in rrs && IdentOf(rr) == id
  {
    if rrs != [] {
      var n := |rrs| - 1;
      ZoneMembers(rrs[..n]);
      assert rrs == rrs[..n] + [rrs[n]];
      assert rrs[n] in rrs;
      forall id | id in ZoneOf(rrs) ensures exists rr :: rr in rrs && IdentOf(rr) == id {
        if id == IdentOf(rrs[n]) {
          assert rrs[n] in rrs;
        } else {
          var rr :| rr in rrs[..n] && IdentOf(rr) == id;
          assert rr in rrs;
        }
      }
    }
  }

  function Idents(rrs: seq<Record>): (r: seq<U.Ident>)
    ensures |r| == |rrs| && forall i :: 0 <= i < |r| ==> r[i] == IdentOf(rrs[i])
  {
    seq(|rrs|, i requires 0 <= i < |rrs| => IdentOf(rrs[i]))
  }

  predicate Counts(zones: seq<string>, target: string, rr: Record) {
    MostSpecific(zones, Canonical(rr.name)) == target && !U.Managed(rr.rtype)
  }

  lemma OwnedKeyedStep(names: Names, zones: seq<string>, target: string, front: seq<Record>, last: Record)
    ensures Keyed(names, OwnedBy(zones, target, front + [last]))
            == if Counts(zones, target, last)
               then Keyed(names, OwnedBy(zones, target, front))[KeyOf(names, last) := last]
               else Keyed(names, OwnedBy(zones, target, front))
  {
    assert (front + [last])[..|front|] == front;
    var of, o := OwnedBy(zones, target, front), OwnedBy(zones, target, front + [last]);
    if MostSpecific(zones, Canonical(last.name)) == target {
      assert o[..|o| - 1] == of && o[|o| - 1] == last;
    } else {
      assert o == of;
    }
  }

  lemma ZoneStep(front: seq<Record>, last: Record)
    ensures ZoneOf(front + [last]) == ZoneOf(front)[IdentOf(last) := last.ttl]
  {
    assert (front + [last])[..|front|] == front;
  }

  /** The same record to the server, with the same key. */
  lemma SameIdentCounts(zones: seq<string>, target: string, a: Record, b: Record)
    requires IdentOf(a) == IdentOf(b)
    ensures Counts(zones, target, a) == Counts(zones, target, b)
  {
  }

  lemma LastIsOther(names: Names, zones: seq<string>, target: string, front: seq<Record>, last: Record, v: Record)
    requires Across(names, front, [last]) && v in front && Counts(zones, target, v)
    requires !Counts(zones, target, last) || KeyOf(names, v) != KeyOf(names, last)
    ensures IdentOf(last) != IdentOf(v)
  {
    AcrossAt(names, front, [last], v, last);
    if IdentOf(last) == IdentOf(v) {
      SameIdentCounts(zones, target, last, v);
    }
  }

  /** A record kept from the front of the list keeps its TTL when another record is added to the zone. */
  lemma KeptTtl(names: Names, zones: seq<string>, target: string, front: seq<Record>, last: Record, k: Key)
    requires Across(names, front, [last]) && k in Keyed(names, OwnedBy(zones, target, front))
    requires !(Counts(zones, target, last) && k == KeyOf(names, last))
    ensures var v := Keyed(names, OwnedBy(zones, target, front))[k];
            IdentOf(v) in ZoneOf(front) && ZoneOf(front)[IdentOf(last) := last.ttl][IdentOf(v)]
              == ZoneOf(front)[IdentOf(v)]
  {
    KeyedIsOurs(names, zones, target, front, k);
    LastIsOther(names, zones, target, front, last, Keyed(names, OwnedBy(zones, target, front))[k]);
  }

  /** The record kept under a key is in the zone with its own TTL. */
  predicate KeptAsIs(names: Names, zones: seq<string>, target: string, rrs: seq<Record>, k: Key) {
    k in Keyed(names, OwnedBy(zones, target, rrs)) ==>
      var v := Keyed(names, OwnedBy(zones, target, rrs))[k];
      IdentOf(v) in ZoneOf(rrs) && ZoneOf(rrs)[IdentOf(v)] == v.ttl
  }

  lemma KeptStep(names: Names, zones: seq<string>, target: string, front: seq<Record>, last: Record, k: Key)
    requires Across(names, front, [last]) && KeptAsIs(names, zones, target, front, k)
    ensures KeptAsIs(names, zones, target, front + [last], k)
  {
    OwnedKeyedStep(names, zones, target, front, last);
    ZoneStep(front, last);
    if k in Keyed(names, OwnedBy(zones, target, front + [last]))
       && !(Counts(zones, target, last) && k == KeyOf(names, last)) {
      KeptTtl(names, zones, target, front, last, k);
    }
  }

  /** The record kept for a key is the last one, so its TTL is the zone's. */
  lemma {:induction false} KeyedTtl(names: Names, zones: seq<string>, target: string, rrs: seq<Record>, k: Key)
    requires Faithful(names, rrs)
    ensures KeptAsIs(names, zones, target, rrs, k)
  {
    if rrs != [] {
      var n := |rrs| - 1;
      assert rrs == rrs[..n] + [rrs[n]];
      FaithfulParts(names, rrs[..n], [rrs[n]]);
      KeyedTtl(names, zones, target, rrs[..n], k);
      KeptStep(names, zones, target, rrs[..n], rrs[n], k);
    }
  }

  // ----- The plan of `RestorePlan` -----

  /** The two lists `restoreOps` returns for the owned part of snapshot and live zone. */
  ghost predicate Planned(names: Names, zones: seq<string>, target: string,
                          want: seq<Record>, live: seq<Record>, dels: seq<Record>, adds: seq<Record>) {
    var w, l := Keyed(names, OwnedBy(zones, target, want)), Keyed(names, OwnedBy(zones, target, live));
    Difference(names, l, w, dels) && Difference(names, w, l, adds)
  }

  /** A record kept under a key is one of ours, and in the zone. */
  lemma KeyedIsOurs(names: Names, zones: seq<string>, target: string, rrs: seq<Record>, k: Key)
    requires k in Keyed(names, OwnedBy(zones, target, rrs))
    ensures var v := Keyed(names, OwnedBy(zones, target, rrs))[k];
            && v in rrs && KeyOf(names, v) == k
            && MostSpecific(zones, Canonical(v.name)) == target
            && IdentOf(v) in ZoneOf(rrs) && R.Ours(Own(zones, target), IdentOf(v))
  {
    KeyedMembers(names, OwnedBy(zones, target, rrs));
    OwnedMembers(zones, target, rrs);
    ZoneMembers(rrs);
  }

  /** A record of ours in the zone is kept under its key. */
  lemma OursIsKeyed(names: Names, zones: seq<string>, target: string, rrs: seq<Record>, id: U.Ident) returns (k: Key)
    requires Faithful(names, rrs)
    requires id in ZoneOf(rrs) && R.Ours(Own(zones, target), id)
    ensures k in Keyed(names, OwnedBy(zones, target, rrs))
    ensures IdentOf(Keyed(names, OwnedBy(zones, target, rrs))[k]) == id
    ensures forall rr :: rr in rrs && IdentOf(rr) == id ==> KeyOf(names, rr) == k
  {
    ZoneMembers(rrs);
    OwnedMembers(zones, target, rrs);
    KeyedMembers(names, OwnedBy(zones, target, rrs));
    var rr :| rr in rrs && IdentOf(rr) == id;
    assert rr in OwnedBy(zones, target, rrs);
    k := KeyOf(names, rr);
    var v := Keyed(names, OwnedBy(zones, target, rrs))[k];
    assert KeyAgrees(names, v, rr);
    forall r | r in rrs && IdentOf(r) == id ensures KeyOf(names, r) == k {
      assert KeyAgrees(names, r, rr);
    }
  }

  /** Faithful across two lists. */
  ghost predicate Across(names: Names, a: seq<Record>, b: seq<Record>) {
    forall x, y :: x in a && y in b ==> KeyAgrees(names, x, y)
  }

  lemma FaithfulParts(names: Names, a: seq<Record>, b: seq<Record>)
    requires Faithful(names, a + b)
    ensures Faithful(names, a) && Faithful(names, b) && Across(names, a, b) && Across(names, b, a)
  {
    forall x, y | x in a + b && y in a + b ensures KeyAgrees(names, x, y) {
    }
  }

  /** Map `m` keeps, by key, one record of `rrs` for each of our records in the zone `z` it makes. */
  ghost predicate Kept(names: Names, own: string -> bool, rrs: seq<Record>, z: U.Zone, m: map<Key, Record>) {
    && (forall k :: k in m ==>
          KeyOf(names, m[k]) == k && m[k] in rrs && IdentOf(m[k]) in z && R.Ours(own, IdentOf(m[k])))
    && (forall id :: id in z && R.Ours(own, id) ==> exists k :: k in m && IdentOf(m[k]) == id)
  }

  lemma KeptHolds(names: Names, zones: seq<string>, target: string, rrs: seq<Record>)
    requires Faithful(names, rrs)
    ensures Kept(names, Own(zones, target), rrs, ZoneOf(rrs), Keyed(names, OwnedBy(zones, target, rrs)))
  {
    var m := Keyed(names, OwnedBy(zones, target, rrs));
    forall k | k in m
      ensures KeyOf(names, m[k]) == k && m[k] in rrs && IdentOf(m[k]) in ZoneOf(rrs)
              && R.Ours(Own(zones, target), IdentOf(m[k]))
    {
      KeyedIsOurs(names, zones, target, rrs, k);
    }
    forall id | id in ZoneOf(rrs) && R.Ours(Own(zones, target), id) ensures exists k :: k in m && IdentOf(m[k]) == id {
      var k := OursIsKeyed(names, zones, target, rrs, id);
    }
  }

  /**
   * What every restore may assume of the two lists: each shows a record in one dress only, and
   * no two records share a key; types known to the library keep their header out of the key.
   */
  ghost predicate Comparable(names: Names, want: seq<Record>, live: seq<Record>) {
    && ValidNames(names) && U.NS in names.types
    && Faithful(names, want) && Faithful(names, live) && Separate(names, want + live)
  }

  /** One record in two dresses: the same to the server, with different keys. */
  predicate OtherDress(names: Names, a: Record, b: Record) {
    IdentOf(a) == IdentOf(b) && KeyOf(names, a) != KeyOf(names, b)
  }

  /** The records that snapshot and live zone show in different dress: a plan deletes and adds them. */
  ghost function Redressed(names: Names, want: seq<Record>, live: seq<Record>): set<U.Ident> {
    set rr | rr in want && (exists b :: b in live && OtherDress(names, rr, b)) :: IdentOf(rr)
  }

  lemma RedressedMembers(names: Names, want: seq<Record>, live: seq<Record>)
    requires ValidNames(names) && U.NS in names.types
    ensures forall id :: id in Redressed(names, want, live) ==>
              id in ZoneOf(want) && id in ZoneOf(live) && id.rtype != U.NS
  {
    ZoneMembers(want);
    ZoneMembers(live);
    forall id | id in Redressed(names, want, live)
      ensures id in ZoneOf(want) && id in ZoneOf(live) && id.rtype != U.NS {
      var rr :| rr in want && (exists b :: b in live && OtherDress(names, rr, b)) && IdentOf(rr) == id;
      var b :| b in live && OtherDress(names, rr, b);
      if id.rtype == U.NS {
        KeysIdentify(names, rr, b);
      }
    }
  }

  lemma RedressedIs(names: Names, want: seq<Record>, live: seq<Record>, a: Record, b: Record)
    requires a in want && b in live && OtherDress(names, a, b)
    ensures IdentOf(a) in Redressed(names, want, live)
  {
  }

  /** `redo` holds exactly what the two lists show in different dress; it reads the same from either side. */
  ghost predicate Redone(names: Names, a: seq<Record>, b: seq<Record>, redo: set<U.Ident>) {
    && (forall x, y :: x in a && y in b && OtherDress(names, x, y) ==> IdentOf(x) in redo)
    && (forall id :: id in redo ==> exists x, y :: x in a && y in b && OtherDress(names, x, y) && IdentOf(x) == id)
  }

  lemma RedressedRedone(names: Names, want: seq<Record>, live: seq<Record>)
    ensures Redone(names, want, live, Redressed(names, want, live))
            && Redone(names, live, want, Redressed(names, want, live))
  {
    var redo := Redressed(names, want, live);
    forall x, y | x in live && y in want && OtherDress(names, x, y) ensures IdentOf(x) in redo {
      RedressedIs(names, want, live, y, x);
    }
    forall id | id in redo
      ensures exists x, y :: x in want && y in live && OtherDress(names, x, y) && IdentOf(x) == id
      ensures exists x, y :: x in live && y in want && OtherDress(names, x, y) && IdentOf(x) == id
    {
      var rr :| rr in want && (exists b :: b in live && OtherDress(names, rr, b)) && IdentOf(rr) == id;
      var b :| b in live && OtherDress(names, rr, b);
      assert OtherDress(names, b, rr) && IdentOf(b) == id;
    }
  }

  ghost predicate AcrossTells(names: Names, a: seq<Record>, b: seq<Record>) {
    forall x, y :: x in a && y in b ==> Tells(names, x, y)
  }

  lemma SeparateParts(names: Names, a: seq<Record>, b: seq<Record>)
    requires Separate(names, a + b)
    ensures AcrossTells(names, a, b) && AcrossTells(names, b, a)
  {
    forall x, y | x in a + b && y in a + b ensures Tells(names, x, y) {
    }
  }

  /** What is listed on one side is there, and is missing on the other side or shown in another dress. */
  lemma SideSound(names: Names, own: string -> bool, a: seq<Record>, za: U.Zone, ma: map<Key, Record>,
                  b: seq<Record>, zb: U.Zone, mb: map<Key, Record>, redo: set<U.Ident>, rr: Record, out: seq<Record>)
    requires Kept(names, own, a, za, ma) && Kept(names, own, b, zb, mb) && Redone(names, a, b, redo)
    requires Difference(names, ma, mb, out) && rr in out
    ensures IdentOf(rr) in za && R.Ours(own, IdentOf(rr)) && (IdentOf(rr) !in zb || IdentOf(rr) in redo)
  {
    if IdentOf(rr) in zb {
      var k :| k in mb && IdentOf(mb[k]) == IdentOf(rr);
      assert OtherDress(names, rr, mb[k]);
    }
  }

  /** What is missing on the other side or shown there in another dress is listed. */
  lemma SideComplete(names: Names, own: string -> bool, a: seq<Record>, za: U.Zone, ma: map<Key, Record>,
                     b: seq<Record>, zb: U.Zone, mb: map<Key, Record>, redo: set<U.Ident>, out: seq<Record>,
                     id: U.Ident)
    returns (rr: Record)
    requires Kept(names, own, a, za, ma) && Kept(names, own, b, zb, mb) && Redone(names, a, b, redo)
    requires Faithful(names, a) && Faithful(names, b) && AcrossTells(names, a, b) && Difference(names, ma, mb, out)
    requires id in za && R.Ours(own, id) && (id !in zb || id in redo)
    ensures rr in out && IdentOf(rr) == id
  {
    var k :| k in ma && IdentOf(ma[k]) == id;
    rr := ma[k];
    if k in mb {
      TellsAt(names, a, b, rr, mb[k]);
      var x, y :| x in a && y in b && OtherDress(names, x, y) && IdentOf(x) == id;
      FaithfulAt(names, a, x, rr);
      FaithfulAt(names, b, y, mb[k]);
    }
  }

  lemma TellsAt(names: Names, a: seq<Record>, b: seq<Record>, x: Record, y: Record)
    requires AcrossTells(names, a, b) && x in a && y in b && KeyOf(names, x) == KeyOf(names, y)
    ensures IdentOf(x) == IdentOf(y)
  {
    assert Tells(names, x, y);
  }

  lemma FaithfulAt(names: Names, rrs: seq<Record>, x: Record, y: Record)
    requires Faithful(names, rrs) && x in rrs && y in rrs
    ensures KeyAgrees(names, x, y)
  {
  }

  /** One side of the delta, seen by the server: what `a` has of ours and `b` lacks, or shows in another dress. */
  lemma SideExact(names: Names, own: string -> bool, a: seq<Record>, za: U.Zone, ma: map<Key, Record>,
                  b: seq<Record>, zb: U.Zone, mb: map<Key, Record>, redo: set<U.Ident>, out: seq<Record>, id: U.Ident)
    requires Kept(names, own, a, za, ma) && Kept(names, own, b, zb, mb) && Redone(names, a, b, redo)
    requires Faithful(names, a) && Faithful(names, b) && AcrossTells(names, a, b) && Difference(names, ma, mb, out)
    ensures id in Idents(out) <==> id in za && R.Ours(own, id) && (id !in zb || id in redo)
  {
    if id in Idents(out) {
      var i :| 0 <= i < |out| && IdentOf(out[i]) == id;
      SideSound(names, own, a, za, ma, b, zb, mb, redo, out[i], out);
    }
    if id in za && R.Ours(own, id) && (id !in zb || id in redo) {
      var rr := SideComplete(names, own, a, za, ma, b, zb, mb, redo, out, id);
      var i :| 0 <= i < |out| && out[i] == rr;
      assert Idents(out)[i] == id;
    }
  }

  lemma AcrossAt(names: Names, a: seq<Record>, b: seq<Record>, x: Record, y: Record)
    requires Across(names, a, b) && x in a && y in b
    ensures KeyAgrees(names, x, y)
  {
  }

  lemma PlanIsPlan(names: Names, zones: seq<string>, target: string,
                   want: seq<Record>, live: seq<Record>, dels: seq<Record>, adds: seq<Record>)
    requires Comparable(names, want, live) && Planned(names, zones, target, want, live, dels, adds)
    ensures R.IsPlan(Own(zones, target), ZoneOf(want), ZoneOf(live), Redressed(names, want, live), Idents(dels),
            Idents(adds))
  {
    SeparateParts(names, want, live);
    KeptHolds(names, zones, target, want);
    KeptHolds(names, zones, target, live);
    RedressedMembers(names, want, live);
    RedressedRedone(names, want, live);
    var own, redo := Own(zones, target), Redressed(names, want, live);
    var w, l := Keyed(names, OwnedBy(zones, target, want)), Keyed(names, OwnedBy(zones, target, live));
    var zw, zl := ZoneOf(want), ZoneOf(live);
    forall id ensures id in Idents(dels) <==> id in zl && R.Ours(own, id) && (id !in zw || id in redo) {
      SideExact(names, own, live, zl, l, want, zw, w, redo, dels, id);
    }
    forall id ensures id in Idents(adds) <==> id in zw && R.Ours(own, id) && (id !in zl || id in redo) {
      SideExact(names, own, want, zw, w, live, zl, l, redo, adds, id);
    }
  }

  /** What an operation becomes in the UPDATE message. */
  function Wire(op: Op): U.Op {
    match op.action
    case AddRR => U.Add(IdentOf(op.rr), op.rr.ttl)
    case DelRR => U.DelRr(IdentOf(op.rr))
    case DelRRset => U.DelRrset(Canon(op.rr.name), op.rr.rtype)
    case DelName => U.DelName(Canon(op.rr.name))
  }

  function WireAll(ops: seq<Op>): (r: seq<U.Op>)
    ensures |r| == |ops| && forall i :: 0 <= i < |r| ==> r[i] == Wire(ops[i])
  {
    seq(|ops|, i requires 0 <= i < |ops| => Wire(ops[i]))
  }

  /** The zone holds each of these records, with its TTL. */
  ghost predicate Holds(z: U.Zone, rrs: seq<Record>) {
    forall i :: 0 <= i < |rrs| ==> IdentOf(rrs[i]) in z && z[IdentOf(rrs[i])] == rrs[i].ttl
  }

  lemma WireIs(dels: seq<Record>, adds: seq<Record>, z: U.Zone)
    requires Holds(z, adds)
    ensures forall i :: 0 <= i < |adds| ==> Idents(adds)[i] in z
    ensures WireAll(Ops(DelRR, dels) + Ops(AddRR, adds)) == R.DelOps(Idents(dels)) + R.AddOps(Idents(adds), z)
  {
  }

  lemma PlanOnTheWire(names: Names, zones: seq<string>, target: string,
                      want: seq<Record>, live: seq<Record>, dels: seq<Record>, adds: seq<Record>)
    requires Faithful(names, want) && Planned(names, zones, target, want, live, dels, adds)
    ensures Holds(ZoneOf(want), adds)
  {
    forall i | 0 <= i < |adds|
      ensures IdentOf(adds[i]) in ZoneOf(want) && ZoneOf(want)[IdentOf(adds[i])] == adds[i].ttl
    {
      assert adds[i] in adds;
      KeyedTtl(names, zones, target, want, KeyOf(names, adds[i]));
    }
  }

  /**
   * The restore end to end: performing the operations `RestorePlan` computes from a snapshot
   * and a transfer of the live zone restores exactly the snapshot's operator records that the
   * zone owns, and touches nothing else, if and only if the two share an apex NS (or live has
   * none) and no addition conflicts with a CNAME of the snapshot; and every operation is valid.
   * A record the two show in different dress is deleted and added, and has the snapshot's TTL.
   */
  lemma RestorePlanExact(sv: U.Server, names: Names, zones: seq<string>, target: string,
                         want: seq<Record>, live: seq<Record>, dels: seq<Record>, adds: seq<Record>)
    requires Comparable(names, want, live) && Planned(names, zones, target, want, live, dels, adds)
    requires Own(zones, target)(sv.apex)
    ensures var ops, own := Ops(DelRR, dels) + Ops(AddRR, adds), Own(zones, target);
            var zw, zl, redo := ZoneOf(want), ZoneOf(live), Redressed(names, want, live);
            && (R.RestoredExactly(own, zw, zl, redo, U.PerformAll(sv, zl, WireAll(ops)))
                <==> R.SharesNs(sv, zw, zl) && R.AddsFit(own, zw, zl, redo))
            && (ops != [] ==> ValidOps(zones, target, ops))
  {
    var zw, zl, redo := ZoneOf(want), ZoneOf(live), Redressed(names, want, live);
    PlanIsPlan(names, zones, target, want, live, dels, adds);
    PlanOnTheWire(names, zones, target, want, live, dels, adds);
    WireIs(dels, adds, zw);
    R.RestoreExact(sv, Own(zones, target), zw, zl, redo, Idents(dels), Idents(adds));
    PlanValid(names, zones, target, want, live, dels, adds);
  }

  lemma KnownParts(names: Names, want: seq<Record>, live: seq<Record>)
    requires Known(names, want) && Known(names, live)
    ensures Known(names, want + live)
  {
  }

  /** Lists of known types are comparable, and show no record in two dresses. */
  lemma KnownComparable(names: Names, want: seq<Record>, live: seq<Record>)
    requires ValidNames(names) && U.NS in names.types && Known(names, want) && Known(names, live)
    ensures Comparable(names, want, live) && Redressed(names, want, live) == {}
  {
    KnownFaithful(names, want);
    KnownFaithful(names, live);
    KnownParts(names, want, live);
    KnownFaithful(names, want + live);
    forall a, b | a in want && b in live ensures !OtherDress(names, a, b) {
      KeysIdentify(names, a, b);
    }
  }

  /** Lists printed as RFC 3597 has it are comparable when each shows a record in one dress. */
  lemma PrintedComparable(names: Names, want: seq<Record>, live: seq<Record>)
    requires PrintsGenericForm(names, want + live) && U.NS in names.types
    requires Faithful(names, want) && Faithful(names, live)
    ensures Comparable(names, want, live)
  {
    FaithfulExactly(names, want + live);
  }

  /** On known types a restore is exact, and leaves every kept record's TTL alone, under the same condition. */
  lemma RestoreKnownTypes(sv: U.Server, names: Names, zones: seq<string>, target: string,
                          want: seq<Record>, live: seq<Record>, dels: seq<Record>, adds: seq<Record>)
    requires ValidNames(names) && U.NS in names.types && Known(names, want) && Known(names, live)
    requires Planned(names, zones, target, want, live, dels, adds) && Own(zones, target)(sv.apex)
    ensures var ops, own, zw, zl := Ops(DelRR, dels) + Ops(AddRR, adds), Own(zones, target), ZoneOf(want), ZoneOf(live);
            && (R.RestoredExactly(own, zw, zl, {}, U.PerformAll(sv, zl, WireAll(ops)))
                <==> R.SharesNs(sv, zw, zl) && R.AddsFit(own, zw, zl, {}))
  {
    KnownComparable(names, want, live);
    RestorePlanExact(sv, names, zones, target, want, live, dels, adds);
  }

  lemma SideOwned(names: Names, zones: seq<string>, target: string, a: seq<Record>, b: map<Key, Record>,
                  out: seq<Record>, i: nat)
    requires Difference(names, Keyed(names, OwnedBy(zones, target, a)), b, out) && i < |out|
    ensures MostSpecific(zones, Canonical(out[i].name)) == target
  {
    assert out[i] in out;
    KeyedIsOurs(names, zones, target, a, KeyOf(names, out[i]));
  }

  predicate AllOwned(zones: seq<string>, target: string, rrs: seq<Record>) {
    forall i :: 0 <= i < |rrs| ==> MostSpecific(zones, Canonical(rrs[i].name)) == target
  }

  lemma OwnedOpsValid(zones: seq<string>, target: string, dels: seq<Record>, adds: seq<Record>)
    requires AllOwned(zones, target, dels) && AllOwned(zones, target, adds)
    ensures var ops := Ops(DelRR, dels) + Ops(AddRR, adds); ops != [] ==> ValidOps(zones, target, ops)
  {
  }

  /** Every operation of a plan is on a record the zone owns: `validateOps` never refuses one. */
  lemma PlanValid(names: Names, zones: seq<string>, target: string,
                  want: seq<Record>, live: seq<Record>, dels: seq<Record>, adds: seq<Record>)
    requires Planned(names, zones, target, want, live, dels, adds)
    ensures var ops := Ops(DelRR, dels) + Ops(AddRR, adds); ops != [] ==> ValidOps(zones, target, ops)
  {
    forall i | 0 <= i < |dels| ensures MostSpecific(zones, Canonical(dels[i].name)) == target {
      SideOwned(names, zones, target, live, Keyed(names, OwnedBy(zones, target, want)), dels, i);
    }
    forall i | 0 <= i < |adds| ensures MostSpecific(zones, Canonical(adds[i].name)) == target {
      SideOwned(names, zones, target, want, Keyed(names, OwnedBy(zones, target, live)), adds, i);
    }
    OwnedOpsValid(zones, target, dels, adds);
  }

  /**
   * The same record of a type without a mnemonic, under another TTL or spelling in the snapshot: the
   * plan deletes and adds it, where a known type's would be left alone.
   */
  lemma GenericReplanned(names: Names, want: Record, live: Record, dels: seq<Record>, adds: seq<Record>)
    requires PrintsGenericForm(names, [want, live])
    requires want != live && IdentOf(want) == IdentOf(live) && !U.Managed(want.rtype)
    requires Difference(names, Keyed(names, [live]), Keyed(names, [want]), dels)
    requires Difference(names, Keyed(names, [want]), Keyed(names, [live]), adds)
    ensures want.rtype in names.types ==> dels == [] && adds == []
    ensures want.rtype !in names.types ==> dels == [live] && adds == [want]
  {
    GenericKeys(names, [want, live], want, live);
    KeyedOne(names, want);
    KeyedOne(names, live);
    OnlyOne(names, live, Keyed(names, [want]), dels);
    OnlyOne(names, want, Keyed(names, [live]), adds);
  }

  /** A table of two types and the printer of RFC 3597. */
  function SmallNames(): Names {
    Names(map[1 := "A", U.NS := "NS"], rr => GenericForm(rr))
  }

  lemma SmallNamesValid()
    ensures ValidNames(SmallNames()) && forall t :: t in SmallNames().types ==> SmallNames().types[t] != ""
  {
  }

  /** A record of a type without a mnemonic whose TTL has changed: every plan deletes it and adds the old one. */
  lemma OtherTtlReplanned(want: Record, live: Record, dels: seq<Record>, adds: seq<Record>)
    requires live == want.(ttl := live.ttl) && live != want && '\t' !in want.name
    requires want.rtype !in SmallNames().types && !U.Managed(want.rtype)
    requires Difference(SmallNames(), Keyed(SmallNames(), [live]), Keyed(SmallNames(), [want]), dels)
    requires Difference(SmallNames(), Keyed(SmallNames(), [want]), Keyed(SmallNames(), [live]), adds)
    ensures dels == [live] && adds == [want]
  {
    SmallNamesValid();
    Rfc3597Prints(SmallNames(), [want, live]);
    GenericReplanned(SmallNames(), want, live, dels, adds);
  }

  lemma OtherTtlOtherKey(want: Record, live: Record)
    requires live == want.(ttl := live.ttl) && live != want && '\t' !in want.name
    requires want.rtype !in SmallNames().types
    ensures KeyOf(SmallNames(), want) != KeyOf(SmallNames(), live) && IdentOf(want) == IdentOf(live)
  {
    SmallNamesValid();
    Rfc3597Prints(SmallNames(), [want, live]);
    GenericKeys(SmallNames(), [want, live], want, live);
  }

  lemma DifferenceOfOne(names: Names, rr: Record, other: Record)
    requires !U.Managed(rr.rtype) && !U.Managed(other.rtype) && KeyOf(names, rr) != KeyOf(names, other)
    ensures Difference(names, Keyed(names, [rr]), Keyed(names, [other]), [rr])
  {
    KeyedOne(names, rr);
    KeyedOne(names, other);
    var a, b := Keyed(names, [rr]), Keyed(names, [other]);
    assert a.Keys == {KeyOf(names, rr)} && b.Keys == {KeyOf(names, other)};
    assert a.Keys - b.Keys == {KeyOf(names, rr)};
  }

  /** The only plan for such a record. */
  ghost predicate OnlyPlan(names: Names, want: Record, live: Record) {
    var w, l := Keyed(names, [want]), Keyed(names, [live]);
    && Difference(names, l, w, [live]) && Difference(names, w, l, [want])
    && forall dels, adds :: Difference(names, l, w, dels) && Difference(names, w, l, adds)
         ==> dels == [live] && adds == [want]
  }

  lemma OtherTtlOnlyPlan(want: Record, live: Record)
    requires live == want.(ttl := live.ttl) && live != want && '\t' !in want.name
    requires want.rtype !in SmallNames().types && !U.Managed(want.rtype)
    ensures OnlyPlan(SmallNames(), want, live)
  {
    var names := SmallNames();
    var w, l := Keyed(names, [want]), Keyed(names, [live]);
    OtherTtlOtherKey(want, live);
    DifferenceOfOne(names, want, live);
    DifferenceOfOne(names, live, want);
    forall dels, adds | Difference(names, l, w, dels) && Difference(names, w, l, adds)
      ensures dels == [live] && adds == [want]
    {
      OtherTtlReplanned(want, live, dels, adds);
    }
  }

  const OLD_TTL := Record("a.", 65280, 60, "\\# 1 00")
  const NEW_TTL := Record("a.", 65280, 300, "\\# 1 00")

  /**
   * A record of type 65280 whose TTL went from 60 to 300: the plan is to delete it and add it with
   * the snapshot's TTL, and there is no other plan.
   */
  lemma TtlOnlyRestored()
    ensures IdentOf(OLD_TTL) == IdentOf(NEW_TTL) && OnlyPlan(SmallNames(), OLD_TTL, NEW_TTL)
  {
    assert '\t' !in "a.";
    OtherTtlOnlyPlan(OLD_TTL, NEW_TTL);
  }

  lemma KeyedOne(names: Names, rr: Record)
    requires !U.Managed(rr.rtype)
    ensures Keyed(names, [rr]) == map[KeyOf(names, rr) := rr]
  {
    assert [rr][..0] == [];
    assert Keyed(names, []) == map[];
  }

  lemma OnlyOne(names: Names, rr: Record, other: map<Key, Record>, out: seq<Record>)
    requires !U.Managed(rr.rtype) && Difference(names, Keyed(names, [rr]), other, out)
    ensures out == if KeyOf(names, rr) in other then [] else [rr]
  {
    KeyedOne(names, rr);
    assert Keyed(names, [rr]).Keys == {KeyOf(names, rr)};
    DifferenceSize(names, Keyed(names, [rr]), other, out, rr);
    OneLeft(KeyOf(names, rr), other.Keys);
    if out != [] {
      OneElement(out, rr);
    }
  }

  lemma DifferenceSize(names: Names, a: map<Key, Record>, b: map<Key, Record>, out: seq<Record>, rr: Record)
    requires Difference(names, a, b, out) && KeyOf(names, rr) in a && a[KeyOf(names, rr)] == rr
    ensures |out| == |a.Keys - b.Keys| && (KeyOf(names, rr) !in b ==> rr in out)
  {
  }

  lemma OneElement(out: seq<Record>, rr: Record)
    requires |out| == 1 && rr in out
    ensures out == [rr]
  {
  }

  lemma OneLeft(k: Key, keys: set<Key>)
    ensures |{k} - keys| == if k in keys then 0 else 1
  {
    if k in keys {
      assert {k} - keys == {};
    } else {
      assert {k} - keys == {k};
    }
  }

  // ----- One UPDATE message -----

  /** An operation as `ddns.Apply` gets it: the action may be unknown, the record nil. */
  datatype RawOp = RawOp(action: int, rr: Option<Record>)

  predicate Sendable(op: RawOp) {
    op.rr.Some? && 0 <= op.action < 4
  }

  function Decoded(op: RawOp): Op
    requires Sendable(op)
  {
    Op(if op.action == 0 then AddRR else if op.action == 1 then DelRR else if op.action == 2 then DelRRset else DelName,
       op.rr.value)
  }

  /** The server keeps this record against any deletion by RRset or name: an SOA or NS of the apex. */
  predicate Protected(sv: U.Server, id: U.Ident) {
    id.name == sv.apex && (id.rtype == 6 || id.rtype == 2)
  }

  /** What `z` and `now` differ in, if in anything, are the records for which `may` holds. */
  ghost predicate SameBut(z: U.Zone, now: U.Zone, may: U.Ident -> bool) {
    forall id :: !may(id) ==> (id in now <==> id in z) && (id in z && id in now ==> now[id] == z[id])
  }

  /** The effect on the server's zone of the four action numbers of internal/ddns. */
  lemma NumbersMean(sv: U.Server, z: U.Zone, op: RawOp)
    requires Sendable(op)
    ensures var now, rr := U.Perform(sv, z, Wire(Decoded(op))), op.rr.value;
            && (op.action == 0 && rr.rtype != 5 && rr.rtype != 6 && !U.HasCname(z, Canon(rr.name)) ==>
                  now == z[IdentOf(rr) := rr.ttl])
            && (op.action == 1 && !Protected(sv, IdentOf(rr)) ==> now == z - {IdentOf(rr)})
            && (op.action == 2 ==>
                  && (forall id :: id in now && id.name == Canon(rr.name) && id.rtype == rr.rtype ==> Protected(sv, id))
                  && SameBut(z, now, (id: U.Ident) => id.name == Canon(rr.name) && id.rtype == rr.rtype))
            && (op.action == 3 ==>
                  && (forall id :: id in now && id.name == Canon(rr.name) ==> Protected(sv, id))
                  && SameBut(z, now, (id: U.Ident) => id.name == Canon(rr.name)))
  {
  }

  /** `ddns.Apply` up to the exchange: the whole batch in one message, in order, or no message at all. */
  method BuildUpdate(ops: seq<RawOp>) returns (message: Option<seq<U.Op>>)
    ensures message.Some? <==> forall op :: op in ops ==> op.rr.Some? && op.action in {0, 1, 2, 3}
    ensures message.Some? ==>
              |message.value| == |ops|
              && forall i :: 0 <= i < |ops| ==> message.value[i] == Wire(Decoded(ops[i]))
  {
    var m: seq<U.Op> := [];
    for i := 0 to |ops|
      invariant |m| == i
      invariant forall j :: 0 <= j < i ==> Sendable(ops[j]) && m[j] == Wire(Decoded(ops[j]))
    {
      if ops[i].rr.None? {
        return None;
      }
      var rr := ops[i].rr.value;
      match ops[i].action {
        case 0 => m := m + [U.Add(IdentOf(rr), rr.ttl)];
        case 1 => m := m + [U.DelRr(IdentOf(rr))];
        case 2 => m := m + [U.DelRrset(Canon(rr.name), rr.rtype)];
        case 3 => m := m + [U.DelName(Canon(rr.name))];
        case _ => return None;
      }
    }
    return Some(m);
  }

  // ----- `RestorePlan` -----

  /** `hasRestorable`: some record is the operator's. */
  predicate Restorable(rrs: seq<Record>) {
    exists i :: 0 <= i < |rrs| && !U.Managed(rrs[i].rtype)
  }

  method HasRestorable(rrs: seq<Record>) returns (b: bool)
    ensures b == Restorable(rrs)
  {
    for i := 0 to |rrs|
      invariant forall j :: 0 <= j < i ==> U.Managed(rrs[j].rtype)
    {
      if !U.Managed(rrs[i].rtype) {
        return true;
      }
    }
    return false;
  }

  /**
   * `RestorePlan`, after the transfer: refused exactly when the snapshot has nothing of ours to
   * restore; otherwise the plan, valid by construction, possibly with nothing to do.
   */
  method RestorePlan(names: Names, zones: seq<string>, target: string, want: seq<Record>, live: seq<Record>)
    returns (planned: bool, ops: seq<Op>, dels: seq<Record>, adds: seq<Record>)
    requires target != ""
    ensures planned <==> Restorable(OwnedBy(zones, target, want))
    ensures planned ==> Planned(names, zones, target, want, live, dels, adds)
    ensures ops == (if planned then Ops(DelRR, dels) + Ops(AddRR, adds) else [])
    ensures ops != [] ==> ValidOps(zones, target, ops)
  {
    ops, dels, adds := [], [], [];
    var w := FilterOwned(zones, target, want);
    var l := FilterOwned(zones, target, live);
    planned := HasRestorable(w);
    if planned {
      ops, dels, adds := RestoreOps(names, w, l);
      PlanValid(names, zones, target, want, live, dels, adds);
      if ops != [] {
        var ok := ValidateOps(zones, target, ops);
        assert ok;
      }
    }
  }

  /** An accepted plan never empties the zone: performed exactly, it leaves an operator record of ours. */
  lemma PlanNeverEmpties(zones: seq<string>, target: string, want: seq<Record>, live: seq<Record>,
                         redo: set<U.Ident>, now: U.Zone)
    requires Restorable(OwnedBy(zones, target, want))
    requires R.RestoredExactly(Own(zones, target), ZoneOf(want), ZoneOf(live), redo, now)
    ensures exists id :: id in now && R.Ours(Own(zones, target), id)
  {
    var o := OwnedBy(zones, target, want);
    var i :| 0 <= i < |o| && !U.Managed(o[i].rtype);
    assert o[i] in o;
    OwnedMembers(zones, target, want);
    ZoneMembers(want);
    assert R.Ours(Own(zones, target), IdentOf(o[i]));
    assert IdentOf(o[i]) in now;
  }
}
