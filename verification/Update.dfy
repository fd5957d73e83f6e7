/**
 * Dynamic update as specified in section 3.4.2 of RFC 2136: what a name server makes of
 * each operation of an UPDATE. Some deletions and additions are silently ignored.
 */
module Update {

  const NS: nat := 2
  const CNAME: nat := 5
  const SOA: nat := 6

  /** A record's identity in a zone: canonical owner, type and data; the TTL is not part of it. */
  datatype Ident = Ident(name: string, rtype: nat, rdata: string)

  /** A zone: the TTL of each record in it. */
  type Zone = map<Ident, nat>

  datatype Op =
    | Add(id: Ident, ttl: nat)
    | DelRr(id: Ident)
    | DelRrset(name: string, rtype: nat)
    | DelName(name: string)

  /** `managed`: SOA and the DNSSEC chain belong to the server, everything else to the operator. */
  predicate Managed(rtype: nat) {
    rtype == SOA || rtype == 46 || rtype == 47 || rtype == 48 || rtype == 50 || rtype == 51 || rtype == 59
      || rtype == 60
  }

  predicate Operator(id: Ident) {
    !Managed(id.rtype)
  }

  /** The server's view: the zone's apex, and whether one SOA's data is newer than another's. */
  datatype Server = Server(apex: string, newer: (string, string) -> bool)

  predicate IsApexNs(sv: Server, id: Ident) {
    id.name == sv.apex && id.rtype == NS
  }

  /** Two operator records that cannot share a name: one of them is a CNAME. */
  predicate Conflict(a: Ident, b: Ident) {
    a != b && a.name == b.name && Operator(a) && Operator(b) && (a.rtype == CNAME || b.rtype == CNAME)
  }

  /** Some operator record other than a CNAME is at the name. */
  predicate HasOther(z: Zone, name: string) {
    exists k :: k in z && k.name == name && Operator(k) && k.rtype != CNAME
  }

  predicate HasCname(z: Zone, name: string) {
    exists k :: k in z && k.name == name && k.rtype == CNAME
  }

  function Without(z: Zone, name: string, rtype: nat): Zone {
    map k | k in z && !(k.name == name && k.rtype == rtype) :: z[k]
  }

  predicate OlderSoa(sv: Server, z: Zone, id: Ident) {
    exists k :: k in z && k.name == id.name && k.rtype == SOA && !sv.newer(k.rdata, id.rdata)
  }

  /** Section 3.4.2.2: CNAMEs exclude other data, an SOA must be newer, a CNAME or SOA replaces its like. */
  function AddOne(sv: Server, z: Zone, id: Ident, ttl: nat): Zone {
    if id.rtype == CNAME then
      if HasOther(z, id.name) then z else Without(z, id.name, CNAME)[id := ttl]
    else if Operator(id) && HasCname(z, id.name) then z
    else if id.rtype == SOA then
      if id.name != sv.apex || OlderSoa(sv, z, id) then z else Without(z, id.name, SOA)[id := ttl]
    else z[id := ttl]
  }

  predicate LastNs(sv: Server, z: Zone, id: Ident) {
    IsApexNs(sv, id) && forall k :: k in z && IsApexNs(sv, k) ==> k == id
  }

  /** Section 3.4.2.4: the apex SOA and the last apex NS stay. */
  function DelOne(sv: Server, z: Zone, id: Ident): Zone {
    if (id.rtype == SOA && id.name == sv.apex) || LastNs(sv, z, id) then z else z - {id}
  }

  /** Sections 3.4.2.2 to 3.4.2.4. */
  function Perform(sv: Server, z: Zone, op: Op): Zone {
    match op
    case Add(id, ttl) => AddOne(sv, z, id, ttl)
    case DelRr(id) => DelOne(sv, z, id)
    case DelRrset(name, rtype) =>
      if name == sv.apex && (rtype == SOA || rtype == NS) then z else Without(z, name, rtype)
    case DelName(name) =>
      map k | k in z && !(k.name == name && (name == sv.apex ==> k.rtype != SOA && k.rtype != NS)) :: z[k]
  }

  /** One UPDATE message: its operations in order. */
  function PerformAll(sv: Server, z: Zone, ops: seq<Op>): Zone
    decreases |ops|
  {
    if ops == [] then z else PerformAll(sv, Perform(sv, z, ops[0]), ops[1..])
  }

  lemma {:induction false} PerformConcat(sv: Server, z: Zone, a: seq<Op>, b: seq<Op>)
    ensures PerformAll(sv, z, a + b) == PerformAll(sv, PerformAll(sv, z, a), b)
    decreases |a|
  {
    if a == [] {
      assert a + b == b;
    } else {
      assert (a + b)[1..] == a[1..] + b;
      PerformConcat(sv, Perform(sv, z, a[0]), a[1..], b);
    }
  }

  // ----- What every update keeps -----

  /** No two operator records of the zone conflict. */
  ghost predicate Consistent(z: Zone) {
    forall a, b :: a in z && b in z ==> !Conflict(a, b)
  }

  ghost predicate HasApexNs(sv: Server, z: Zone) {
    exists k :: k in z && IsApexNs(sv, k)
  }

  lemma PerformKeepsConsistent(sv: Server, z: Zone, op: Op)
    requires Consistent(z)
    ensures Consistent(Perform(sv, z, op))
  {
    var t := Perform(sv, z, op);
    forall a, b | a in t && b in t ensures !Conflict(a, b) {
      if a in z && b in z {
        assert !Conflict(a, b);
      }
    }
  }

  lemma PerformKeepsApexNs(sv: Server, z: Zone, op: Op)
    requires HasApexNs(sv, z)
    ensures HasApexNs(sv, Perform(sv, z, op))
  {
    var k :| k in z && IsApexNs(sv, k);
    var t := Perform(sv, z, op);
    if op.DelRr? && op.id == k && !LastNs(sv, z, k) {
      var other :| other in z && IsApexNs(sv, other) && other != k;
      assert other in t;
    } else {
      assert k in t;
    }
  }

  /** Along any sequence of updates a zone stays free of CNAME conflicts and keeps an apex NS. */
  lemma {:induction false} UpdatesKeep(sv: Server, z: Zone, ops: seq<Op>)
    ensures Consistent(z) ==> Consistent(PerformAll(sv, z, ops))
    ensures HasApexNs(sv, z) ==> HasApexNs(sv, PerformAll(sv, z, ops))
    decreases |ops|
  {
    if ops != [] {
      if Consistent(z) {
        PerformKeepsConsistent(sv, z, ops[0]);
      }
      if HasApexNs(sv, z) {
        PerformKeepsApexNs(sv, z, ops[0]);
      }
      UpdatesKeep(sv, Perform(sv, z, ops[0]), ops[1..]);
    }
  }
}
