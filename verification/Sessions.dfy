/** Whole editing sessions: any number of surgical edits, one after the other, as edits of the records. */
module Sessions {
  import opened Text
  import opened Resolver
  import opened ZoneFile
  import opened Surgery
  import opened Preservation
  import opened EditTheorem
  import opened EditClosure
  import opened ZoneContent

  // ----- One edit, on records -----

  /** The operation deletes record `i` of the list: any match, but only the first for an exact delete. */
  predicate HitsRr(lib: Lib, rrs: seq<Rr>, op: Op, i: nat)
    requires i < |rrs|
  {
    Matches(lib, op, rrs[i]) && (op.action.DelRR? ==> forall j :: 0 <= j < i ==> !Matches(lib, op, rrs[j]))
  }

  function DeadRrs(lib: Lib, rrs: seq<Rr>, ops: seq<Op>): set<nat> {
    set i, k | 0 <= i < |rrs| && 0 <= k < |ops| && HitsRr(lib, rrs, ops[k], i) :: i
  }

  /** The reference: the last SOA gets the serial, the records hit go, the added ones come last. */
  function EditRecords(lib: Lib, rrs: seq<Rr>, ops: seq<Op>, serial: nat): seq<Rr> {
    var bumped :=
      match LastSoa(rrs)
      case Some(k) => if |rrs[k].rdata| > 2 then rrs[k := WithSerial(rrs[k], serial)] else rrs
      case None => rrs;
    Keep(bumped, DeadRrs(lib, rrs, ops), 0) + AddedRrs(ops)
  }

  lemma DeadIs(lib: Lib, f: File, rrs: seq<Rr>, ops: seq<Op>)
    requires |f.records| == |rrs| && forall i :: 0 <= i < |rrs| ==> f.records[i].rr == rrs[i]
    ensures Dead(lib, f, ops) == DeadRrs(lib, rrs, ops)
  {
    forall i: nat | i < |rrs| ensures i in Dead(lib, f, ops) <==> i in DeadRrs(lib, rrs, ops) {
      forall k | 0 <= k < |ops| ensures Hits(lib, f, ops[k], i) <==> HitsRr(lib, rrs, ops[k], i) {
      }
    }
  }

  lemma IntendedIs(lib: Lib, origin: string, data: string, f: File, ops: seq<Op>, serial: nat)
    requires Opened(lib, origin, data, f)
    ensures f.soa.Some?
    ensures Intended(lib, origin, data, f, ops, serial) == EditRecords(lib, Meaning(lib, origin, data).rrs, ops, serial)
  {
    OpenedRecords(lib, origin, data, f);
    DeadIs(lib, f, Meaning(lib, origin, data).rrs, ops);
  }

  // ----- Sessions -----

  datatype Request = Request(ops: seq<Op>, serial: nat)

  /** The text after one edit, if the file takes it. */
  ghost function AfterOne(lib: Lib, origin: string, data: string, e: Request): Option<string> {
    var p := Opening(lib, origin, data);
    if p.Some? && p.value.serialTok.Some? && SerialPlaced(p.value) && EditAccepts(lib, p.value, e.ops)
    then Some(Edited(lib, p.value, e.ops, e.serial))
    else None
  }

  /** The text after the edits; an edit the file refuses ends the session. */
  ghost function After(lib: Lib, origin: string, data: string, edits: seq<Request>): Option<string>
    decreases |edits|
  {
    if edits == [] then Some(data)
    else
      match AfterOne(lib, origin, data, edits[0])
      case Some(next) => After(lib, origin, next, edits[1..])
      case None => None
  }

  /** The records after the edits. */
  function RecordsAfter(lib: Lib, rrs: seq<Rr>, edits: seq<Request>): seq<Rr>
    decreases |edits|
  {
    if edits == [] then rrs else RecordsAfter(lib, EditRecords(lib, rrs, edits[0].ops, edits[0].serial), edits[1..])
  }

  /** What is added prints and is no SOA, and the serial is a 32-bit number. */
  ghost predicate Proper(lib: Lib, e: Request) {
    AllPrintable(lib, AddedRrs(e.ops)) && AddsNoSoa(e.ops) && e.serial < UINT32
  }

  /** One accepted edit of a sound file: the text means the edited records, and is sound again. */
  lemma OneEdit(lib: Lib, origin: string, data: string, f: File, ops: seq<Op>, serial: nat) returns (g: File)
    requires Sound(lib, origin, data, f) && EditAccepts(lib, f, ops)
    requires AllPrintable(lib, AddedRrs(ops)) && AddsNoSoa(ops) && serial < UINT32
    ensures SerialPlaced(f) && f.serialTok.Some?
    ensures var out := Edited(lib, f, ops, serial);
            && Sound(lib, origin, out, g) && SoaSerial(g) == serial
            && Meaning(lib, origin, out)
               == Resolved(EditRecords(lib, Meaning(lib, origin, data).rrs, ops, serial), true)
  {
    g := EditKeepsSound(lib, origin, data, f, ops, serial);
    IntendedIs(lib, origin, data, f, ops, serial);
  }

  /** The text is sound and means these records. */
  ghost predicate SoundMeaning(lib: Lib, origin: string, data: string, rrs: seq<Rr>) {
    (exists f :: Sound(lib, origin, data, f)) && Meaning(lib, origin, data) == Resolved(rrs, true)
  }

  lemma StepMeansEdit(lib: Lib, origin: string, data: string, rrs: seq<Rr>, e: Request)
    requires SoundMeaning(lib, origin, data, rrs) && Proper(lib, e) && AfterOne(lib, origin, data, e).Some?
    ensures SoundMeaning(lib, origin, AfterOne(lib, origin, data, e).value, EditRecords(lib, rrs, e.ops, e.serial))
  {
    var f :| Sound(lib, origin, data, f);
    OpeningIs(lib, origin, data, f);
    var g := OneEdit(lib, origin, data, f, e.ops, e.serial);
  }

  lemma OpeningIs(lib: Lib, origin: string, data: string, f: File)
    requires Opened(lib, origin, data, f)
    ensures Opening(lib, origin, data) == Some(f)
  {
  }

  /** What one edit keeps, a session keeps. */
  lemma {:induction false} SessionKeeps(lib: Lib, origin: string, data: string, rrs: seq<Rr>, edits: seq<Request>,
                                        inv: (string, seq<Rr>) -> bool, proper: Request -> bool)
    requires inv(data, rrs) && After(lib, origin, data, edits).Some?
    requires forall i :: 0 <= i < |edits| ==> proper(edits[i])
    requires forall d, r, e :: inv(d, r) && proper(e) && AfterOne(lib, origin, d, e).Some?
               ==> inv(AfterOne(lib, origin, d, e).value, EditRecords(lib, r, e.ops, e.serial))
    ensures inv(After(lib, origin, data, edits).value, RecordsAfter(lib, rrs, edits))
    decreases |edits|
  {
    if edits != [] {
      var e := edits[0];
      SessionKeeps(lib, origin, AfterOne(lib, origin, data, e).value, EditRecords(lib, rrs, e.ops, e.serial),
                   edits[1..], inv, proper);
    }
  }

  /**
   * Whole sessions: from a sound file, whatever edits are accepted one after the other, the text
   * means exactly what the same edits make of its records, and is sound, ready for the next.
   */
  lemma SessionMeansEdits(lib: Lib, origin: string, data: string, rrs: seq<Rr>, edits: seq<Request>)
    requires SoundMeaning(lib, origin, data, rrs) && After(lib, origin, data, edits).Some?
    requires forall i :: 0 <= i < |edits| ==> Proper(lib, edits[i])
    ensures SoundMeaning(lib, origin, After(lib, origin, data, edits).value, RecordsAfter(lib, rrs, edits))
  {
    var inv := (d: string, r: seq<Rr>) => SoundMeaning(lib, origin, d, r);
    var proper := (e: Request) => Proper(lib, e);
    forall d, r, e | inv(d, r) && proper(e) && AfterOne(lib, origin, d, e).Some?
      ensures inv(AfterOne(lib, origin, d, e).value, EditRecords(lib, r, e.ops, e.serial))
    {
      StepMeansEdit(lib, origin, d, r, e);
    }
    SessionKeeps(lib, origin, data, rrs, edits, inv, proper);
  }
}
