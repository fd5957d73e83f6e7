/** The write pipeline over real zone contents: every commit moves the zone's serial forward. */
module FileZoneSerial {
  import opened Text
  import opened Resolver
  import opened ZoneFile
  import opened EditTheorem
  import opened EditClosure
  import opened ZoneContent
  import opened Serial
  import opened FileZone

  /** What `Apply` and `ReplaceRaw` write over `cur`. */
  ghost function NewBytes(lib: Lib, origin: string, req: Request, cur: string, today: nat): Option<string> {
    match req
    case Apply(ops) => Applied(lib, origin, cur, ops, today)
    case Replace(text, read) =>
      if read.Some? && read.value != cur then None else Normalized(lib, origin, cur, text, today)
  }

  ghost function ZoneEnv(lib: Lib, origin: string, keep: nat): Env {
    Env((req: Request, cur: string, today: nat) => NewBytes(lib, origin, req, cur, today), keep)
  }

  /** Requests the serial promise covers: added records print and hold no SOA; raw text is tidy. */
  ghost predicate Covered(lib: Lib, origin: string, req: Request) {
    match req
    case Apply(ops) => AllPrintable(lib, AddedRrs(ops)) && AddsNoSoa(ops)
    case Replace(text, _) => Tidy(lib, origin, text) && SerialOrZero(lib, origin, text) < UINT32 - 1
  }

  ghost function ZoneMeasure(lib: Lib, origin: string): Measure {
    Measure(
      data => SerialOrZero(lib, origin, data),
      data => Tidy(lib, origin, data),
      req => Covered(lib, origin, req),
      today => today < UINT32,
      UINT32 - 1)
  }

  /** The bytes a covered request writes are tidy and carry a larger serial. */
  lemma NewBytesGrow(lib: Lib, origin: string, req: Request, cur: string, today: nat)
    requires ValidLib(lib) && Covered(lib, origin, req) && today < UINT32
    requires Tidy(lib, origin, cur) && SerialOrZero(lib, origin, cur) < UINT32 - 1
    requires NewBytes(lib, origin, req, cur, today).Some?
    ensures Tidy(lib, origin, NewBytes(lib, origin, req, cur, today).value)
    ensures SerialOrZero(lib, origin, NewBytes(lib, origin, req, cur, today).value) > SerialOrZero(lib, origin, cur)
  {
    match req
    case Apply(ops) =>
      AppliedGrows(lib, origin, cur, ops, today);
      NextSerialGrows(SerialOrZero(lib, origin, cur), today);
    case Replace(text, _) =>
      NormalizedGrows(lib, origin, cur, text, today);
  }

  /**
   * Serial growth: with no outside editor, over every run of covered requests whose serials
   * stay below 2^32-1, the SOA serials of the successful commits strictly increase.
   */
  lemma SerialsGrow(lib: Lib, origin: string, keep: nat, content: string, actions: seq<FileZone.Action>)
    requires ValidLib(lib) && Tidy(lib, origin, content)
    requires var m := ZoneMeasure(lib, origin);
             && (forall i :: 0 <= i < |actions| ==> ActionOk(m, actions[i]))
             && BelowTheTop(ZoneEnv(lib, origin, keep), m, Initial(content), actions)
    ensures var done := Run(ZoneEnv(lib, origin, keep), Initial(content), actions).committed;
            forall i, j :: 0 <= i < j < |done|
              ==> SerialOrZero(lib, origin, done[i]) < SerialOrZero(lib, origin, done[j])
  {
    var env, m := ZoneEnv(lib, origin, keep), ZoneMeasure(lib, origin);
    forall req, cur, today
      | m.covers(req) && m.day(today) && m.tidy(cur) && m.serial(cur) < m.top && env.compute(req, cur, today).Some?
      ensures m.tidy(env.compute(req, cur, today).value) && m.serial(env.compute(req, cur, today).value) > m.serial(cur)
    {
      NewBytesGrow(lib, origin, req, cur, today);
    }
    CommitsRise(env, m, content, actions);
    var done := Run(env, Initial(content), actions).committed;
    forall i, j | 0 <= i < j < |done| ensures SerialOrZero(lib, origin, done[i]) < SerialOrZero(lib, origin, done[j]) {
      assert m.serial(done[i]) < m.serial(done[j]);
    }
  }
}
