/** The traffic flusher of cmd/goddns/serve.go: persisting counter deltas, with retry, across counter restarts. */
module Traffic {

  /** Requests, bytes in, bytes out. */
  datatype Snap = Snap(req: nat, inn: nat, out: nat)

  const ZERO := Snap(0, 0, 0)

  function Plus(a: Snap, b: Snap): Snap {
    Snap(a.req + b.req, a.inn + b.inn, a.out + b.out)
  }

  function Gain(cur: nat, prev: nat): nat {
    if cur > prev then cur - prev else 0
  }

  /** The delta that is stored: negative parts clamped to zero. */
  function Delta(cur: Snap, prev: Snap): Snap {
    Snap(Gain(cur.req, prev.req), Gain(cur.inn, prev.inn), Gain(cur.out, prev.out))
  }

  predicate AtMost(a: Snap, b: Snap) {
    a.req <= b.req && a.inn <= b.inn && a.out <= b.out
  }

  type Totals = map<string, Snap>

  function Get(m: Totals, host: string): Snap {
    if host in m then m[host] else ZERO
  }

  /** One host of a flush: the new `last` and stored total; `down` says whether the write fails. */
  function FlushHost(cur: Snap, last: Snap, stored: Snap, down: bool): (Snap, Snap) {
    var d := Delta(cur, last);
    if d == ZERO then (cur, stored)
    else if down then (last, stored)
    else (cur, Plus(stored, d))
  }

  class Flusher {
    var last: Totals
    var stored: Totals

    constructor ()
      ensures last == map[] && stored == map[]
    {
      last, stored := map[], map[];
    }

    /** The body of `flush`: one host, whose write fails if it is `down`. */
    method FlushStat(stat: (string, Snap), down: set<string>)
      modifies this
      ensures HostFlushed(stat, old(last), old(stored), last, stored, down)
      ensures forall h :: h != stat.0 ==> SameAt(old(last), old(stored), last, stored, h)
    {
      var (host, cur) := stat;
      var prev := Get(last, host);
      FlushHostCases(cur, prev, Get(stored, host), host in down);
      if cur.req <= prev.req && cur.inn <= prev.inn && cur.out <= prev.out {
        last := last[host := cur];
      } else if host !in down {
        stored := stored[host := Plus(Get(stored, host), Delta(cur, prev))];
        last := last[host := cur];
      }
    }

    /** `flush`: every listed host once; `down` are the hosts whose write fails this time. */
    method Flush(stats: seq<(string, Snap)>, down: set<string>)
      requires forall i, j :: 0 <= i < j < |stats| ==> stats[i].0 != stats[j].0
      modifies this
      ensures forall i :: 0 <= i < |stats| ==> HostFlushed(stats[i], old(last), old(stored), last, stored, down)
      ensures forall h :: Unlisted(stats, h) ==> SameAt(old(last), old(stored), last, stored, h)
    {
      for k := 0 to |stats|
        invariant forall i :: 0 <= i < k ==> HostFlushed(stats[i], old(last), old(stored), last, stored, down)
        invariant forall h :: Unlisted(stats[..k], h) ==> SameAt(old(last), old(stored), last, stored, h)
      {
        ghost var last0, stored0 := last, stored;
        assert Unlisted(stats[..k], stats[k].0);
        FlushStat(stats[k], down);
        assert forall i :: 0 <= i < k ==> SameAt(last0, stored0, last, stored, stats[i].0);
        forall h | Unlisted(stats[..k + 1], h) ensures SameAt(old(last), old(stored), last, stored, h) {
          UnlistedMore(stats, k, h);
          assert SameAt(last0, stored0, last, stored, h);
        }
      }
      assert stats[..|stats|] == stats;
    }
  }

  /** The three branches of the loop body, on numbers. */
  lemma FlushHostCases(cur: Snap, prev: Snap, stored: Snap, down: bool)
    ensures FlushHost(cur, prev, stored, down)
            == if AtMost(cur, prev) then (cur, stored) else if down then (prev, stored)
               else (cur, Plus(stored, Delta(cur, prev)))
  {
  }

  lemma UnlistedMore(stats: seq<(string, Snap)>, k: nat, h: string)
    requires k < |stats| && Unlisted(stats[..k + 1], h)
    ensures Unlisted(stats[..k], h) && stats[k].0 != h
  {
    assert stats[..k + 1][k] == stats[k];
    assert forall i :: 0 <= i < k ==> stats[..k][i] == stats[..k + 1][i];
  }

  predicate Unlisted(stats: seq<(string, Snap)>, h: string) {
    forall i :: 0 <= i < |stats| ==> stats[i].0 != h
  }

  predicate SameAt(last: Totals, stored: Totals, last': Totals, stored': Totals, h: string) {
    Get(last', h) == Get(last, h) && Get(stored', h) == Get(stored, h)
  }

  /** One host's memory and stored total are those `FlushHost` gives. */
  predicate HostFlushed(stat: (string, Snap), last: Totals, stored: Totals, last': Totals, stored': Totals,
                        down: set<string>) {
    (Get(last', stat.0), Get(stored', stat.0))
      == FlushHost(stat.1, Get(last, stat.0), Get(stored, stat.0), stat.0 in down)
  }

  // ----- Runs -----

  /** Live counters, the flusher's memory, what is persisted, and what really passed. */
  datatype State = State(counters: Totals, last: Totals, stored: Totals, counted: Totals)

  datatype Event =
    | Pass(host: string, amount: Snap)      // traffic on a configured host
    | Reload(hosts: set<string>)            // counters of other hosts are dropped, new hosts start at zero
    | Flush(down: set<string>)              // one tick; writes for `down` fail
    | Restart(hosts: set<string>)           // the process restarts: counters and the flusher's memory are gone

  function Flushed(s: State, down: set<string>): State {
    s.(last := map h | h in s.last.Keys + s.counters.Keys ::
               if h in s.counters then FlushHost(s.counters[h], Get(s.last, h), Get(s.stored, h), h in down).0
               else s.last[h],
       stored := map h | h in s.stored.Keys + s.counters.Keys ::
               if h in s.counters then FlushHost(s.counters[h], Get(s.last, h), Get(s.stored, h), h in down).1
               else s.stored[h])
  }

  function Step(s: State, e: Event): State {
    match e
    case Pass(h, d) =>
      if h !in s.counters then s
      else s.(counters := s.counters[h := Plus(s.counters[h], d)],
              counted := s.counted[h := Plus(Get(s.counted, h), d)])
    case Reload(hosts) => s.(counters := map h | h in hosts :: Get(s.counters, h))
    case Flush(down) => Flushed(s, down)
    case Restart(hosts) => s.(counters := map h | h in hosts :: ZERO, last := map[])
  }

  function Run(s: State, events: seq<Event>): State
    decreases |events|
  {
    if events == [] then s else Run(Step(s, events[0]), events[1..])
  }

  const START := State(map[], map[], map[], map[])

  /** One host's numbers: what is persisted, and what is still to be, never exceeds what passed. */
  predicate Within(cur: Snap, last: Snap, stored: Snap, counted: Snap) {
    AtMost(Plus(stored, Delta(cur, last)), counted)
  }

  predicate Conserved(s: State, h: string) {
    Within(Get(s.counters, h), Get(s.last, h), Get(s.stored, h), Get(s.counted, h))
  }

  /** One tick, host by host: what the flusher's loop does to it, and nothing to a host without counters. */
  lemma FlushedAt(s: State, down: set<string>, h: string)
    ensures h in s.counters ==>
              (Get(Flushed(s, down).last, h), Get(Flushed(s, down).stored, h))
              == FlushHost(s.counters[h], Get(s.last, h), Get(s.stored, h), h in down)
    ensures h !in s.counters ==>
              Get(Flushed(s, down).last, h) == Get(s.last, h) && Get(Flushed(s, down).stored, h) == Get(s.stored, h)
  {
  }

  lemma FlushHostConserves(cur: Snap, last: Snap, stored: Snap, down: bool)
    ensures var (l, st) := FlushHost(cur, last, stored, down);
            Plus(st, Delta(cur, l)) == Plus(stored, Delta(cur, last))
  {
  }

  lemma PassConserves(cur: Snap, last: Snap, stored: Snap, counted: Snap, d: Snap)
    requires Within(cur, last, stored, counted)
    ensures Within(Plus(cur, d), last, stored, Plus(counted, d))
  {
  }

  /** A counter that goes back to zero owes nothing. */
  lemma ResetConserves(cur: Snap, last: Snap, stored: Snap, counted: Snap)
    requires Within(cur, last, stored, counted)
    ensures Within(ZERO, last, stored, counted) && Within(ZERO, ZERO, stored, counted)
  {
  }

  /** What one step does to the four numbers of one host. */
  lemma StepAt(s: State, e: Event, h: string)
    ensures var t := Step(s, e);
            var cur, last, stored, counted := Get(s.counters, h), Get(s.last, h), Get(s.stored, h), Get(s.counted, h);
            match e
            case Pass(host, d) =>
              && Get(t.last, h) == last && Get(t.stored, h) == stored
              && if host == h && h in s.counters
                 then Get(t.counters, h) == Plus(cur, d) && Get(t.counted, h) == Plus(counted, d)
                 else Get(t.counters, h) == cur && Get(t.counted, h) == counted
            case Reload(hosts) =>
              && Get(t.last, h) == last && Get(t.stored, h) == stored && Get(t.counted, h) == counted
              && Get(t.counters, h) == if h in hosts then cur else ZERO
            case Flush(down) =>
              && Get(t.counters, h) == cur && Get(t.counted, h) == counted
              && (Get(t.last, h), Get(t.stored, h))
                 == if h in s.counters then FlushHost(cur, last, stored, h in down) else (last, stored)
            case Restart(_) =>
              Get(t.counters, h) == Get(t.last, h) == ZERO && Get(t.stored, h) == stored && Get(t.counted, h) == counted
  {
    if e.Flush? {
      FlushedAt(s, e.down, h);
    }
  }

  lemma StepConserves(s: State, e: Event, h: string)
    requires Conserved(s, h)
    ensures Conserved(Step(s, e), h)
  {
    var cur, last, stored, counted := Get(s.counters, h), Get(s.last, h), Get(s.stored, h), Get(s.counted, h);
    StepAt(s, e, h);
    ResetConserves(cur, last, stored, counted);
    match e
    case Pass(_, d) => PassConserves(cur, last, stored, counted, d);
    case Flush(down) => FlushHostConserves(cur, last, stored, h in down);
    case _ =>
  }

  lemma {:induction false} RunConserves(s: State, events: seq<Event>, h: string)
    requires Conserved(s, h)
    ensures Conserved(Run(s, events), h)
    decreases |events|
  {
    if events != [] {
      StepConserves(s, events[0], h);
      RunConserves(Step(s, events[0]), events[1..], h);
    }
  }

  lemma FreshStart(h: string)
    ensures Conserved(START, h) && Exact(START, h)
  {
  }

  /** In every run, whatever writes fail and counters restart, a host's total never exceeds its traffic. */
  lemma NeverOvercounts(events: seq<Event>, h: string)
    ensures AtMost(Get(Run(START, events).stored, h), Get(Run(START, events).counted, h))
  {
    FreshStart(h);
    RunConserves(START, events, h);
  }

  /** The process keeps running and no reload drops the host: its counters never restart. */
  predicate NeverRestarts(h: string, events: seq<Event>) {
    forall i :: 0 <= i < |events| ==> KeepsCounters(events[i], h)
  }

  predicate KeepsCounters(e: Event, h: string) {
    !e.Restart? && (e.Reload? ==> h in e.hosts)
  }

  /** What was persisted is what the flusher last saw, and the live counter is everything that passed. */
  predicate Exact(s: State, h: string) {
    && Get(s.stored, h) == Get(s.last, h) && AtMost(Get(s.last, h), Get(s.counters, h))
    && Get(s.counters, h) == Get(s.counted, h)
  }

  lemma StepExact(s: State, e: Event, h: string)
    requires Exact(s, h) && KeepsCounters(e, h)
    ensures Exact(Step(s, e), h)
    ensures e.Flush? && h !in e.down && h in s.counters ==> Get(Step(s, e).stored, h) == s.counters[h]
    ensures !(e.Flush? && h !in e.down) ==> Get(Step(s, e).stored, h) == Get(s.stored, h)
  {
    if e.Flush? {
      FlushedAt(s, e.down, h);
    }
  }

  /** The counter's value at the last tick whose write did not fail (nothing before the first). */
  function AtLastFlush(s: State, events: seq<Event>, h: string, seen: Snap): Snap
    decreases |events|
  {
    if events == [] then seen
    else
      var e := events[0];
      AtLastFlush(Step(s, e), events[1..], h,
                  if e.Flush? && h !in e.down && h in s.counters then s.counters[h] else seen)
  }

  lemma {:induction false} RunExact(s: State, events: seq<Event>, h: string)
    requires Exact(s, h) && NeverRestarts(h, events)
    ensures Get(Run(s, events).stored, h) == AtLastFlush(s, events, h, Get(s.stored, h))
    ensures Get(Run(s, events).counters, h) == Get(Run(s, events).counted, h)
    decreases |events|
  {
    if events != [] {
      var e := events[0];
      StepExact(s, e, h);
      if e.Flush? && h !in e.down && h !in s.counters {
        assert Get(Step(s, e).stored, h) == Get(s.stored, h);
      }
      RunExact(Step(s, e), events[1..], h);
    }
  }

  /** If its counters never restart, a host's total is exactly its traffic up to the last successful flush. */
  lemma ExactWithoutRestarts(events: seq<Event>, h: string)
    requires NeverRestarts(h, events)
    ensures Get(Run(START, events).stored, h) == AtLastFlush(START, events, h, ZERO)
    ensures Get(Run(START, events).counters, h) == Get(Run(START, events).counted, h)
  {
    FreshStart(h);
    RunExact(START, events, h);
  }

  // ----- In numbers of requests and bytes -----

  /** One number of all traffic that passed for a host in a run. */
  function Total(part: Snap -> nat, events: seq<Event>, h: string): nat {
    if events == [] then 0
    else
      var n := |events| - 1;
      Total(part, events[..n], h) + (if events[n].Pass? && events[n].host == h then part(events[n].amount) else 0)
  }

  function Requests(events: seq<Event>, h: string): nat {
    Total((a: Snap) => a.req, events, h)
  }

  function BytesIn(events: seq<Event>, h: string): nat {
    Total((a: Snap) => a.inn, events, h)
  }

  function BytesOut(events: seq<Event>, h: string): nat {
    Total((a: Snap) => a.out, events, h)
  }

  lemma {:induction false} RunSnoc(s: State, events: seq<Event>, e: Event)
    ensures Run(s, events + [e]) == Step(Run(s, events), e)
    decreases |events|
  {
    if events == [] {
      assert events + [e] == [e];
    } else {
      assert (events + [e])[1..] == events[1..] + [e];
      RunSnoc(Step(s, events[0]), events[1..], e);
    }
  }

  lemma {:induction false} CountedAtMost(events: seq<Event>, h: string)
    ensures var c := Get(Run(START, events).counted, h);
            c.req <= Requests(events, h) && c.inn <= BytesIn(events, h) && c.out <= BytesOut(events, h)
  {
    if events != [] {
      var n := |events| - 1;
      assert events == events[..n] + [events[n]];
      CountedAtMost(events[..n], h);
      RunSnoc(START, events[..n], events[n]);
      StepAt(Run(START, events[..n]), events[n], h);
    }
  }

  /** In every run a host's stored requests and bytes are at most those that passed for it. */
  lemma StoredAtMostPassed(events: seq<Event>, h: string)
    ensures var st := Get(Run(START, events).stored, h);
            st.req <= Requests(events, h) && st.inn <= BytesIn(events, h) && st.out <= BytesOut(events, h)
  {
    NeverOvercounts(events, h);
    CountedAtMost(events, h);
  }

  lemma {:induction false} CountersCount(hosts: set<string>, events: seq<Event>, h: string)
    requires h in hosts && NeverRestarts(h, events)
    ensures var s := Run(Step(START, Reload(hosts)), events);
            && h in s.counters && Exact(s, h)
            && s.counters[h] == Snap(Requests(events, h), BytesIn(events, h), BytesOut(events, h))
  {
    if events != [] {
      var n := |events| - 1;
      var s := Step(START, Reload(hosts));
      assert events == events[..n] + [events[n]];
      assert forall i :: 0 <= i < n ==> events[..n][i] == events[i];
      CountersCount(hosts, events[..n], h);
      RunSnoc(s, events[..n], events[n]);
      StepExact(Run(s, events[..n]), events[n], h);
      StepAt(Run(s, events[..n]), events[n], h);
    }
  }

  /**
   * A host that stays configured, in a process that keeps running: after any flush that succeeds
   * for it, whatever flushes failed before, its stored numbers are exactly what passed.
   */
  lemma StoredIsPassed(hosts: set<string>, events: seq<Event>, h: string, down: set<string>)
    requires h in hosts && NeverRestarts(h, events) && h !in down
    ensures Get(Run(START, [Reload(hosts)] + events + [Flush(down)]).stored, h)
            == Snap(Requests(events, h), BytesIn(events, h), BytesOut(events, h))
  {
    var s := Step(START, Reload(hosts));
    CountersCount(hosts, events, h);
    var all := [Reload(hosts)] + events + [Flush(down)];
    assert all[1..] == events + [Flush(down)];
    RunSnoc(s, events, Flush(down));
    StepExact(Run(s, events), Flush(down), h);
  }
}
