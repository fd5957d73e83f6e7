/** The routing table of internal/proxy/proxy.go: an all-or-nothing swap that carries unchanged rules over. */
module ProxyTable {
  import opened Limiter

  /** A host's configured rule; the rate limit is part of it, and none is set unless it is positive. */
  datatype Source = Source(upstream: string, rate: int)

  type Config = map<string, Source>

  /** The state of a rule's limiter; a rule may have none. */
  datatype Limit = Unlimited | Limited(rate: nat, buckets: Buckets, sweep: nat)

  datatype Rule = Rule(src: Source, limit: Limit)

  type Table = map<string, Rule>

  /** `compile`: a limiter only for a positive rate. */
  function Compiled(src: Source, now: nat): Rule {
    Rule(src, if src.rate > 0 then Limited(src.rate, map[], now) else Unlimited)
  }

  /** Whether the rule lets a client's request through its limit. */
  function Lets(l: Limit, key: string, now: nat): bool {
    l.Unlimited? || Grants(l.rate, l.buckets, key, now)
  }

  function Used(l: Limit, key: string, now: nat): Limit {
    match l
    case Unlimited => Unlimited
    case Limited(rate, buckets, sweep) =>
      var next := AfterAllow(rate, buckets, sweep, key, now);
      Limited(rate, next.0, next.1)
  }

  predicate Unchanged(prev: Table, host: string, src: Source) {
    host in prev && prev[host].src == src
  }

  /** Every rule that is new or changed compiles. */
  predicate Compiles(prev: Table, cfg: Config, good: (string, Source) -> bool) {
    forall h :: h in cfg ==> Unchanged(prev, h, cfg[h]) || good(h, cfg[h])
  }

  function Built(prev: Table, cfg: Config, now: nat): Table {
    map h | h in cfg :: if Unchanged(prev, h, cfg[h]) then prev[h] else Compiled(cfg[h], now)
  }

  /** What the table is for: host to configured rule. */
  function Routes(t: Table): Config {
    map h | h in t :: t[h].src
  }

  function Updated(prev: Table, cfg: Config, good: (string, Source) -> bool, now: nat): Table {
    if Compiles(prev, cfg, good) then Built(prev, cfg, now) else prev
  }

  class Proxy {
    var rules: Table

    constructor ()
      ensures rules == map[]
    {
      rules := map[];
    }

    /** `Update`: build a new table host by host; swap it in only if every rule compiled. */
    method Update(cfg: Config, good: (string, Source) -> bool, now: nat) returns (ok: bool)
      modifies this
      ensures ok == Compiles(old(rules), cfg, good)
      ensures rules == Updated(old(rules), cfg, good, now)
      ensures ok ==> Routes(rules) == cfg
      ensures !ok ==> rules == old(rules)
    {
      var prev := rules;
      var table: Table := map[];
      var todo := cfg.Keys;
      while todo != {}
        invariant todo <= cfg.Keys
        invariant table == map h | h in cfg && h !in todo ::
                  if Unchanged(prev, h, cfg[h]) then prev[h] else Compiled(cfg[h], now)
        invariant forall h :: h in cfg && h !in todo ==> Unchanged(prev, h, cfg[h]) || good(h, cfg[h])
        decreases |todo|
      {
        var h :| h in todo;
        if Unchanged(prev, h, cfg[h]) {
          table := table[h := prev[h]];
        } else {
          if !good(h, cfg[h]) {
            return false;
          }
          table := table[h := Compiled(cfg[h], now)];
        }
        todo := todo - {h};
      }
      rules := table;
      ok := true;
    }
  }

  /**
   * All or nothing: if a host that is new, or whose rule differs, does not compile, nothing changes;
   * otherwise the table has exactly the configured hosts, unchanged rules with their limiter as it
   * is, the others with a new one.
   */
  lemma AllOrNothing(prev: Table, cfg: Config, good: (string, Source) -> bool, now: nat)
    ensures (exists h :: h in cfg && !(h in prev && prev[h].src == cfg[h]) && !good(h, cfg[h]))
            ==> Updated(prev, cfg, good, now) == prev
    ensures (forall h :: h in cfg && !(h in prev && prev[h].src == cfg[h]) ==> good(h, cfg[h]))
            ==> var t := Updated(prev, cfg, good, now);
                && Routes(t) == cfg
                && (forall h :: h in t && h in prev && prev[h].src == cfg[h] ==> t[h] == prev[h])
                && (forall h :: h in t && !(h in prev && prev[h].src == cfg[h]) ==>
                      t[h].limit == if cfg[h].rate > 0 then Limited(cfg[h].rate, map[], now) else Unlimited)
  {
    if h :| h in cfg && !(h in prev && prev[h].src == cfg[h]) && !good(h, cfg[h]) {
      assert !Unchanged(prev, h, cfg[h]);
    }
  }

  // ----- The limit across reloads -----

  datatype Event =
    | Request(host: string, key: string, now: nat)
    | Reload(cfg: Config, at: nat)

  function Time(e: Event): nat {
    if e.Request? then e.now else e.at
  }

  predicate InTime(events: seq<Event>, from: nat) {
    && (forall i :: 0 <= i < |events| ==> from <= Time(events[i]))
    && (forall i, j :: 0 <= i < j < |events| ==> Time(events[i]) <= Time(events[j]))
  }

  /** The table after an event; a request spends from its host's limiter. */
  function After(t: Table, e: Event, good: (string, Source) -> bool): Table {
    match e
    case Reload(cfg, at) => Updated(t, cfg, good, at)
    case Request(host, key, now) =>
      if host !in t then t else t[host := t[host].(limit := Used(t[host].limit, key, now))]
  }

  /** The answers a host gives along a run. */
  function HostAnswers(t: Table, host: string, events: seq<Event>, good: (string, Source) -> bool): seq<bool>
    decreases |events|
  {
    if events == [] then []
    else
      var e := events[0];
      var rest := HostAnswers(After(t, e, good), host, events[1..], good);
      if e.Request? && e.host == host && host in t then [Lets(t[host].limit, e.key, e.now)] + rest else rest
  }

  /** The answers one limiter, or none, gives to a sequence of calls. */
  function LimitAnswers(l: Limit, calls: seq<Call>): seq<bool>
    decreases |calls|
  {
    if calls == [] then []
    else [Lets(l, calls[0].key, calls[0].now)] + LimitAnswers(Used(l, calls[0].key, calls[0].now), calls[1..])
  }

  function CallsOf(host: string, events: seq<Event>): seq<Call> {
    if events == [] then []
    else
      var rest := CallsOf(host, events[1..]);
      if events[0].Request? && events[0].host == host then [Call(events[0].key, events[0].now)] + rest else rest
  }

  /** No reload that succeeds changes or drops the host's rule. */
  ghost predicate KeepsRule(host: string, src: Source, events: seq<Event>) {
    forall i :: 0 <= i < |events| && events[i].Reload? ==> host in events[i].cfg && events[i].cfg[host] == src
  }

  lemma {:induction false} CallsInOrder(host: string, events: seq<Event>, from: nat)
    requires InTime(events, from)
    ensures InOrder(CallsOf(host, events), from)
    decreases |events|
  {
    if events != [] {
      CallsInOrder(host, events[1..], Time(events[0]));
      var e, rest := events[0], CallsOf(host, events[1..]);
      if e.Request? && e.host == host {
        assert CallsOf(host, events)[0].now == e.now;
      }
    }
  }

  /** While a host's rule is unchanged its answers are those of one limiter, whatever reloads happen. */
  lemma {:induction false} LimiterSurvivesReloads(t: Table, host: string, events: seq<Event>,
                                                  good: (string, Source) -> bool)
    requires host in t && KeepsRule(host, t[host].src, events)
    ensures HostAnswers(t, host, events, good) == LimitAnswers(t[host].limit, CallsOf(host, events))
    decreases |events|
  {
    if events != [] {
      var e := events[0];
      var t' := After(t, e, good);
      assert host in t' && t'[host].src == t[host].src;
      LimiterSurvivesReloads(t', host, events[1..], good);
      if e.Request? && e.host == host {
        assert CallsOf(host, events)[1..] == CallsOf(host, events[1..]);
      } else {
        assert t'[host] == t[host];
      }
    }
  }

  lemma {:induction false} LimitedAnswers(rate: nat, buckets: Buckets, sweep: nat, calls: seq<Call>)
    ensures LimitAnswers(Limited(rate, buckets, sweep), calls) == Answers(rate, buckets, sweep, calls)
    decreases |calls|
  {
    if calls != [] {
      var next := AfterAllow(rate, buckets, sweep, calls[0].key, calls[0].now);
      LimitedAnswers(rate, next.0, next.1, calls[1..]);
    }
  }

  lemma {:induction false} UnlimitedAnswers(calls: seq<Call>)
    ensures |LimitAnswers(Unlimited, calls)| == |calls|
    ensures forall i :: 0 <= i < |calls| ==> LimitAnswers(Unlimited, calls)[i]
    decreases |calls|
  {
    if calls != [] {
      UnlimitedAnswers(calls[1..]);
    }
  }

  /**
   * The rate limit end to end: for a host whose rule has a positive rate, was compiled at `born`
   * and is kept by every reload since, any window of its requests spanning at most `span` grants
   * one client at most `2 * rate + rate * span` of them.
   */
  lemma LimitAcrossReloads(host: string, src: Source, others: Table, events: seq<Event>, good: (string, Source) -> bool,
                           born: nat, i: nat, j: nat, span: nat, key: string)
    requires src.rate > 0 && InTime(events, born) && KeepsRule(host, src, events)
    requires var calls := CallsOf(host, events);
             i < j <= |calls| && calls[j - 1].now - calls[i].now <= span
    ensures var t := others[host := Compiled(src, born)];
            var calls, answers := CallsOf(host, events), HostAnswers(t, host, events, good);
            && |answers| == |calls|
            && Granted(key, calls[i..j], answers[i..j]) * SECOND <= 2 * src.rate * SECOND + span * src.rate
  {
    var t := others[host := Compiled(src, born)];
    CallsInOrder(host, events, born);
    LimiterSurvivesReloads(t, host, events, good);
    LimitedAnswers(src.rate, map[], born, CallsOf(host, events));
    LimitHolds(src.rate, born, CallsOf(host, events), i, j, span, key);
  }

  /** Across such reloads a request is granted if and only if it fits every window that ends with it. */
  lemma ExactAcrossReloads(host: string, src: Source, others: Table, events: seq<Event>, good: (string, Source) -> bool,
                           born: nat, i: nat)
    requires src.rate > 0 && InTime(events, born) && KeepsRule(host, src, events) && i < |CallsOf(host, events)|
    ensures var answers := HostAnswers(others[host := Compiled(src, born)], host, events, good);
            && |answers| == |CallsOf(host, events)|
            && (answers[i] <==> RoomFor(src.rate, CallsOf(host, events), answers, i))
  {
    var t := others[host := Compiled(src, born)];
    CallsInOrder(host, events, born);
    LimiterSurvivesReloads(t, host, events, good);
    LimitedAnswers(src.rate, map[], born, CallsOf(host, events));
    GrantedExactly(src.rate, born, CallsOf(host, events), i);
  }

  /** A rule without a positive rate is unlimited: every request is granted, across reloads that keep it. */
  lemma NoRateNoLimit(host: string, src: Source, others: Table, events: seq<Event>, good: (string, Source) -> bool,
                      born: nat)
    requires src.rate <= 0 && KeepsRule(host, src, events)
    ensures var answers := HostAnswers(others[host := Compiled(src, born)], host, events, good);
            |answers| == |CallsOf(host, events)| && forall i :: 0 <= i < |answers| ==> answers[i]
  {
    LimiterSurvivesReloads(others[host := Compiled(src, born)], host, events, good);
    UnlimitedAnswers(CallsOf(host, events));
  }
}
