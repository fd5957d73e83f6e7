/**
 * The configuration reload loop of cmd/goddns/serve.go, outside ACME mode: a failed reload keeps
 * the old routes and is retried, and flipping the proxy off empties the table.
 */
module Reload {

  /** The part of the configuration the loop routes by. */
  datatype Config = Config(enabled: bool, rules: map<string, string>)

  /** Hosts last applied, whether an apply is owed, the last signature, the stored config, the live table. */
  datatype State = State(
    applied: set<string>,
    dirty: bool,
    lastSig: string,
    cur: Config,
    table: map<string, string>)

  /** What woke the loop, and what the outside world answers this turn. */
  datatype Turn =
    | Tick(changed: bool, sig: string, loaded: Loaded, compiles: bool)
    | Hup(sig: string, loaded: Loaded, compiles: bool)

  datatype Loaded = Failed | Fresh(cfg: Config)

  /** The routes a configuration asks for. */
  function Target(cfg: Config): map<string, string> {
    if cfg.enabled then cfg.rules else map[]
  }

  /** `applyProxy`. */
  function Applied(s: State, cfg: Config, compiles: bool): State {
    if !cfg.enabled then
      if s.applied != {} then s.(table := map[], applied := {}, dirty := false) else s.(dirty := false)
    else if !compiles then s.(dirty := true)
    else s.(table := cfg.rules, applied := cfg.rules.Keys, dirty := false)
  }

  function Reloaded(s: State, loaded: Loaded, compiles: bool): State {
    match loaded
    case Failed => s
    case Fresh(cfg) => Applied(s, cfg, compiles).(cur := cfg)
  }

  /** One turn of the loop. */
  function Next(s: State, t: Turn): State {
    match t
    case Tick(changed, sig, loaded, compiles) =>
      if !changed && sig == s.lastSig then
        if s.dirty then Applied(s, s.cur, compiles) else s
      else Reloaded(s.(lastSig := sig), loaded, compiles)
    case Hup(sig, loaded, compiles) => Reloaded(s.(lastSig := sig), loaded, compiles)
  }

  class Reloader {
    var applied: set<string>
    var dirty: bool
    var lastSig: string
    var cur: Config
    var table: map<string, string>

    function Now(): State
      reads this
    {
      State(applied, dirty, lastSig, cur, table)
    }

    ghost predicate Valid()
      reads this
    {
      Synced(Now())
    }

    /** The proxy was started from an enabled configuration whose routes compiled. */
    constructor (cfg: Config, sig: string)
      requires cfg.enabled
      ensures Valid() && Now() == State(cfg.rules.Keys, false, sig, cfg, cfg.rules)
    {
      applied, dirty, lastSig, cur, table := cfg.rules.Keys, false, sig, cfg, cfg.rules;
    }

    method ApplyProxy(cfg: Config, compiles: bool)
      modifies this
      ensures Now() == Applied(old(Now()), cfg, compiles)
    {
      if !cfg.enabled {
        if |applied| > 0 {
          table := map[];
          applied := {};
        }
        dirty := false;
        return;
      }
      if !compiles {
        dirty := true;
        return;
      }
      table := cfg.rules;
      applied := cfg.rules.Keys;
      dirty := false;
    }

    method TakeTurn(t: Turn)
      requires Valid()
      modifies this
      ensures Valid() && Now() == Next(old(Now()), t)
    {
      NextKeepsSynced(Now(), t);
      if t.Tick? && !t.changed && t.sig == lastSig {
        if dirty {
          ApplyProxy(cur, t.compiles);
        }
        return;
      }
      lastSig := t.sig;
      if t.loaded.Failed? {
        return;
      }
      ApplyProxy(t.loaded.cfg, t.compiles);
      cur := t.loaded.cfg;
    }
  }

  /**
   * At the head of the loop: an apply is owed, or the live routes are the stored configuration's.
   * Only an enabled configuration can be owed.
   */
  ghost predicate Synced(s: State) {
    && (s.dirty || s.table == Target(s.cur)) && s.applied == s.table.Keys
    && (s.dirty ==> s.cur.enabled)
  }

  lemma NextKeepsSynced(s: State, t: Turn)
    requires Synced(s)
    ensures Synced(Next(s, t))
  {
  }

  /** The turn re-reads the configuration, rather than being quiet. */
  predicate Loads(s: State, t: Turn) {
    t.Hup? || t.changed || t.sig != s.lastSig
  }

  /**
   * A turn swaps the whole table or none of it: a failed load changes nothing but the signature,
   * a turn that ends owing an apply kept the old routes, and one that does not ends on the stored
   * configuration's, unless it was quiet.
   */
  lemma TurnAllOrNothing(s: State, t: Turn)
    requires Synced(s)
    ensures Loads(s, t) && t.loaded.Failed? ==> Next(s, t) == s.(lastSig := t.sig)
    ensures Next(s, t).dirty ==> Next(s, t).table == s.table
    ensures !Next(s, t).dirty ==> Next(s, t).table == Target(Next(s, t).cur)
    ensures Next(s, t).dirty <==> if Loads(s, t) && t.loaded.Fresh? then t.loaded.cfg.enabled && !t.compiles
                                  else s.dirty && (Loads(s, t) || !t.compiles)
  {
  }

  function Run(s: State, turns: seq<Turn>): State
    decreases |turns|
  {
    if turns == [] then s else Run(Next(s, turns[0]), turns[1..])
  }

  /** The reload invariant holds at every loop head of every run. */
  lemma {:induction false} AlwaysSynced(s: State, turns: seq<Turn>)
    requires Synced(s)
    ensures Synced(Run(s, turns))
    decreases |turns|
  {
    if turns != [] {
      NextKeepsSynced(s, turns[0]);
      AlwaysSynced(Next(s, turns[0]), turns[1..]);
    }
  }

  /** The configuration in force: the stored one, as of the last head at which no apply was owed. */
  function InForce(s: State, turns: seq<Turn>, before: Config): Config
    decreases |turns|
  {
    var now := if s.dirty then before else s.cur;
    if turns == [] then now else InForce(Next(s, turns[0]), turns[1..], now)
  }

  /** In every run the live routes are those of one whole configuration: the last that was applied. */
  lemma {:induction false} RoutesAreOneConfigs(s: State, turns: seq<Turn>, before: Config)
    requires Synced(s) && s.table == Target(if s.dirty then before else s.cur)
    ensures Run(s, turns).table == Target(InForce(s, turns, before))
    decreases |turns|
  {
    if turns != [] {
      NextKeepsSynced(s, turns[0]);
      TurnAllOrNothing(s, turns[0]);
      RoutesAreOneConfigs(Next(s, turns[0]), turns[1..], if s.dirty then before else s.cur);
    }
  }

  /** Retry converges: the first quiet turn whose routes compile brings the table to the configuration. */
  lemma RetryConverges(s: State, turns: seq<Turn>)
    requires Synced(s)
    ensures var r := Run(s, turns);
            var q := Next(r, Tick(false, r.lastSig, Failed, true));
            q.table == Target(r.cur) && !q.dirty
  {
    AlwaysSynced(s, turns);
  }

  /** Turning the proxy off empties the table at once, whatever failed before. */
  lemma DisablingEmpties(s: State, turns: seq<Turn>, sig: string, rules: map<string, string>, compiles: bool)
    requires Synced(s)
    ensures Next(Run(s, turns), Hup(sig, Fresh(Config(false, rules)), compiles)).table == map[]
  {
    AlwaysSynced(s, turns);
  }

  // ----- What was loaded is what runs -----

  /**
   * A turn that loads a configuration stores that configuration; if it is disabled the table is
   * emptied at once, and if its routes compile they are the table from then on.
   */
  lemma LoadedIsStored(s: State, t: Turn, cfg: Config)
    requires Synced(s) && t.loaded == Fresh(cfg) && (t.Tick? ==> t.changed || t.sig != s.lastSig)
    ensures Next(s, t).cur == cfg
    ensures !cfg.enabled ==> Next(s, t).table == map[] && !Next(s, t).dirty
    ensures cfg.enabled && t.compiles ==> Next(s, t).table == cfg.rules && !Next(s, t).dirty
    ensures cfg.enabled && !t.compiles ==> Next(s, t).table == s.table && Next(s, t).dirty
  {
  }

  /** Turn `i` re-reads the configuration; a turn's signature is the next one's yardstick, loaded or not. */
  predicate Rereads(sig: string, turns: seq<Turn>, i: nat)
    requires i < |turns|
  {
    turns[i].Hup? || turns[i].changed || turns[i].sig != (if i == 0 then sig else turns[i - 1].sig)
  }

  /** The configuration the first `n` turns leave behind: that of the last of them that loaded one. */
  function LastLoaded(first: Config, sig: string, turns: seq<Turn>, n: nat): Config
    requires n <= |turns|
  {
    if n == 0 then first
    else if Rereads(sig, turns, n - 1) && turns[n - 1].loaded.Fresh? then turns[n - 1].loaded.cfg
    else LastLoaded(first, sig, turns, n - 1)
  }

  /**
   * Turn `i` brings the table to the last loaded configuration: it loads one or is quiet, and the
   * routes compile or the proxy is off.
   */
  predicate TakesEffect(first: Config, sig: string, turns: seq<Turn>, i: nat)
    requires i < |turns|
  {
    && (turns[i].loaded.Fresh? || !Rereads(sig, turns, i))
    && (turns[i].compiles || !LastLoaded(first, sig, turns, i + 1).enabled)
  }

  /** The routes after the first `n` turns: those asked for at the last turn that took effect. */
  function RoutesAfter(first: Config, sig: string, turns: seq<Turn>, n: nat): map<string, string>
    requires n <= |turns|
  {
    if n == 0 then (if first.enabled then first.rules else map[])
    else if TakesEffect(first, sig, turns, n - 1) then
      var c := LastLoaded(first, sig, turns, n);
      if c.enabled then c.rules else map[]
    else RoutesAfter(first, sig, turns, n - 1)
  }

  lemma {:induction false} RunSnoc(s: State, turns: seq<Turn>, t: Turn)
    ensures Run(s, turns + [t]) == Next(Run(s, turns), t)
    decreases |turns|
  {
    if turns == [] {
      assert turns + [t] == [t];
    } else {
      assert (turns + [t])[1..] == turns[1..] + [t];
      RunSnoc(Next(s, turns[0]), turns[1..], t);
    }
  }

  /** No apply was owed at the start: the loop's own fields are what the turns say. */
  lemma {:induction false} RunFollows(s: State, turns: seq<Turn>, n: nat)
    requires Synced(s) && !s.dirty && n <= |turns|
    ensures var r := Run(s, turns[..n]);
            && Synced(r) && r.lastSig == (if n == 0 then s.lastSig else turns[n - 1].sig)
            && r.cur == LastLoaded(s.cur, s.lastSig, turns, n)
            && r.table == RoutesAfter(s.cur, s.lastSig, turns, n)
  {
    if n > 0 {
      RunFollows(s, turns, n - 1);
      var r, t := Run(s, turns[..n - 1]), turns[n - 1];
      assert turns[..n] == turns[..n - 1] + [t];
      RunSnoc(s, turns[..n - 1], t);
      NextKeepsSynced(r, t);
    }
  }

  /**
   * Every run from a started proxy: the live routes are those of the configuration last loaded at
   * the last turn that took effect, and the stored configuration is the last one loaded.
   */
  lemma RoutesFollowLoads(cfg: Config, sig: string, turns: seq<Turn>)
    requires cfg.enabled
    ensures var r := Run(State(cfg.rules.Keys, false, sig, cfg, cfg.rules), turns);
            && r.cur == LastLoaded(cfg, sig, turns, |turns|)
            && r.table == RoutesAfter(cfg, sig, turns, |turns|)
  {
    assert turns[..|turns|] == turns;
    RunFollows(State(cfg.rules.Keys, false, sig, cfg, cfg.rules), turns, |turns|);
  }
}
