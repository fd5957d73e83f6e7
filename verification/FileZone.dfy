/**
 * The locked write pipeline of internal/filezone as a protocol: any number of writers,
 * each taking the lock, reading, computing, checking, re-reading, backing up, renaming,
 * reloading and perhaps restoring, any step of which may fail; and an outside editor that
 * ignores the lock and may save at any point.
 */
module FileZone {
  import opened Text
  import opened ZoneFile
  import opened Retention

  datatype Request =
    | Apply(ops: seq<Op>)
    | Replace(text: string, read: Option<string>)

  /**
   * `compute` gives the bytes a request writes over the bytes it read, on a given day, or none
   * when it is refused; `keep` is the number of backups retained, never 0 in the program.
   */
  datatype Env = Env(compute: (Request, string, nat) -> Option<string>, keep: nat)

  datatype Author = Outside | Writer(id: nat)

  /** The zone file's content, who wrote it and at which step. */
  datatype Version = Version(content: string, author: Author, at: nat)

  /** A computed change: `text` is to replace `base`. */
  datatype Job = Job(req: Request, today: nat, base: string, text: string)

  datatype Phase =
    | Idle
    | Waiting(req: Request)
    | Holding(req: Request)
    | HasRead(req: Request, base: string)
    | Computed(job: Job)
    | Checked(job: Job)
    | Guarded(job: Job, since: nat)
    | BackedUp(job: Job, since: nat)
    | Renamed(job: Job, since: nat)
    | ReloadFailed(job: Job, since: nat)
    | Leaving

  datatype Kind = Commit | Undo

  /**
   * One rename by a writer: what it replaced and when; `since` is the step of the guard's
   * re-read (for a commit) or of the rename being undone; `saved` says whether the bytes
   * the change was computed from were in a backup.
   */
  datatype Overwrite = Overwrite(kind: Kind, job: Job, replaced: Version, since: nat, at: nat, saved: bool)

  datatype State = State(
    now: nat,
    file: Version,
    lock: Option<nat>,
    phase: map<nat, Phase>,
    backups: map<nat, string>,
    log: seq<Overwrite>,
    committed: seq<string>)

  datatype Action =
    | Begin(w: nat, req: Request)
    | Lock(w: nat)
    | Read(w: nat)
    | Compute(w: nat, today: nat)
    | CheckZone(w: nat)
    | Guard(w: nat)
    | BackUp(w: nat, stamp: nat)
    | Rename(w: nat)
    | Reload(w: nat, ok: bool)
    | Restore(w: nat)
    | Abort(w: nat)
    | Unlock(w: nat)
    | Crash(w: nat)
    | Save(text: string)

  function PhaseOf(s: State, w: nat): Phase {
    if w in s.phase then s.phase[w] else Idle
  }

  function Goto(s: State, w: nat, p: Phase): State {
    s.(phase := s.phase[w := p])
  }

  predicate Saved(s: State, base: string) {
    exists k :: k in s.backups && s.backups[k] == base
  }

  /** What an action does when it is possible; otherwise nothing happens. */
  ghost function Do(env: Env, s: State, a: Action): State {
    match a
    case Begin(w, req) => if PhaseOf(s, w).Idle? then Goto(s, w, Waiting(req)) else s
    case Lock(w) =>
      var p := PhaseOf(s, w);
      if p.Waiting? && s.lock.None? then Goto(s, w, Holding(p.req)).(lock := Some(w)) else s
    case Read(w) =>
      var p := PhaseOf(s, w);
      if p.Holding? then Goto(s, w, HasRead(p.req, s.file.content)) else s
    case Compute(w, today) =>
      var p := PhaseOf(s, w);
      if !p.HasRead? then s
      else
        var text := env.compute(p.req, p.base, today);
        if text.None? then Goto(s, w, Leaving)
        else Goto(s, w, Computed(Job(p.req, today, p.base, text.value)))
    case CheckZone(w) =>
      var p := PhaseOf(s, w);
      if p.Computed? then Goto(s, w, Checked(p.job)) else s
    case Guard(w) =>
      var p := PhaseOf(s, w);
      if !p.Checked? then s
      else if s.file.content != p.job.base then Goto(s, w, Leaving)
      else Goto(s, w, Guarded(p.job, s.now))
    case BackUp(w, stamp) =>
      var p := PhaseOf(s, w);
      if p.Guarded?
      then Goto(s, w, BackedUp(p.job, p.since)).(backups := NewestEntries(s.backups[stamp := p.job.base], env.keep))
      else s
    case Rename(w) =>
      var p := PhaseOf(s, w);
      if p.BackedUp? then
        Goto(s, w, Renamed(p.job, s.now)).(
          file := Version(p.job.text, Writer(w), s.now),
          log := s.log + [Overwrite(Commit, p.job, s.file, p.since, s.now, Saved(s, p.job.base))])
      else s
    case Reload(w, ok) =>
      var p := PhaseOf(s, w);
      if !p.Renamed? then s
      else if ok then Goto(s, w, Leaving).(committed := s.committed + [p.job.text])
      else Goto(s, w, ReloadFailed(p.job, p.since))
    case Restore(w) =>
      var p := PhaseOf(s, w);
      if p.ReloadFailed? then
        Goto(s, w, Leaving).(
          file := Version(p.job.base, Writer(w), s.now),
          log := s.log + [Overwrite(Undo, p.job, s.file, p.since, s.now, Saved(s, p.job.base))])
      else s
    case Abort(w) =>
      var p := PhaseOf(s, w);
      if p.Waiting? then Goto(s, w, Idle)
      else if p.Idle? || p.Renamed? then s
      else Goto(s, w, Leaving)
    case Unlock(w) =>
      if PhaseOf(s, w).Leaving? then Goto(s, w, Idle).(lock := None) else s
    case Crash(w) =>
      Goto(s, w, Idle).(lock := if s.lock == Some(w) then None else s.lock)
    case Save(text) => s.(file := Version(text, Outside, s.now))
  }

  ghost function Step(env: Env, s: State, a: Action): State {
    Do(env, s, a).(now := s.now + 1)
  }

  ghost function Run(env: Env, s: State, actions: seq<Action>): State
    decreases |actions|
  {
    if actions == [] then s else Run(env, Step(env, s, actions[0]), actions[1..])
  }

  function Initial(content: string): State {
    State(1, Version(content, Outside, 0), None, map[], map[], [], [])
  }

  // ----- The invariant -----

  predicate Critical(p: Phase) {
    !p.Idle? && !p.Waiting?
  }

  ghost predicate JobOk(env: Env, job: Job) {
    env.compute(job.req, job.base, job.today) == Some(job.text)
  }

  /** The file still holds `content`, or an outside save landed after step `since`. */
  predicate HoldsOrSaved(v: Version, content: string, since: nat) {
    v.content == content || (v.author.Outside? && since < v.at)
  }

  /** The file is the version a writer renamed in at step `since`, or an outside save landed after. */
  predicate WroteOrSaved(v: Version, content: string, since: nat) {
    (v.author.Writer? && v.content == content && v.at == since) || (v.author.Outside? && since < v.at)
  }

  ghost predicate PhaseOk(env: Env, s: State, p: Phase) {
    match p
    case Computed(job) => JobOk(env, job)
    case Checked(job) => JobOk(env, job)
    case Guarded(job, since) => JobOk(env, job) && since < s.now && HoldsOrSaved(s.file, job.base, since)
    case BackedUp(job, since) => JobOk(env, job) && since < s.now && HoldsOrSaved(s.file, job.base, since)
    case Renamed(job, since) => JobOk(env, job) && since < s.now && WroteOrSaved(s.file, job.text, since)
    case ReloadFailed(job, since) => JobOk(env, job) && since < s.now && WroteOrSaved(s.file, job.text, since)
    case _ => true
  }

  /** What a rename may replace: the bytes it was computed from (or wrote), or a save in its window. */
  ghost predicate Justified(env: Env, e: Overwrite) {
    && JobOk(env, e.job) && e.since < e.at && e.replaced.at < e.at
    && (if e.kind.Commit? then HoldsOrSaved(e.replaced, e.job.base, e.since)
        else WroteOrSaved(e.replaced, e.job.text, e.since))
  }

  ghost predicate Inv(env: Env, s: State) {
    && (forall w: nat :: Critical(PhaseOf(s, w)) <==> s.lock == Some(w))
    && s.file.at < s.now
    && (forall w: nat :: PhaseOk(env, s, PhaseOf(s, w)))
    && (forall i :: 0 <= i < |s.log| ==> Justified(env, s.log[i]))
  }

  lemma InitialInv(env: Env, content: string)
    ensures Inv(env, Initial(content))
  {
  }

  /** Nothing but the phase of `w` and the lock changed, and `w` is the only critical writer. */
  lemma OthersKeep(env: Env, s: State, t: State, w: nat)
    requires Inv(env, s) && (t.phase == s.phase[w := PhaseOf(t, w)] || t.phase == s.phase)
    requires Critical(PhaseOf(s, w)) || t.file == s.file
    requires s.now <= t.now
    ensures forall v: nat :: v != w ==> PhaseOf(t, v) == PhaseOf(s, v) && PhaseOk(env, t, PhaseOf(t, v))
  {
    forall v: nat | v != w ensures PhaseOf(t, v) == PhaseOf(s, v) && PhaseOk(env, t, PhaseOf(t, v)) {
      assert PhaseOk(env, s, PhaseOf(s, v));
      assert Critical(PhaseOf(s, v)) <==> s.lock == Some(v);
      assert Critical(PhaseOf(s, w)) <==> s.lock == Some(w);
    }
  }

  lemma SaveKeepsInv(env: Env, s: State, text: string)
    requires Inv(env, s)
    ensures Inv(env, Step(env, s, Save(text)))
  {
    var t := Step(env, s, Save(text));
    forall w: nat ensures PhaseOk(env, t, PhaseOf(t, w)) && (Critical(PhaseOf(t, w)) <==> t.lock == Some(w)) {
      assert PhaseOf(t, w) == PhaseOf(s, w) && PhaseOk(env, s, PhaseOf(s, w));
      assert Critical(PhaseOf(s, w)) <==> s.lock == Some(w);
    }
  }

  function Actor(a: Action): nat
    requires !a.Save?
  {
    a.w
  }

  /** The acting writer's own obligation after its step. */
  lemma ActorOk(env: Env, s: State, a: Action)
    requires Inv(env, s) && !a.Save?
    ensures var t := Step(env, s, a); PhaseOk(env, t, PhaseOf(t, Actor(a))) && t.file.at < t.now
  {
    assert PhaseOk(env, s, PhaseOf(s, Actor(a)));
  }

  lemma LockOk(env: Env, s: State, a: Action)
    requires Inv(env, s) && !a.Save?
    ensures var t := Step(env, s, a); forall v: nat :: Critical(PhaseOf(t, v)) <==> t.lock == Some(v)
  {
    var t := Step(env, s, a);
    assert Critical(PhaseOf(s, Actor(a))) <==> s.lock == Some(Actor(a));
    forall v: nat ensures Critical(PhaseOf(t, v)) <==> t.lock == Some(v) {
      assert Critical(PhaseOf(s, v)) <==> s.lock == Some(v);
    }
  }

  lemma LogOk(env: Env, s: State, a: Action)
    requires Inv(env, s)
    ensures var t := Step(env, s, a); forall i :: 0 <= i < |t.log| ==> Justified(env, t.log[i])
  {
    if !a.Save? {
      assert PhaseOk(env, s, PhaseOf(s, Actor(a)));
    }
  }

  lemma StepKeepsInv(env: Env, s: State, a: Action)
    requires Inv(env, s)
    ensures Inv(env, Step(env, s, a))
  {
    if a.Save? {
      SaveKeepsInv(env, s, a.text);
    } else {
      PhaseMoves(env, s, a);
      OthersKeep(env, s, Step(env, s, a), Actor(a));
      ActorOk(env, s, a);
      LockOk(env, s, a);
      LogOk(env, s, a);
    }
  }

  /** A writer's step changes its own phase, and the file only while it holds the lock. */
  lemma PhaseMoves(env: Env, s: State, a: Action)
    requires !a.Save?
    ensures var w, t := Actor(a), Step(env, s, a);
            && (t.phase == s.phase[w := PhaseOf(t, w)] || t.phase == s.phase)
            && (Critical(PhaseOf(s, w)) || (t.file == s.file && t.committed == s.committed))
  {
  }

  lemma {:induction false} RunKeepsInv(env: Env, s: State, actions: seq<Action>)
    requires Inv(env, s)
    ensures Inv(env, Run(env, s, actions))
    decreases |actions|
  {
    if actions != [] {
      StepKeepsInv(env, s, actions[0]);
      RunKeepsInv(env, Step(env, s, actions[0]), actions[1..]);
    }
  }

  // ----- Safety under interleaving -----

  /**
   * In every run of any number of writers and an outside editor: two writers are never past
   * the lock together; every rename writes bytes computed from the base it carries; and what
   * a rename replaces is exactly that base (the writer's own bytes, when it undoes a failed
   * reload) unless an outside save landed after the guard's re-read (after the rename being
   * undone) and before it. `SaveFates` says what becomes of every outside save, and
   * `StaleWriterRefuses` that a writer whose base is no longer the file's content gives up.
   */
  lemma OutsideSavesSafe(env: Env, content: string, actions: seq<Action>)
    ensures var s := Run(env, Initial(content), actions);
            && (forall v: nat, w: nat :: Critical(PhaseOf(s, v)) && Critical(PhaseOf(s, w)) ==> v == w)
            && (forall i :: 0 <= i < |s.log| ==>
                  var e := s.log[i];
                  && JobOk(env, e.job)
                  && (|| e.replaced.content == (if e.kind.Commit? then e.job.base else e.job.text)
                      || (e.replaced.author.Outside? && e.since < e.replaced.at < e.at)))
  {
    InitialInv(env, content);
    RunKeepsInv(env, Initial(content), actions);
    var s := Run(env, Initial(content), actions);
    forall i | 0 <= i < |s.log|
      ensures var e := s.log[i];
              && JobOk(env, e.job)
              && (|| e.replaced.content == (if e.kind.Commit? then e.job.base else e.job.text)
                  || (e.replaced.author.Outside? && e.since < e.replaced.at < e.at))
    {
      assert Justified(env, s.log[i]);
    }
  }

  lemma {:induction false} RunConcat(env: Env, s: State, a: seq<Action>, b: seq<Action>)
    ensures Run(env, s, a + b) == Run(env, Run(env, s, a), b)
    decreases |a|
  {
    if a == [] {
      assert a + b == b;
    } else {
      assert (a + b)[1..] == a[1..] + b;
      RunConcat(env, Step(env, s, a[0]), a[1..], b);
    }
  }

  lemma RunSnoc(env: Env, s: State, a: seq<Action>, x: Action)
    ensures Run(env, s, a + [x]) == Step(env, Run(env, s, a), x)
  {
    RunConcat(env, s, a, [x]);
    var t := Run(env, s, a);
    assert [x][1..] == [];
    assert Run(env, t, [x]) == Run(env, Step(env, t, x), []);
  }

  /** The state after the first `n` actions. */
  ghost function At(env: Env, content: string, actions: seq<Action>, n: nat): State
    requires n <= |actions|
  {
    Run(env, Initial(content), actions[..n])
  }

  lemma AtNext(env: Env, content: string, actions: seq<Action>, n: nat)
    requires n < |actions|
    ensures At(env, content, actions, n + 1) == Step(env, At(env, content, actions, n), actions[n])
  {
    assert actions[..n + 1] == actions[..n] + [actions[n]];
    RunSnoc(env, Initial(content), actions[..n], actions[n]);
  }

  /** Replaced by the next outside save. */
  ghost predicate SavedOver(env: Env, content: string, actions: seq<Action>, i: nat, v: Version) {
    exists j :: i < j < |actions| && actions[j].Save? && At(env, content, actions, j).file == v
  }

  /** Met by a rename: lost, if it landed in the window; else the bytes the commit was computed from. */
  predicate Met(e: Overwrite, v: Version) {
    e.replaced == v && (e.since < v.at < e.at || (e.kind.Commit? && e.job.base == v.content))
  }

  predicate MetBySome(log: seq<Overwrite>, v: Version) {
    exists n :: 0 <= n < |log| && Met(log[n], v)
  }

  /** One step takes an outside save out of the file only by another save, or by a rename that met it. */
  lemma StepFate(env: Env, s: State, a: Action, v: Version)
    requires Inv(env, s) && v.author.Outside?
    requires s.file == v || MetBySome(s.log, v)
    ensures var t := Step(env, s, a); t.file == v || (s.file == v && a.Save?) || MetBySome(t.log, v)
  {
    var t := Step(env, s, a);
    assert s.log <= t.log;
    if MetBySome(s.log, v) {
      var n :| 0 <= n < |s.log| && Met(s.log[n], v);
      assert Met(t.log[n], v);
    } else if t.file != v && !a.Save? {
      assert PhaseOk(env, s, PhaseOf(s, Actor(a)));
      assert Met(t.log[|s.log|], v);
    }
  }

  lemma {:induction false} SaveFateFrom(env: Env, content: string, actions: seq<Action>, i: nat, n: nat)
    requires i < n <= |actions| && actions[i].Save?
    ensures At(env, content, actions, n).now == n + 1 && Inv(env, At(env, content, actions, n))
    ensures var v, s := Version(actions[i].text, Outside, i + 1), At(env, content, actions, n);
            s.file == v || SavedOver(env, content, actions, i, v) || MetBySome(s.log, v)
    decreases n
  {
    var v := Version(actions[i].text, Outside, i + 1);
    InitialInv(env, content);
    RunKeepsInv(env, Initial(content), actions[..n]);
    NowCounts(env, content, actions, n);
    NowCounts(env, content, actions, n - 1);
    AtNext(env, content, actions, n - 1);
    if n > i + 1 {
      SaveFateFrom(env, content, actions, i, n - 1);
      if !SavedOver(env, content, actions, i, v) {
        StepFate(env, At(env, content, actions, n - 1), actions[n - 1], v);
      }
    }
  }

  lemma {:induction false} NowCounts(env: Env, content: string, actions: seq<Action>, n: nat)
    requires n <= |actions|
    ensures At(env, content, actions, n).now == n + 1
  {
    if n > 0 {
      NowCounts(env, content, actions, n - 1);
      AtNext(env, content, actions, n - 1);
    } else {
      assert actions[..0] == [];
    }
  }

  /**
   * The fate of every outside save of every run: it is still the file, or the next outside save
   * replaced it, or a rename met it - and then it landed in the rename's window and is lost, or
   * it is exactly what the commit that replaced it was computed from.
   */
  lemma SaveFates(env: Env, content: string, actions: seq<Action>, i: nat)
    requires i < |actions| && actions[i].Save?
    ensures var v, s := Version(actions[i].text, Outside, i + 1), Run(env, Initial(content), actions);
            s.file == v || SavedOver(env, content, actions, i, v) || MetBySome(s.log, v)
  {
    assert actions[..|actions|] == actions;
    SaveFateFrom(env, content, actions, i, |actions|);
  }

  // ----- Refusals -----

  /** The bytes a writer short of the guard goes by. */
  function BaseOf(p: Phase): Option<string> {
    match p
    case HasRead(_, base) => Some(base)
    case Computed(job) => Some(job.base)
    case Checked(job) => Some(job.base)
    case _ => None
  }

  /** The writer holds the lock and goes by bytes that are not the file's, or has given up. */
  ghost predicate Stale(s: State, w: nat, v: Version) {
    && s.file == v
    && (PhaseOf(s, w).Leaving? || (BaseOf(PhaseOf(s, w)).Some? && BaseOf(PhaseOf(s, w)).value != v.content))
  }

  lemma StaleStep(env: Env, s: State, w: nat, v: Version, a: Action)
    requires Inv(env, s) && Stale(s, w, v) && !a.Save?
    ensures var t := Step(env, s, a);
            t.log == s.log && t.file == v && (Stale(t, w, v) || PhaseOf(t, w).Idle?)
  {
    assert Critical(PhaseOf(s, w)) && s.lock == Some(w);
    if Actor(a) != w {
      assert Critical(PhaseOf(s, Actor(a))) <==> s.lock == Some(Actor(a));
    }
  }

  /**
   * A writer whose base is no longer the file's content - an outside save landed after it read -
   * gives up without touching the file: for as long as it holds the lock and nothing else is saved,
   * the file stays as it is, until the writer has let go.
   */
  lemma {:induction false} StaleWriterRefuses(env: Env, s: State, w: nat, v: Version, more: seq<Action>)
    requires Inv(env, s) && Stale(s, w, v) && NoSaves(more)
    ensures (Run(env, s, more).log == s.log && Run(env, s, more).file == v)
            || exists n :: 0 <= n <= |more| && Freed(Run(env, s, more[..n]), s, w)
    decreases |more|
  {
    if more != [] {
      var a, t := more[0], Step(env, s, more[0]);
      StaleStep(env, s, w, v, a);
      StepKeepsInv(env, s, a);
      if PhaseOf(t, w).Idle? {
        assert more[..1] == [a] && [a][1..] == [];
        assert Run(env, s, [a]) == Run(env, t, []);
        assert Freed(Run(env, s, more[..1]), s, w);
      } else {
        StaleWriterRefuses(env, t, w, v, more[1..]);
        if n :| 0 <= n <= |more[1..]| && Freed(Run(env, t, more[1..][..n]), t, w) {
          assert more[..n + 1][1..] == more[1..][..n];
          assert Freed(Run(env, s, more[..n + 1]), s, w);
        }
      }
    }
  }

  /** The writer has let go, and neither the file nor the log of renames changed. */
  predicate Freed(t: State, s: State, w: nat) {
    PhaseOf(t, w).Idle? && t.file == s.file && t.log == s.log
  }

  // ----- The windows are real -----

  /** In any state in which a writer is about to rename, a save that lands now is overwritten. */
  lemma SaveIsOverwritten(env: Env, s: State, w: nat, text: string)
    requires PhaseOf(s, w).BackedUp? || PhaseOf(s, w).ReloadFailed?
    ensures var a := if PhaseOf(s, w).BackedUp? then Rename(w) else Restore(w);
            var t := Run(env, s, [Save(text), a]);
            && t.file.content == (if PhaseOf(s, w).BackedUp? then PhaseOf(s, w).job.text else PhaseOf(s, w).job.base)
            && t.log != [] && t.log[|t.log| - 1].replaced == Version(text, Outside, s.now)
  {
    var a := if PhaseOf(s, w).BackedUp? then Rename(w) else Restore(w);
    var s1 := Step(env, s, Save(text));
    assert [Save(text), a][1..] == [a] && [a][1..] == [];
    assert Run(env, s, [Save(text), a]) == Run(env, s1, [a]);
    assert PhaseOf(s1, w) == PhaseOf(s, w);
    assert Run(env, s1, [a]) == Run(env, Step(env, s1, a), []) == Step(env, s1, a);
  }

  /** A writer goes from the start to its guard, its backup and its rename when nothing fails. */
  lemma ToBackedUp(env: Env, content: string, req: Request, today: nat) returns (actions: seq<Action>)
    requires env.compute(req, content, today).Some?
    ensures var s := Run(env, Initial(content), actions);
            PhaseOf(s, 0).BackedUp?
            && PhaseOf(s, 0).job == Job(req, today, content, env.compute(req, content, today).value)
  {
    var s0 := Initial(content);
    actions := [Begin(0, req)] + [Lock(0)] + [Read(0)] + [Compute(0, today)] + [CheckZone(0)] + [Guard(0)]
      + [BackUp(0, 0)];
    RunSnoc(env, s0, [], Begin(0, req));
    assert [] + [Begin(0, req)] == [Begin(0, req)];
    RunSnoc(env, s0, [Begin(0, req)], Lock(0));
    RunSnoc(env, s0, [Begin(0, req)] + [Lock(0)], Read(0));
    RunSnoc(env, s0, [Begin(0, req)] + [Lock(0)] + [Read(0)], Compute(0, today));
    RunSnoc(env, s0, [Begin(0, req)] + [Lock(0)] + [Read(0)] + [Compute(0, today)], CheckZone(0));
    RunSnoc(env, s0, [Begin(0, req)] + [Lock(0)] + [Read(0)] + [Compute(0, today)] + [CheckZone(0)], Guard(0));
    RunSnoc(env, s0, [Begin(0, req)] + [Lock(0)] + [Read(0)] + [Compute(0, today)] + [CheckZone(0)] + [Guard(0)],
            BackUp(0, 0));
  }

  /**
   * Both windows are real, for every content and request that is not refused: there is a run in
   * which a save lands between re-read and rename and is overwritten by the computed text, and
   * one in which a save lands after the rename and is overwritten by the restored bytes.
   */
  lemma WindowsAreReal(env: Env, content: string, req: Request, today: nat, text: string)
    returns (a: seq<Action>, b: seq<Action>)
    requires env.compute(req, content, today).Some?
    ensures var s := Run(env, Initial(content), a);
            && s.file.content == env.compute(req, content, today).value && s.log != []
            && s.log[|s.log| - 1].replaced.author.Outside? && s.log[|s.log| - 1].replaced.content == text
    ensures var s := Run(env, Initial(content), b);
            && s.file.content == content && s.log != []
            && s.log[|s.log| - 1].replaced.author.Outside? && s.log[|s.log| - 1].replaced.content == text
  {
    var s0 := Initial(content);
    var start := ToBackedUp(env, content, req, today);
    var ready := Run(env, s0, start);
    a := start + [Save(text), Rename(0)];
    RunConcat(env, s0, start, [Save(text), Rename(0)]);
    SaveIsOverwritten(env, ready, 0, text);
    var failed := start + [Rename(0)] + [Reload(0, false)];
    RunSnoc(env, s0, start, Rename(0));
    RunSnoc(env, s0, start + [Rename(0)], Reload(0, false));
    b := failed + [Save(text), Restore(0)];
    RunConcat(env, s0, failed, [Save(text), Restore(0)]);
    SaveIsOverwritten(env, Run(env, s0, failed), 0, text);
  }

  // ----- No outside editor -----

  ghost predicate NoSaves(actions: seq<Action>) {
    forall i :: 0 <= i < |actions| ==> !actions[i].Save?
  }

  /** Nothing was ever saved from outside: an outside version is the one the run began with. */
  ghost predicate Undisturbed(s: State) {
    && (s.file.author.Outside? ==> s.file.at == 0)
    && (forall i :: 0 <= i < |s.log| ==> (s.log[i].replaced.author.Outside? ==> s.log[i].replaced.at == 0))
  }

  lemma StepUndisturbed(env: Env, s: State, a: Action)
    requires Undisturbed(s) && !a.Save?
    ensures Undisturbed(Step(env, s, a))
  {
  }

  lemma {:induction false} RunUndisturbed(env: Env, s: State, actions: seq<Action>)
    requires Undisturbed(s) && NoSaves(actions)
    ensures Undisturbed(Run(env, s, actions))
    decreases |actions|
  {
    if actions != [] {
      StepUndisturbed(env, s, actions[0]);
      RunUndisturbed(env, Step(env, s, actions[0]), actions[1..]);
    }
  }

  /** Serializable writes: with no outside editor each commit is computed from exactly the bytes it replaces. */
  lemma CommitsSerializable(env: Env, content: string, actions: seq<Action>)
    requires NoSaves(actions)
    ensures var s := Run(env, Initial(content), actions);
            forall i :: 0 <= i < |s.log| ==>
              var e := s.log[i];
              if e.kind.Commit? then env.compute(e.job.req, e.replaced.content, e.job.today) == Some(e.job.text)
              else e.replaced.content == e.job.text
  {
    OutsideSavesSafe(env, content, actions);
    RunUndisturbed(env, Initial(content), actions);
    var s := Run(env, Initial(content), actions);
    forall i | 0 <= i < |s.log|
      ensures var e := s.log[i];
              if e.kind.Commit? then env.compute(e.job.req, e.replaced.content, e.job.today) == Some(e.job.text)
              else e.replaced.content == e.job.text
    {
      var e := s.log[i];
      assert JobOk(env, e.job);
    }
  }

  // ----- The file is the fold of the commits -----

  /** The changes whose commit was not undone, in order. */
  function Surviving(log: seq<Overwrite>): seq<Job> {
    if log == [] then []
    else
      var n := |log| - 1;
      var jobs := Surviving(log[..n]);
      if log[n].kind.Commit? then jobs + [log[n].job]
      else if jobs == [] then [] else jobs[..|jobs| - 1]
  }

  /** The content after a list of changes. */
  function Final(content: string, jobs: seq<Job>): string {
    if jobs == [] then content else jobs[|jobs| - 1].text
  }

  /** Each change was computed from what the ones before it left. */
  ghost predicate Composed(env: Env, content: string, jobs: seq<Job>) {
    forall i :: 0 <= i < |jobs| ==> JobOk(env, jobs[i]) && jobs[i].base == Final(content, jobs[..i])
  }

  lemma ComposedSnoc(env: Env, content: string, jobs: seq<Job>, job: Job)
    requires Composed(env, content, jobs) && JobOk(env, job) && job.base == Final(content, jobs)
    ensures Composed(env, content, jobs + [job]) && Final(content, jobs + [job]) == job.text
  {
    var all := jobs + [job];
    forall i | 0 <= i < |all| ensures JobOk(env, all[i]) && all[i].base == Final(content, all[..i]) {
      if i < |jobs| {
        assert all[..i] == jobs[..i];
      } else {
        assert all[..i] == jobs;
      }
    }
  }

  lemma ComposedFront(env: Env, content: string, jobs: seq<Job>)
    requires Composed(env, content, jobs) && jobs != []
    ensures var front := jobs[..|jobs| - 1];
            Composed(env, content, front) && Final(content, front) == jobs[|jobs| - 1].base
  {
    var n := |jobs| - 1;
    assert forall i :: 0 <= i < n ==> jobs[..n][..i] == jobs[..i];
  }

  /** A writer that has renamed, and has not let go, made the last entry of the log. */
  ghost predicate OwnsLast(s: State, p: Phase) {
    p.Renamed? || p.ReloadFailed? ==>
      s.log != [] && s.log[|s.log| - 1].kind.Commit? && s.log[|s.log| - 1].job == p.job
  }

  ghost predicate Folds(env: Env, content: string, s: State) {
    Composed(env, content, Surviving(s.log)) && s.file.content == Final(content, Surviving(s.log))
  }

  ghost predicate Folded(env: Env, content: string, s: State) {
    && Folds(env, content, s)
    && forall w: nat :: OwnsLast(s, PhaseOf(s, w))
  }

  lemma SurvivingSnoc(log: seq<Overwrite>, e: Overwrite)
    ensures Surviving(log + [e])
            == if e.kind.Commit? then Surviving(log) + [e.job]
               else if Surviving(log) == [] then [] else Surviving(log)[..|Surviving(log)| - 1]
  {
    assert (log + [e])[..|log|] == log;
  }

  lemma SurvivingLast(log: seq<Overwrite>)
    requires log != [] && log[|log| - 1].kind.Commit?
    ensures Surviving(log) != [] && Surviving(log)[|Surviving(log)| - 1] == log[|log| - 1].job
  {
  }

  lemma RenameFolds(env: Env, content: string, s: State, w: nat)
    requires Inv(env, s) && Undisturbed(s) && Folded(env, content, s) && PhaseOf(s, w).BackedUp?
    ensures Folds(env, content, Step(env, s, Rename(w)))
  {
    var job := PhaseOf(s, w).job;
    assert PhaseOk(env, s, PhaseOf(s, w));
    var t := Step(env, s, Rename(w));
    SurvivingSnoc(s.log, t.log[|s.log|]);
    ComposedSnoc(env, content, Surviving(s.log), job);
  }

  lemma RestoreFolds(env: Env, content: string, s: State, w: nat)
    requires Folded(env, content, s) && PhaseOf(s, w).ReloadFailed?
    ensures Folds(env, content, Step(env, s, Restore(w)))
  {
    assert OwnsLast(s, PhaseOf(s, w));
    var t := Step(env, s, Restore(w));
    SurvivingSnoc(s.log, t.log[|s.log|]);
    SurvivingLast(s.log);
    ComposedFront(env, content, Surviving(s.log));
  }

  lemma OthersOwnNothing(env: Env, s: State, w: nat, v: nat)
    requires Inv(env, s) && Critical(PhaseOf(s, w)) && v != w
    ensures !Critical(PhaseOf(s, v))
  {
    assert Critical(PhaseOf(s, w)) <==> s.lock == Some(w);
    assert Critical(PhaseOf(s, v)) <==> s.lock == Some(v);
  }

  lemma StepOwnsLast(env: Env, s: State, a: Action, v: nat)
    requires Inv(env, s) && (forall w: nat :: OwnsLast(s, PhaseOf(s, w))) && !a.Save?
    ensures OwnsLast(Step(env, s, a), PhaseOf(Step(env, s, a), v))
  {
    var w, t := Actor(a), Step(env, s, a);
    assert OwnsLast(s, PhaseOf(s, v)) && OwnsLast(s, PhaseOf(s, w));
    if v != w && t.log != s.log {
      OthersOwnNothing(env, s, w, v);
      assert PhaseOf(t, v) == PhaseOf(s, v);
    }
  }

  lemma OthersRenameNothing(env: Env, s: State, a: Action)
    requires !a.Save?
    requires !(a.Rename? && PhaseOf(s, a.w).BackedUp?) && !(a.Restore? && PhaseOf(s, a.w).ReloadFailed?)
    ensures Step(env, s, a).log == s.log && Step(env, s, a).file == s.file
  {
  }

  lemma StepOwnsAll(env: Env, s: State, a: Action)
    requires Inv(env, s) && (forall w: nat :: OwnsLast(s, PhaseOf(s, w))) && !a.Save?
    ensures forall v: nat :: OwnsLast(Step(env, s, a), PhaseOf(Step(env, s, a), v))
  {
    forall v: nat ensures OwnsLast(Step(env, s, a), PhaseOf(Step(env, s, a), v)) {
      StepOwnsLast(env, s, a, v);
    }
  }

  lemma StepFolds(env: Env, content: string, s: State, a: Action)
    requires Inv(env, s) && Undisturbed(s) && Folded(env, content, s) && !a.Save?
    ensures Folded(env, content, Step(env, s, a))
  {
    StepOwnsAll(env, s, a);
    if a.Rename? && PhaseOf(s, a.w).BackedUp? {
      RenameFolds(env, content, s, a.w);
    } else if a.Restore? && PhaseOf(s, a.w).ReloadFailed? {
      RestoreFolds(env, content, s, a.w);
    } else {
      OthersRenameNothing(env, s, a);
    }
  }

  lemma {:induction false} RunFolds(env: Env, content: string, s: State, actions: seq<Action>)
    requires Inv(env, s) && Undisturbed(s) && Folded(env, content, s) && NoSaves(actions)
    ensures Folded(env, content, Run(env, s, actions))
    decreases |actions|
  {
    if actions != [] {
      var t := Step(env, s, actions[0]);
      StepFolds(env, content, s, actions[0]);
      StepKeepsInv(env, s, actions[0]);
      StepUndisturbed(env, s, actions[0]);
      RunFolds(env, content, t, actions[1..]);
    }
  }

  /**
   * With no outside editor the file of every run is what its writers' changes make of the first
   * content one after the other, the undone ones left out: each was computed from what the one
   * before it left, whatever failed, crashed or waited in between.
   */
  lemma FileIsFold(env: Env, content: string, actions: seq<Action>)
    requires NoSaves(actions)
    ensures var s := Run(env, Initial(content), actions);
            Composed(env, content, Surviving(s.log)) && s.file.content == Final(content, Surviving(s.log))
  {
    InitialInv(env, content);
    RunFolds(env, content, Initial(content), actions);
  }

  // ----- Growth of a measure -----

  /**
   * A measure of contents that requests raise: `serial` is the measure, `tidy` the contents and
   * `covers` the requests it is promised for, `top` the value at which the promise ends.
   */
  datatype Measure = Measure(serial: string -> nat, tidy: string -> bool, covers: Request -> bool, day: nat -> bool,
                             top: nat)

  /** Every covered request raises the measure of tidy contents, below the top. */
  ghost predicate Raises(env: Env, m: Measure) {
    forall req, cur, today ::
      m.covers(req) && m.day(today) && m.tidy(cur) && m.serial(cur) < m.top && env.compute(req, cur, today).Some? ==>
        m.tidy(env.compute(req, cur, today).value) && m.serial(env.compute(req, cur, today).value) > m.serial(cur)
  }

  ghost predicate ActionOk(m: Measure, a: Action) {
    match a
    case Begin(_, req) => m.covers(req)
    case Compute(_, today) => m.day(today)
    case Save(_) => false
    case _ => true
  }

  /** The measure of the last commit whose reload succeeded. */
  ghost function Top(m: Measure, s: State): int {
    if s.committed == [] then -1 else m.serial(s.committed[|s.committed| - 1])
  }

  ghost predicate JobGrows(m: Measure, job: Job) {
    m.tidy(job.base) && m.tidy(job.text) && m.serial(job.text) > m.serial(job.base)
  }

  ghost predicate GrowthPhase(m: Measure, s: State, p: Phase) {
    match p
    case Waiting(req) => m.covers(req)
    case Holding(req) => m.covers(req)
    case HasRead(req, base) => m.covers(req) && base == s.file.content
    case Computed(job) => JobGrows(m, job) && job.base == s.file.content
    case Checked(job) => JobGrows(m, job) && job.base == s.file.content
    case Guarded(job, _) => JobGrows(m, job) && job.base == s.file.content
    case BackedUp(job, _) => JobGrows(m, job) && job.base == s.file.content
    case Renamed(job, _) => JobGrows(m, job) && job.text == s.file.content && Top(m, s) <= m.serial(job.base)
    case ReloadFailed(job, _) => JobGrows(m, job) && job.text == s.file.content && Top(m, s) <= m.serial(job.base)
    case _ => true
  }

  ghost predicate Growing(m: Measure, texts: seq<string>) {
    forall i, j :: 0 <= i < j < |texts| ==> m.serial(texts[i]) < m.serial(texts[j])
  }

  ghost predicate Growth(m: Measure, s: State) {
    && m.tidy(s.file.content)
    && Growing(m, s.committed)
    && Top(m, s) <= m.serial(s.file.content)
    && (forall w: nat :: GrowthPhase(m, s, PhaseOf(s, w)))
  }

  /** Every state on the way holds a file below the top. */
  ghost predicate BelowTheTop(env: Env, m: Measure, s: State, actions: seq<Action>)
    decreases |actions|
  {
    && m.serial(s.file.content) < m.top
    && (actions != [] ==> BelowTheTop(env, m, Step(env, s, actions[0]), actions[1..]))
  }

  lemma OthersGrow(env: Env, m: Measure, s: State, t: State, w: nat)
    requires Inv(env, s) && Growth(m, s)
    requires t.phase == s.phase[w := PhaseOf(t, w)] || t.phase == s.phase
    requires Critical(PhaseOf(s, w)) || (t.file == s.file && t.committed == s.committed)
    ensures forall v: nat :: v != w ==> GrowthPhase(m, t, PhaseOf(t, v))
  {
    forall v: nat | v != w ensures GrowthPhase(m, t, PhaseOf(t, v)) {
      assert PhaseOf(t, v) == PhaseOf(s, v) && GrowthPhase(m, s, PhaseOf(s, v));
      assert Critical(PhaseOf(s, v)) <==> s.lock == Some(v);
      assert Critical(PhaseOf(s, w)) <==> s.lock == Some(w);
    }
  }

  lemma ReloadGrows(env: Env, m: Measure, s: State, w: nat)
    requires Growth(m, s) && PhaseOf(s, w).Renamed?
    ensures var t := Step(env, s, Reload(w, true));
            Growing(m, t.committed) && Top(m, t) <= m.serial(t.file.content)
  {
    var t, job := Step(env, s, Reload(w, true)), PhaseOf(s, w).job;
    assert GrowthPhase(m, s, PhaseOf(s, w));
    forall i, j | 0 <= i < j < |t.committed| ensures m.serial(t.committed[i]) < m.serial(t.committed[j]) {
      if j == |s.committed| {
        assert m.serial(s.committed[i]) <= Top(m, s);
      }
    }
  }

  /** Only three steps touch the file or the commits, and each keeps them in order. */
  lemma FileGrows(env: Env, m: Measure, s: State, a: Action)
    requires Growth(m, s) && ActionOk(m, a)
    ensures var t := Step(env, s, a);
            m.tidy(t.file.content) && Growing(m, t.committed) && Top(m, t) <= m.serial(t.file.content)
  {
    var p := PhaseOf(s, Actor(a));
    assert GrowthPhase(m, s, p);
    if a.Reload? && p.Renamed? && a.ok {
      ReloadGrows(env, m, s, a.w);
    }
  }

  /** The acting writer's own part of the growth invariant. */
  lemma ActorGrows(env: Env, m: Measure, s: State, a: Action)
    requires Raises(env, m) && Growth(m, s) && ActionOk(m, a) && m.serial(s.file.content) < m.top
    ensures var t := Step(env, s, a); GrowthPhase(m, t, PhaseOf(t, Actor(a)))
  {
    var p := PhaseOf(s, Actor(a));
    assert GrowthPhase(m, s, p);
    if a.Compute? && p.HasRead? {
      assert env.compute(p.req, p.base, a.today).Some? ==>
          JobGrows(m, Job(p.req, a.today, p.base, env.compute(p.req, p.base, a.today).value));
    }
  }

  lemma StepGrows(env: Env, m: Measure, s: State, a: Action)
    requires Raises(env, m) && Inv(env, s) && Growth(m, s) && ActionOk(m, a) && m.serial(s.file.content) < m.top
    ensures Growth(m, Step(env, s, a))
  {
    PhaseMoves(env, s, a);
    OthersGrow(env, m, s, Step(env, s, a), Actor(a));
    FileGrows(env, m, s, a);
    ActorGrows(env, m, s, a);
  }

  lemma {:induction false} RunGrows(env: Env, m: Measure, s: State, actions: seq<Action>)
    requires Raises(env, m) && Inv(env, s) && Growth(m, s) && BelowTheTop(env, m, s, actions)
    requires forall i :: 0 <= i < |actions| ==> ActionOk(m, actions[i])
    ensures Growth(m, Run(env, s, actions))
    decreases |actions|
  {
    if actions != [] {
      StepKeepsInv(env, s, actions[0]);
      StepGrows(env, m, s, actions[0]);
      RunGrows(env, m, Step(env, s, actions[0]), actions[1..]);
    }
  }

  /**
   * With no outside editor, over every run of covered requests that stays below the top, the
   * commits that reloaded strictly rise, whatever steps failed, were undone or were cut short.
   */
  lemma CommitsRise(env: Env, m: Measure, content: string, actions: seq<Action>)
    requires Raises(env, m) && m.tidy(content)
    requires forall i :: 0 <= i < |actions| ==> ActionOk(m, actions[i])
    requires BelowTheTop(env, m, Initial(content), actions)
    ensures Growing(m, Run(env, Initial(content), actions).committed)
  {
    InitialInv(env, content);
    RunGrows(env, m, Initial(content), actions);
  }

  // ----- Backups -----

  /** Each new backup's name sorts after the ones already there. */
  ghost predicate StampsGrow(env: Env, s: State, actions: seq<Action>)
    decreases |actions|
  {
    actions != [] ==>
      && (actions[0].BackUp? ==> forall k :: k in s.backups ==> k < actions[0].stamp)
      && StampsGrow(env, Step(env, s, actions[0]), actions[1..])
  }

  ghost predicate BackupsHeld(s: State) {
    && (forall w: nat :: PhaseOf(s, w).BackedUp? ==> Saved(s, PhaseOf(s, w).job.base))
    && (forall i :: 0 <= i < |s.log| ==> (s.log[i].kind.Commit? ==> s.log[i].saved))
  }

  lemma StepHoldsBackups(env: Env, s: State, a: Action)
    requires env.keep > 0 && Inv(env, s) && BackupsHeld(s)
    requires a.BackUp? ==> forall k :: k in s.backups ==> k < a.stamp
    ensures BackupsHeld(Step(env, s, a))
  {
    var t := Step(env, s, a);
    if a.BackUp? && PhaseOf(s, a.w).Guarded? {
      var all := s.backups[a.stamp := PhaseOf(s, a.w).job.base];
      AddedNewestStays(s.backups.Keys, env.keep, a.stamp);
      assert all.Keys == s.backups.Keys + {a.stamp};
      assert a.stamp in t.backups && t.backups[a.stamp] == PhaseOf(s, a.w).job.base;
      forall w: nat | PhaseOf(t, w).BackedUp? ensures Saved(t, PhaseOf(t, w).job.base) {
        assert Critical(PhaseOf(s, a.w)) <==> s.lock == Some(a.w);
        assert Critical(PhaseOf(s, w)) <==> s.lock == Some(w);
      }
    } else {
      assert t.backups == s.backups;
      forall w: nat | PhaseOf(t, w).BackedUp? ensures Saved(t, PhaseOf(t, w).job.base) {
        assert PhaseOf(t, w) == PhaseOf(s, w);
        assert Saved(s, PhaseOf(s, w).job.base);
      }
    }
  }

  lemma {:induction false} RunHoldsBackups(env: Env, s: State, actions: seq<Action>)
    requires env.keep > 0 && Inv(env, s) && BackupsHeld(s) && StampsGrow(env, s, actions)
    ensures BackupsHeld(Run(env, s, actions))
    decreases |actions|
  {
    if actions != [] {
      StepKeepsInv(env, s, actions[0]);
      StepHoldsBackups(env, s, actions[0]);
      RunHoldsBackups(env, Step(env, s, actions[0]), actions[1..]);
    }
  }

  /** No commit without a restore point: in every run, at every rename the bytes it was based on are in a backup. */
  lemma CommitsBackedUp(env: Env, content: string, actions: seq<Action>)
    requires env.keep > 0 && StampsGrow(env, Initial(content), actions)
    ensures var s := Run(env, Initial(content), actions);
            forall i :: 0 <= i < |s.log| && s.log[i].kind.Commit? ==> s.log[i].saved
  {
    InitialInv(env, content);
    RunHoldsBackups(env, Initial(content), actions);
  }
}
