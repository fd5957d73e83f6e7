/** The write pipeline never gets stuck: what a writer left alone, or after a crash, can always do. */
module Progress {
  import opened Text
  import opened FileZone

  lemma RunCons(env: Env, s: State, a: Action, rest: seq<Action>)
    ensures Run(env, s, [a] + rest) == Run(env, Step(env, s, a), rest)
  {
    assert ([a] + rest)[1..] == rest;
  }

  /** Up to the point where the change is computed. */
  function Preparing(w: nat, req: Request, today: nat): seq<Action> {
    [Begin(w, req)] + ([Lock(w)] + ([Read(w)] + ([Compute(w, today)] + [])))
  }

  function Committing(w: nat, stamp: nat, ok: bool): seq<Action> {
    [CheckZone(w)] + ([Guard(w)] + ([BackUp(w, stamp)] + ([Rename(w)] + ([Reload(w, ok)] + []))))
  }

  function Finishing(w: nat): seq<Action> {
    [Unlock(w)] + []
  }

  function Undoing(w: nat): seq<Action> {
    [Restore(w)] + ([Unlock(w)] + [])
  }

  lemma Prepares(env: Env, s: State, w: nat, req: Request, today: nat)
    requires s.lock.None? && PhaseOf(s, w).Idle? && env.compute(req, s.file.content, today).Some?
    ensures var t := Run(env, s, Preparing(w, req, today));
            && t.file == s.file && t.committed == s.committed && t.lock == Some(w)
            && PhaseOf(t, w) == Computed(Job(req, today, s.file.content, env.compute(req, s.file.content, today).value))
  {
    var s1 := Step(env, s, Begin(w, req));
    var s2 := Step(env, s1, Lock(w));
    var s3 := Step(env, s2, Read(w));
    var s4 := Step(env, s3, Compute(w, today));
    RunCons(env, s3, Compute(w, today), []);
    RunCons(env, s2, Read(w), [Compute(w, today)] + []);
    RunCons(env, s1, Lock(w), [Read(w)] + ([Compute(w, today)] + []));
    RunCons(env, s, Begin(w, req), [Lock(w)] + ([Read(w)] + ([Compute(w, today)] + [])));
    assert Run(env, s4, []) == s4;
  }

  lemma Commits(env: Env, s: State, w: nat, job: Job, stamp: nat, ok: bool)
    requires PhaseOf(s, w) == Computed(job) && s.file.content == job.base
    ensures var t := Run(env, s, Committing(w, stamp, ok));
            && t.file.content == job.text && t.lock == s.lock
            && t.committed == (if ok then s.committed + [job.text] else s.committed)
            && (if ok then PhaseOf(t, w).Leaving? else PhaseOf(t, w).ReloadFailed? && PhaseOf(t, w).job == job)
  {
    var s1 := Step(env, s, CheckZone(w));
    var s2 := Step(env, s1, Guard(w));
    var s3 := Step(env, s2, BackUp(w, stamp));
    var s4 := Step(env, s3, Rename(w));
    var s5 := Step(env, s4, Reload(w, ok));
    RunCons(env, s4, Reload(w, ok), []);
    RunCons(env, s3, Rename(w), [Reload(w, ok)] + []);
    RunCons(env, s2, BackUp(w, stamp), [Rename(w)] + ([Reload(w, ok)] + []));
    RunCons(env, s1, Guard(w), [BackUp(w, stamp)] + ([Rename(w)] + ([Reload(w, ok)] + [])));
    RunCons(env, s, CheckZone(w), [Guard(w)] + ([BackUp(w, stamp)] + ([Rename(w)] + ([Reload(w, ok)] + []))));
    assert Run(env, s5, []) == s5;
  }

  lemma Finishes(env: Env, s: State, w: nat)
    requires PhaseOf(s, w).Leaving?
    ensures var t := Run(env, s, Finishing(w));
            t.file == s.file && t.committed == s.committed && t.lock.None? && PhaseOf(t, w).Idle?
  {
    var s1 := Step(env, s, Unlock(w));
    RunCons(env, s, Unlock(w), []);
    assert Run(env, s1, []) == s1;
  }

  lemma Undoes(env: Env, s: State, w: nat)
    requires PhaseOf(s, w).ReloadFailed?
    ensures var t := Run(env, s, Undoing(w));
            && t.file.content == PhaseOf(s, w).job.base && t.committed == s.committed
            && t.lock.None? && PhaseOf(t, w).Idle?
  {
    var s1 := Step(env, s, Restore(w));
    var s2 := Step(env, s1, Unlock(w));
    RunCons(env, s1, Unlock(w), []);
    RunCons(env, s, Restore(w), [Unlock(w)] + []);
    assert Run(env, s2, []) == s2;
  }

  lemma {:induction false} RunConcat(env: Env, s: State, a: seq<Action>, b: seq<Action>)
    ensures Run(env, s, a + b) == Run(env, Run(env, s, a), b)
    decreases |a|
  {
    if a == [] {
      assert a + b == b;
    } else {
      assert (a + b)[1..] == a[1..] + b;
      RunConcat(env, Step(env, s, a[0]), a[1..], b);
    }
  }

  /**
   * With the lock free, any idle writer left alone brings any request that is not refused through:
   * when the reload succeeds the file is what was computed from it, when it fails the file is as it
   * was; and the lock is free again.
   */
  lemma AloneGoesThrough(env: Env, s: State, w: nat, req: Request, today: nat, stamp: nat, ok: bool)
    requires s.lock.None? && PhaseOf(s, w).Idle? && env.compute(req, s.file.content, today).Some?
    ensures var turn := Preparing(w, req, today) + Committing(w, stamp, ok) + if ok then Finishing(w) else Undoing(w);
            var t, text := Run(env, s, turn), env.compute(req, s.file.content, today).value;
            && t.file.content == (if ok then text else s.file.content)
            && t.committed == (if ok then s.committed + [text] else s.committed)
            && t.lock.None? && PhaseOf(t, w).Idle?
  {
    var text := env.compute(req, s.file.content, today).value;
    var a, b := Preparing(w, req, today), Committing(w, stamp, ok);
    Prepares(env, s, w, req, today);
    Commits(env, Run(env, s, a), w, Job(req, today, s.file.content, text), stamp, ok);
    RunConcat(env, s, a, b);
    if ok {
      RunConcat(env, s, a + b, Finishing(w));
      Finishes(env, Run(env, s, a + b), w);
    } else {
      RunConcat(env, s, a + b, Undoing(w));
      Undoes(env, Run(env, s, a + b), w);
    }
  }

  /** In every reachable state a crash of the writer that holds the lock frees it, and leaves the file alone. */
  lemma CrashFrees(env: Env, content: string, actions: seq<Action>)
    ensures var s := Run(env, Initial(content), actions);
            s.lock.Some? ==>
              var t := Step(env, s, Crash(s.lock.value));
              t.lock.None? && t.file == s.file && forall w: nat :: !Critical(PhaseOf(t, w))
  {
    InitialInv(env, content);
    RunKeepsInv(env, Initial(content), actions);
    var s := Run(env, Initial(content), actions);
    if s.lock.Some? {
      StepKeepsInv(env, s, Crash(s.lock.value));
    }
  }

  // ----- Every rename is settled -----

  /** Nothing is cut short between rename and reload, or in a restore: no crash, and no failing restore. */
  ghost predicate Uncut(env: Env, s: State, actions: seq<Action>)
    decreases |actions|
  {
    actions != [] ==>
      && !actions[0].Crash? && (actions[0].Abort? ==> !PhaseOf(s, actions[0].w).ReloadFailed?)
      && Uncut(env, Step(env, s, actions[0]), actions[1..])
  }

  function TextsOf(jobs: seq<Job>): (r: seq<string>)
    ensures |r| == |jobs| && forall i :: 0 <= i < |r| ==> r[i] == jobs[i].text
  {
    seq(|jobs|, i requires 0 <= i < |jobs| => jobs[i].text)
  }

  predicate Unsettled(p: Phase) {
    p.Renamed? || p.ReloadFailed?
  }

  /** The text in place whose reload, or restore, is still to come. */
  function Pending(s: State): seq<string> {
    if s.lock.Some? && Unsettled(PhaseOf(s, s.lock.value)) then [PhaseOf(s, s.lock.value).job.text] else []
  }

  ghost predicate Settled(s: State) {
    && TextsOf(Surviving(s.log)) == s.committed + Pending(s)
    && forall w: nat :: OwnsLast(s, PhaseOf(s, w))
  }

  lemma SettledRename(env: Env, s: State, w: nat)
    requires Inv(env, s) && Settled(s) && PhaseOf(s, w).BackedUp?
    ensures var t := Step(env, s, Rename(w)); TextsOf(Surviving(t.log)) == t.committed + Pending(t)
  {
    assert Critical(PhaseOf(s, w)) <==> s.lock == Some(w);
    var t := Step(env, s, Rename(w));
    SurvivingSnoc(s.log, t.log[|s.log|]);
    assert Pending(s) == [] && Pending(t) == [PhaseOf(s, w).job.text];
  }

  lemma SettledRestore(env: Env, s: State, w: nat)
    requires Inv(env, s) && Settled(s) && PhaseOf(s, w).ReloadFailed?
    ensures var t := Step(env, s, Restore(w)); TextsOf(Surviving(t.log)) == t.committed + Pending(t)
  {
    assert Critical(PhaseOf(s, w)) <==> s.lock == Some(w);
    assert OwnsLast(s, PhaseOf(s, w));
    var t := Step(env, s, Restore(w));
    SurvivingSnoc(s.log, t.log[|s.log|]);
    assert Pending(t) == [];
    var texts := TextsOf(Surviving(s.log));
    assert texts[..|texts| - 1] == s.committed;
  }

  lemma SettledReload(env: Env, s: State, w: nat, ok: bool)
    requires Inv(env, s) && Settled(s) && PhaseOf(s, w).Renamed?
    ensures var t := Step(env, s, Reload(w, ok)); TextsOf(Surviving(t.log)) == t.committed + Pending(t)
  {
    assert Critical(PhaseOf(s, w)) <==> s.lock == Some(w);
  }

  lemma SettledElse(env: Env, s: State, a: Action)
    requires Inv(env, s) && Settled(s) && !a.Crash? && !a.Save?
    requires !(a.Rename? && PhaseOf(s, a.w).BackedUp?) && !(a.Restore? && PhaseOf(s, a.w).ReloadFailed?)
    requires !(a.Reload? && PhaseOf(s, a.w).Renamed?) && !(a.Abort? && PhaseOf(s, a.w).ReloadFailed?)
    ensures var t := Step(env, s, a); t.log == s.log && t.committed == s.committed && Pending(t) == Pending(s)
  {
    OthersRenameNothing(env, s, a);
    assert Critical(PhaseOf(s, a.w)) <==> s.lock == Some(a.w);
    if s.lock.Some? {
      assert Critical(PhaseOf(s, s.lock.value));
    }
  }

  lemma SaveOwnsLast(env: Env, s: State, text: string)
    requires Settled(s)
    ensures Settled(Step(env, s, Save(text)))
  {
    var t := Step(env, s, Save(text));
    forall w: nat ensures OwnsLast(t, PhaseOf(t, w)) {
      assert OwnsLast(s, PhaseOf(s, w));
    }
  }

  lemma StepSettled(env: Env, s: State, a: Action)
    requires Inv(env, s) && Settled(s) && !a.Crash? && (a.Abort? ==> !PhaseOf(s, a.w).ReloadFailed?)
    ensures Settled(Step(env, s, a))
  {
    if a.Save? {
      SaveOwnsLast(env, s, a.text);
    } else {
      StepOwnsAll(env, s, a);
      if a.Rename? && PhaseOf(s, a.w).BackedUp? {
        SettledRename(env, s, a.w);
      } else if a.Restore? && PhaseOf(s, a.w).ReloadFailed? {
        SettledRestore(env, s, a.w);
      } else if a.Reload? && PhaseOf(s, a.w).Renamed? {
        SettledReload(env, s, a.w, a.ok);
      } else {
        SettledElse(env, s, a);
      }
    }
  }

  lemma {:induction false} RunSettled(env: Env, s: State, actions: seq<Action>)
    requires Inv(env, s) && Settled(s) && Uncut(env, s, actions)
    ensures Settled(Run(env, s, actions))
    decreases |actions|
  {
    if actions != [] {
      StepKeepsInv(env, s, actions[0]);
      StepSettled(env, s, actions[0]);
      RunSettled(env, Step(env, s, actions[0]), actions[1..]);
    }
  }

  /**
   * In every run that no crash and no failing restore cuts short, outside saves or not, what was
   * renamed in and not undone is exactly what reloaded, but for the rename of a writer that is still
   * at work: no writer leaves a change in place that failed to reload.
   */
  lemma RenamesAreSettled(env: Env, content: string, actions: seq<Action>)
    requires Uncut(env, Initial(content), actions)
    ensures var s := Run(env, Initial(content), actions);
            && TextsOf(Surviving(s.log)) == s.committed + Pending(s)
            && (s.lock.None? ==> TextsOf(Surviving(s.log)) == s.committed)
  {
    InitialInv(env, content);
    assert TextsOf(Surviving([])) == [];
    RunSettled(env, Initial(content), actions);
  }
}
