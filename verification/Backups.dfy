/** The backups that the write pipeline leaves behind: over every run, the newest of all it has taken. */
module Backups {
  import opened Retention
  import opened FileZone

  /** One backup as it is taken: its stamp, the bytes written to it, and what the file was then. */
  datatype Backup = Backup(stamp: nat, bytes: string, file: string)

  /** The backup an action takes: one at most. */
  function TakenNow(s: State, a: Action): seq<Backup> {
    if a.BackUp? && PhaseOf(s, a.w).Guarded?
    then [Backup(a.stamp, PhaseOf(s, a.w).job.base, s.file.content)] else []
  }

  /** Every backup taken along a run, in order. */
  ghost function Taken(env: Env, s: State, actions: seq<Action>): seq<Backup>
    decreases |actions|
  {
    if actions == [] then [] else TakenNow(s, actions[0]) + Taken(env, Step(env, s, actions[0]), actions[1..])
  }

  /** What a directory holds in which files were written in this order; a file written again is replaced. */
  function Written(taken: seq<Backup>): map<nat, string> {
    if taken == [] then map[]
    else Written(taken[..|taken| - 1])[taken[|taken| - 1].stamp := taken[|taken| - 1].bytes]
  }

  lemma WrittenSnoc(taken: seq<Backup>, b: Backup)
    ensures Written(taken + [b]) == Written(taken)[b.stamp := b.bytes]
  {
    assert (taken + [b])[..|taken|] == taken;
  }

  /** Pruning after an addition, to an already pruned set, prunes the full set, whatever is added. */
  lemma PruneAny(s: set<nat>, keep: nat, x: nat)
    ensures Newest(Newest(s, keep) + {x}, keep) == Newest(s + {x}, keep)
  {
    var kept := Newest(s, keep);
    forall k ensures k in Newest(kept + {x}, keep) <==> k in Newest(s + {x}, keep) {
      assert Above(kept + {x}, k) <= Above(s + {x}, k);
      assert Above(s, k) <= Above(s + {x}, k);
      SubsetSize(Above(kept + {x}, k), Above(s + {x}, k));
      SubsetSize(Above(s, k), Above(s + {x}, k));
      if k in Newest(kept + {x}, keep) {
        NothingMissed(s, keep, x, k);
      }
    }
  }

  lemma NothingMissed(s: set<nat>, keep: nat, x: nat, k: nat)
    requires k in Newest(Newest(s, keep) + {x}, keep)
    ensures Above(Newest(s, keep) + {x}, k) == Above(s + {x}, k)
  {
    var kept := Newest(s, keep);
    forall j | j in s && j > k ensures j in kept {
      if j !in kept {
        forall a | a in kept ensures a in Above(kept + {x}, k) {
          NewestOrder(s, keep, a, j);
        }
        SubsetSize(kept, Above(kept + {x}, k));
        NewestSize(s, keep);
        SubsetSize(Above(s, j), s);
      }
    }
  }

  /** The pruned directory, after one more backup and one more pruning. */
  lemma PruneEntries(m: map<nat, string>, keep: nat, b: Backup)
    ensures NewestEntries(NewestEntries(m, keep)[b.stamp := b.bytes], keep)
            == NewestEntries(m[b.stamp := b.bytes], keep)
  {
    PruneAny(m.Keys, keep, b.stamp);
    assert NewestEntries(m, keep)[b.stamp := b.bytes].Keys == Newest(m.Keys, keep) + {b.stamp};
    assert m[b.stamp := b.bytes].Keys == m.Keys + {b.stamp};
  }

  lemma StepPrunes(env: Env, s: State, a: Action, before: seq<Backup>)
    requires s.backups == NewestEntries(Written(before), env.keep)
    ensures Step(env, s, a).backups == NewestEntries(Written(before + TakenNow(s, a)), env.keep)
  {
    if TakenNow(s, a) == [] {
      assert before + [] == before;
    } else {
      WrittenSnoc(before, TakenNow(s, a)[0]);
      PruneEntries(Written(before), env.keep, TakenNow(s, a)[0]);
    }
  }

  lemma {:induction false} RunPrunes(env: Env, s: State, actions: seq<Action>, before: seq<Backup>)
    requires s.backups == NewestEntries(Written(before), env.keep)
    ensures Run(env, s, actions).backups == NewestEntries(Written(before + Taken(env, s, actions)), env.keep)
    decreases |actions|
  {
    if actions == [] {
      assert before + [] == before;
    } else {
      var a := actions[0];
      StepPrunes(env, s, a, before);
      RunPrunes(env, Step(env, s, a), actions[1..], before + TakenNow(s, a));
      Regroup(before, TakenNow(s, a), Taken(env, Step(env, s, a), actions[1..]));
    }
  }

  lemma Regroup(a: seq<Backup>, b: seq<Backup>, c: seq<Backup>)
    ensures a + b + c == a + (b + c)
  {
  }

  /**
   * In every run the directory holds the newest `keep` of all backups taken in it, or all of them
   * while there are fewer: each with the bytes it was taken from, and none of those that went is
   * newer than one that stayed, whatever the clock did.
   */
  lemma NewestBackupsStay(env: Env, content: string, actions: seq<Action>)
    ensures var held := Run(env, Initial(content), actions).backups;
            var all := Written(Taken(env, Initial(content), actions));
            && (forall k :: k in held ==> k in all && held[k] == all[k])
            && |held| == (if |all| < env.keep then |all| else env.keep)
            && (forall a, b :: a in held && b in all && b !in held ==> a > b)
  {
    assert Written([]) == map[];
    var taken := Taken(env, Initial(content), actions);
    assert [] + taken == taken;
    RunPrunes(env, Initial(content), actions, []);
    var all := Written(taken);
    NewestSize(all.Keys, env.keep);
    forall a, b | a in Newest(all.Keys, env.keep) && b in all && b !in Newest(all.Keys, env.keep) ensures a > b {
      NewestOrder(all.Keys, env.keep, a, b);
    }
    assert |all| == |all.Keys|;
    var held := NewestEntries(all, env.keep);
    assert |held| == |held.Keys|;
  }

  // ----- With a clock that moves on -----

  predicate Increasing(taken: seq<Backup>) {
    forall i, j :: 0 <= i < j < |taken| ==> taken[i].stamp < taken[j].stamp
  }

  /** The last `keep` of the backups taken are there, with their bytes, and no other. */
  ghost predicate LastOnes(held: map<nat, string>, taken: seq<Backup>, keep: nat) {
    && (forall i :: 0 <= i < |taken| ==> (taken[i].stamp in held <==> i + keep >= |taken|))
    && (forall i :: 0 <= i < |taken| && taken[i].stamp in held ==> held[taken[i].stamp] == taken[i].bytes)
    && (forall k :: k in held ==> exists i :: 0 <= i < |taken| && taken[i].stamp == k)
  }

  lemma {:induction false} WrittenAt(taken: seq<Backup>, i: nat)
    requires Increasing(taken) && i < |taken|
    ensures taken[i].stamp in Written(taken) && Written(taken)[taken[i].stamp] == taken[i].bytes
  {
    var n := |taken| - 1;
    if i < n {
      WrittenAt(taken[..n], i);
    }
  }

  lemma {:induction false} WrittenFrom(taken: seq<Backup>, k: nat) returns (i: nat)
    requires k in Written(taken)
    ensures i < |taken| && taken[i].stamp == k
  {
    var n := |taken| - 1;
    if taken[n].stamp == k {
      i := n;
    } else {
      i := WrittenFrom(taken[..n], k);
    }
  }

  /** Above one stamp are the next one and those above it. */
  lemma AboveNext(taken: seq<Backup>, i: nat, k: nat)
    requires Increasing(taken) && i + 1 < |taken|
    ensures k in Above(Written(taken).Keys, taken[i].stamp)
            <==> k == taken[i + 1].stamp || k in Above(Written(taken).Keys, taken[i + 1].stamp)
  {
    WrittenAt(taken, i + 1);
    if k in Written(taken) {
      var j := WrittenFrom(taken, k);
      assert j > i + 1 || j == i + 1 || j <= i;
    }
  }

  lemma NoneAboveLast(taken: seq<Backup>)
    requires Increasing(taken) && taken != []
    ensures Above(Written(taken).Keys, taken[|taken| - 1].stamp) == {}
  {
    forall k | k in Written(taken) ensures k <= taken[|taken| - 1].stamp {
      var j := WrittenFrom(taken, k);
    }
  }

  lemma OneMore(a: set<nat>, b: set<nat>, x: nat)
    requires x !in b && forall k :: k in a <==> k == x || k in b
    ensures |a| == |b| + 1
  {
    assert a == b + {x};
  }

  lemma AboveSize(taken: seq<Backup>, i: nat)
    requires Increasing(taken) && i < |taken|
    ensures |Above(Written(taken).Keys, taken[i].stamp)| == |taken| - 1 - i
    decreases |taken| - i
  {
    var s := Written(taken).Keys;
    if i == |taken| - 1 {
      NoneAboveLast(taken);
    } else {
      AboveSize(taken, i + 1);
      forall k: nat ensures k in Above(s, taken[i].stamp)
                       <==> k == taken[i + 1].stamp || k in Above(s, taken[i + 1].stamp) {
        AboveNext(taken, i, k);
      }
      OneMore(Above(s, taken[i].stamp), Above(s, taken[i + 1].stamp), taken[i + 1].stamp);
    }
  }

  lemma NewestAreLast(taken: seq<Backup>, keep: nat)
    requires Increasing(taken)
    ensures LastOnes(NewestEntries(Written(taken), keep), taken, keep)
  {
    var held := NewestEntries(Written(taken), keep);
    forall i | 0 <= i < |taken|
      ensures taken[i].stamp in held <==> i + keep >= |taken|
      ensures taken[i].stamp in held ==> held[taken[i].stamp] == taken[i].bytes
    {
      AboveSize(taken, i);
      WrittenAt(taken, i);
    }
    forall k | k in held ensures exists i :: 0 <= i < |taken| && taken[i].stamp == k {
      var i := WrittenFrom(taken, k);
    }
  }

  lemma IncreasingSnoc(taken: seq<Backup>, b: Backup, keep: nat)
    requires Increasing(taken) && keep > 0
    requires forall k :: k in NewestEntries(Written(taken), keep) ==> k < b.stamp
    ensures Increasing(taken + [b])
  {
    if taken != [] {
      NewestAreLast(taken, keep);
      var last := taken[|taken| - 1];
      assert last.stamp in NewestEntries(Written(taken), keep);
    }
  }

  lemma StepIncreases(env: Env, s: State, a: Action, before: seq<Backup>)
    requires env.keep > 0 && s.backups == NewestEntries(Written(before), env.keep) && Increasing(before)
    requires a.BackUp? ==> forall k :: k in s.backups ==> k < a.stamp
    ensures Increasing(before + TakenNow(s, a))
  {
    if TakenNow(s, a) == [] {
      assert before + [] == before;
    } else {
      IncreasingSnoc(before, TakenNow(s, a)[0], env.keep);
    }
  }

  lemma {:induction false} RunIncreases(env: Env, s: State, actions: seq<Action>, before: seq<Backup>)
    requires env.keep > 0 && s.backups == NewestEntries(Written(before), env.keep)
    requires Increasing(before) && StampsGrow(env, s, actions)
    ensures Increasing(before + Taken(env, s, actions))
    decreases |actions|
  {
    if actions == [] {
      assert before + [] == before;
    } else {
      var a := actions[0];
      StepPrunes(env, s, a, before);
      StepIncreases(env, s, a, before);
      RunIncreases(env, Step(env, s, a), actions[1..], before + TakenNow(s, a));
      Regroup(before, TakenNow(s, a), Taken(env, Step(env, s, a), actions[1..]));
    }
  }

  /** With growing stamps: the directory holds exactly the last `keep` backups taken in the run. */
  lemma LastBackupsStay(env: Env, content: string, actions: seq<Action>)
    requires env.keep > 0 && StampsGrow(env, Initial(content), actions)
    ensures LastOnes(Run(env, Initial(content), actions).backups, Taken(env, Initial(content), actions), env.keep)
  {
    var taken := Taken(env, Initial(content), actions);
    assert [] + taken == taken && Written([]) == map[];
    RunPrunes(env, Initial(content), actions, []);
    RunIncreases(env, Initial(content), actions, []);
    NewestAreLast(taken, env.keep);
  }

  // ----- What is in a backup -----

  lemma {:induction false} RunTakesFile(env: Env, s: State, actions: seq<Action>, i: nat)
    requires Inv(env, s) && Undisturbed(s) && NoSaves(actions) && i < |Taken(env, s, actions)|
    ensures Taken(env, s, actions)[i].bytes == Taken(env, s, actions)[i].file
    decreases |actions|
  {
    var a := actions[0];
    StepKeepsInv(env, s, a);
    StepUndisturbed(env, s, a);
    if TakenNow(s, a) == [] {
      RunTakesFile(env, Step(env, s, a), actions[1..], i);
    } else {
      assert PhaseOk(env, s, PhaseOf(s, a.w));
      if i > 0 {
        RunTakesFile(env, Step(env, s, a), actions[1..], i - 1);
      }
    }
  }

  /** Without an outside editor each backup is the file as it was when the backup was taken. */
  lemma BackupsAreTheFile(env: Env, content: string, actions: seq<Action>, i: nat)
    requires NoSaves(actions) && i < |Taken(env, Initial(content), actions)|
    ensures var taken := Taken(env, Initial(content), actions); taken[i].bytes == taken[i].file
  {
    InitialInv(env, content);
    RunTakesFile(env, Initial(content), actions, i);
  }

  lemma {:induction false} StampsGrowPrefix(env: Env, s: State, a: seq<Action>, b: seq<Action>)
    requires StampsGrow(env, s, a + b)
    ensures StampsGrow(env, s, a)
    decreases |a|
  {
    if a != [] {
      assert (a + b)[0] == a[0] && (a + b)[1..] == a[1..] + b;
      StampsGrowPrefix(env, Step(env, s, a[0]), a[1..], b);
    }
  }

  /** At every point of a run with growing stamps, a writer about to rename has its base in a backup. */
  lemma RenamesAreSaved(env: Env, content: string, before: seq<Action>, after: seq<Action>, w: nat)
    requires env.keep > 0 && StampsGrow(env, Initial(content), before + after)
    ensures var s := Run(env, Initial(content), before);
            PhaseOf(s, w).BackedUp? ==> exists k :: k in s.backups && s.backups[k] == PhaseOf(s, w).job.base
  {
    InitialInv(env, content);
    StampsGrowPrefix(env, Initial(content), before, after);
    RunHoldsBackups(env, Initial(content), before);
    var s := Run(env, Initial(content), before);
    if PhaseOf(s, w).BackedUp? {
      assert Saved(s, PhaseOf(s, w).job.base);
    }
  }
}
