/**
 * Dead rows and what brings them back (fail, revive and the endpoints' guard): a permanent
 * failure lasts exactly until a revival commits, and exactly when a revival that looked
 * first undoes one.
 */
module Revival {
  import opened WorkQueue
  import opened QueueRuns
  import opened QueueSafety

  predicate PermanentlyDead(row: WorkRow) {
    row.state.Dead? && row.isPermanent
  }

  predicate Revives(step: Step, id: nat) {
    step.Revive? && step.id == id
  }

  /** The step by which a worker fails the row for good. */
  predicate FailsForGood(s: Sys, step: Step, id: nat) {
    step.Fail? && step.failure.permanent && step.worker in s.held && s.held[step.worker].lease.id == id
  }

  predicate HasDead(s: Sys, id: nat) {
    id in s.db.work && s.db.work[id].state.Dead?
  }

  predicate HasPermanentlyDead(s: Sys, id: nat) {
    id in s.db.work && PermanentlyDead(s.db.work[id])
  }

  // ---- One step -------------------------------------------------------------------------

  /** Within the leases nobody holds a dead row. */
  lemma NobodyHoldsADeadRow(s: Sys, step: Step, id: nat)
    requires LeaseSafe(s) && Enabled(s, step) && Disciplined(s, step) && Acts(step) && HasDead(s, id)
    ensures s.held[step.worker].lease.id != id
  {}

  /** Only a revival brings a dead row back, and until then it stays as it failed. */
  lemma StepRevivesIff(s: Sys, step: Step, id: nat)
    requires Inv(s) && LeaseSafe(s) && Enabled(s, step) && Disciplined(s, step)
    requires HasDead(s, id) && id in Apply(s, step).db.work
    ensures var row := Apply(s, step).db.work[id];
            && (row.state.Dead? <==> !Revives(step, id))
            && (row.state.Dead? ==> row.isPermanent == s.db.work[id].isPermanent)
  {
    if Acts(step) {
      NobodyHoldsADeadRow(s, step, id);
    }
  }

  /** A permanent failure is undone by the revival of its row and by no other step. */
  lemma StepRevivesPermanentIff(s: Sys, step: Step, id: nat)
    requires Inv(s) && LeaseSafe(s) && Enabled(s, step) && Disciplined(s, step)
    requires HasPermanentlyDead(s, id) && id in Apply(s, step).db.work
    ensures HasPermanentlyDead(Apply(s, step), id) <==> !Revives(step, id)
  {
    StepRevivesIff(s, step, id);
  }

  /** A row becomes a permanent failure only when a worker that holds it fails it for good. */
  lemma StepKillsForGoodOnlyByFail(s: Sys, step: Step, id: nat)
    requires Inv(s) && LeaseSafe(s) && Enabled(s, step) && Disciplined(s, step)
    requires !HasPermanentlyDead(s, id) && HasPermanentlyDead(Apply(s, step), id)
    ensures FailsForGood(s, step, id) && id in s.db.work && s.db.work[id].state.Leased?
  {}

  // ---- Whole runs -------------------------------------------------------------------------

  predicate NotRevived(steps: seq<Step>, n: nat, m: nat, id: nat)
    requires n <= m <= |steps|
  {
    forall k :: n <= k < m ==> !Revives(steps[k], id)
  }

  lemma {:induction false} NeverBack(states: seq<Sys>, steps: seq<Step>, n: nat, m: nat, id: nat)
    requires DisciplinedRun(states, steps) && n <= m < |states| && id < states[n].db.nextWork
             && id !in states[n].db.work
    ensures id !in states[m].db.work && id < states[m].db.nextWork
  {
    if n < m {
      NeverBack(states, steps, n, m - 1, id);
      RunsKeepInv(states, steps, m - 1);
      assert Taken(states, steps, m - 1);
      StepNeverReusesIds(states[m - 1], steps[m - 1], id);
    }
  }

  lemma {:induction false} ThereAllAlong(states: seq<Sys>, steps: seq<Step>, n: nat, m: nat, id: nat)
    requires DisciplinedRun(states, steps) && n <= m < |states| && id < states[n].db.nextWork && id in states[m].db.work
    ensures id in states[n].db.work
    decreases m
  {
    RunsKeepInv(states, steps, n);
    if id !in states[n].db.work {
      NeverBack(states, steps, n, m, id);
    }
  }

  lemma {:induction false} IdsOnlyGrow(states: seq<Sys>, steps: seq<Step>, n: nat, m: nat)
    requires DisciplinedRun(states, steps) && n <= m < |states|
    ensures states[n].db.nextWork <= states[m].db.nextWork
  {
    if n < m {
      IdsOnlyGrow(states, steps, n, m - 1);
      RunsKeepInv(states, steps, m - 1);
      assert Taken(states, steps, m - 1);
      if !steps[m - 1].Ask? {
        EveryStepButAskShrinks(states[m - 1], steps[m - 1]);
      }
    }
  }

  /** A row that is there later was there before, once its id is known. */
  lemma StillThere(states: seq<Sys>, steps: seq<Step>, n: nat, k: nat, m: nat, id: nat)
    requires DisciplinedRun(states, steps) && n <= k <= m < |states|
    requires id in states[n].db.work && id in states[m].db.work
    ensures id in states[k].db.work
  {
    RunsKeepInv(states, steps, n);
    IdsOnlyGrow(states, steps, n, k);
    ThereAllAlong(states, steps, k, m, id);
  }

  /** A dead row that nobody revives stays dead, in the same way, for as long as it is there. */
  lemma {:induction false} DeadUntilRevived(states: seq<Sys>, steps: seq<Step>, n: nat, m: nat, id: nat)
    requires DisciplinedRun(states, steps) && n <= m < |states|
    requires HasDead(states[n], id) && id in states[m].db.work && NotRevived(steps, n, m, id)
    ensures states[m].db.work[id].state.Dead? && states[m].db.work[id].isPermanent == states[n].db.work[id].isPermanent
  {
    if n < m {
      StillThere(states, steps, n, m - 1, m, id);
      DeadUntilRevived(states, steps, n, m - 1, id);
      DisciplinedRunsExclude(states, steps, m - 1);
      assert Taken(states, steps, m - 1) && Disciplined(states[m - 1], steps[m - 1]);
      StepRevivesIff(states[m - 1], steps[m - 1], id);
    }
  }

  /**
   * In every run of workers that act within their leases, a permanent failure is one in
   * every state up to `m` exactly when no revival of its row commits before.
   */
  lemma PermanentUntilRevivedIff(states: seq<Sys>, steps: seq<Step>, n: nat, m: nat, id: nat)
    requires DisciplinedRun(states, steps) && n <= m < |states|
    requires HasPermanentlyDead(states[n], id) && id in states[m].db.work
    ensures (forall k :: n <= k <= m ==> HasPermanentlyDead(states[k], id)) <==> NotRevived(steps, n, m, id)
  {
    if NotRevived(steps, n, m, id) {
      forall k | n <= k <= m
        ensures HasPermanentlyDead(states[k], id)
      {
        StillThere(states, steps, n, k, m, id);
        DeadUntilRevived(states, steps, n, k, id);
      }
    } else {
      var k :| n <= k < m && Revives(steps[k], id);
      StillThere(states, steps, n, k, m, id);
      StillThere(states, steps, n, k + 1, m, id);
      DisciplinedRunsExclude(states, steps, k);
      assert Taken(states, steps, k) && Disciplined(states[k], steps[k]);
      if HasPermanentlyDead(states[k], id) {
        StepRevivesPermanentIff(states[k], steps[k], id);
      }
    }
  }

  /** Between two states a worker failed the row for good, after a revival and with none since. */
  ghost predicate RevivedThenFailed(states: seq<Sys>, steps: seq<Step>, n: nat, m: nat, id: nat)
    requires |states| == |steps| + 1 && n <= m < |states|
  {
    exists j :: n <= j < m && FailsForGood(states[j], steps[j], id) && !NotRevived(steps, n, j, id)
        && NotRevived(steps, j + 1, m, id)
  }

  lemma LeasedAfterRevival(states: seq<Sys>, steps: seq<Step>, n: nat, m: nat, id: nat)
    requires DisciplinedRun(states, steps) && n <= m < |states|
    requires HasDead(states[n], id) && id in states[m].db.work && states[m].db.work[id].state.Leased?
    ensures !NotRevived(steps, n, m, id)
  {
    if NotRevived(steps, n, m, id) {
      DeadUntilRevived(states, steps, n, m, id);
    }
  }

  lemma FailedJustNow(states: seq<Sys>, steps: seq<Step>, n: nat, m: nat, id: nat)
    requires DisciplinedRun(states, steps) && n < m < |states|
    requires HasDead(states[n], id) && !HasPermanentlyDead(states[m - 1], id) && HasPermanentlyDead(states[m], id)
    ensures RevivedThenFailed(states, steps, n, m, id)
  {
    var s, step := states[m - 1], steps[m - 1];
    DisciplinedRunsExclude(states, steps, m - 1);
    assert Taken(states, steps, m - 1) && Disciplined(s, step);
    StepKillsForGoodOnlyByFail(s, step, id);
    LeasedAfterRevival(states, steps, n, m - 1, id);
    assert NotRevived(steps, m, m, id);
  }

  lemma FailedBefore(states: seq<Sys>, steps: seq<Step>, n: nat, m: nat, id: nat)
    requires DisciplinedRun(states, steps) && n < m < |states|
    requires RevivedThenFailed(states, steps, n, m - 1, id) && !Revives(steps[m - 1], id)
    ensures RevivedThenFailed(states, steps, n, m, id)
  {
    var j :| n <= j < m - 1 && FailsForGood(states[j], steps[j], id) && !NotRevived(steps, n, j, id)
        && NotRevived(steps, j + 1, m - 1, id);
    assert NotRevived(steps, j + 1, m, id);
  }

  lemma {:induction false} PermanentMeansFailed(states: seq<Sys>, steps: seq<Step>, n: nat, m: nat, id: nat)
    requires DisciplinedRun(states, steps) && n <= m < |states|
    requires HasDead(states[n], id) && !HasPermanentlyDead(states[n], id) && HasPermanentlyDead(states[m], id)
    ensures RevivedThenFailed(states, steps, n, m, id)
  {
    assert n < m;
    if HasPermanentlyDead(states[m - 1], id) {
      PermanentMeansFailed(states, steps, n, m - 1, id);
      DisciplinedRunsExclude(states, steps, m - 1);
      assert Taken(states, steps, m - 1) && Disciplined(states[m - 1], steps[m - 1]);
      StepRevivesPermanentIff(states[m - 1], steps[m - 1], id);
      FailedBefore(states, steps, n, m, id);
    } else {
      FailedJustNow(states, steps, n, m, id);
    }
  }

  lemma FailedForGoodStays(states: seq<Sys>, steps: seq<Step>, n: nat, m: nat, id: nat)
    requires DisciplinedRun(states, steps) && n <= m < |states|
    requires id in states[n].db.work && id in states[m].db.work && RevivedThenFailed(states, steps, n, m, id)
    ensures HasPermanentlyDead(states[m], id)
  {
    var j :| n <= j < m && FailsForGood(states[j], steps[j], id) && NotRevived(steps, j + 1, m, id);
    StillThere(states, steps, n, j, m, id);
    StillThere(states, steps, n, j + 1, m, id);
    assert Taken(states, steps, j);
    assert HasPermanentlyDead(states[j + 1], id);
    DeadUntilRevived(states, steps, j + 1, m, id);
  }

  /**
   * A reader looked at state `n`, found the row dead and not for good, and its revival
   * commits at state `m`. It undoes a permanent failure exactly when in between the row was
   * revived and then failed for good.
   */
  lemma LateRevivalUndoesIff(states: seq<Sys>, steps: seq<Step>, n: nat, m: nat, id: nat, priority: int)
    requires DisciplinedRun(states, steps) && n <= m < |states|
    requires HasDead(states[n], id) && !HasPermanentlyDead(states[n], id) && id in states[m].db.work
    ensures HasPermanentlyDead(states[m], id) <==> RevivedThenFailed(states, steps, n, m, id)
    ensures HasPermanentlyDead(states[m], id) ==> Apply(states[m], Revive(id, priority)).db.work[id].state.Pending?
  {
    if HasPermanentlyDead(states[m], id) {
      PermanentMeansFailed(states, steps, n, m, id);
    } else if RevivedThenFailed(states, steps, n, m, id) {
      FailedForGoodStays(states, steps, n, m, id);
    }
  }

  lemma FailedOnceRun(key: Key, deadRetry: nat) returns (states: seq<Sys>, steps: seq<Step>)
    ensures DisciplinedRun(states, steps) && |states| == 5
    ensures HasDead(states[4], 0) && !HasPermanentlyDead(states[4], 0)
    ensures states[4] == Sys(Db(map[0 := states[4].db.work[0]], 1, map[], 0), deadRetry, map[], {0})
    ensures states[4].db.work[0].key == key && states[4].db.work[0].updatedAt == 0
  {
    states, steps := Begin();
    states, steps := GoOn(states, steps, Ask(key, 100));
    assert states[1].db.work == map[0 := FreshRow(key, 100, 0)];
    states, steps := GoOn(states, steps, Claim("worker", 0, 300));
    states, steps := GoOn(states, steps, Fail("worker", Failure("upstream_unavailable", "", false), 1));
    states, steps := GoOn(states, steps, Tick(deadRetry));
  }

  /**
   * It does happen, in a run from empty tables with every worker inside its lease: at state
   * 4 the row is dead, not for good, and ripe for any retry time; one reader revives it, a
   * worker fails it for good, and another reader that looked at state 4 queues it again.
   */
  lemma LateRevivalRun(key: Key, deadRetry: nat) returns (states: seq<Sys>, steps: seq<Step>)
    ensures DisciplinedRun(states, steps) && |states| == 8
    ensures HasDead(states[4], 0) && !HasPermanentlyDead(states[4], 0)
    ensures states[4].db.work[0].key == key && states[4].db.work[0].updatedAt + deadRetry <= states[4].now
    ensures HasPermanentlyDead(states[7], 0)
    ensures Apply(states[7], Revive(0, 100)).db.work[0].state.Pending?
  {
    states, steps := FailedOnceRun(key, deadRetry);
    states, steps := GoOn(states, steps, Revive(0, 100));
    assert Claimable(states[5].db.work[0], deadRetry);
    states, steps := GoOn(states, steps, Claim("worker", 0, 300));
    states, steps := GoOn(states, steps, Fail("worker", Failure("invalid_page", "", true), 1));
  }
}
