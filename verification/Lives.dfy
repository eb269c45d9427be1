/**
 * The life of a queue row over whole runs (claim, fail, revive): how often it is tried, how
 * long it waits, when it dies, and what a lease that runs out changes.
 */
module Lives {
  import opened Options
  import opened WorkQueue
  import opened QueueRuns
  import opened QueueSafety
  import opened Backoff

  /** The most attempts a row gets when nobody loses a lease. */
  function MostAttempts(maxAttempts: int): nat { Max(1, maxAttempts) }

  /** Every failure is judged by the same number of attempts. */
  predicate OneLimit(step: Step, maxAttempts: int) {
    step.Fail? ==> step.maxAttempts == maxAttempts
  }

  // ---- Runs in which no lease runs out ------------------------------------------------

  /** A claim takes a pending row, not one whose lease ran out. */
  predicate TakesPending(s: Sys, step: Step) {
    step.Claim? && step.id in s.db.work ==> s.db.work[step.id].state.Pending?
  }

  ghost predicate PlainRun(states: seq<Sys>, steps: seq<Step>, maxAttempts: int) {
    && IsRun(states, steps) && Initial(states[0])
    && forall i :: 0 <= i < |steps| ==> TakesPending(states[i], steps[i]) && OneLimit(steps[i], maxAttempts)
  }

  /** Every holder's row is its own, in time or not. */
  ghost predicate HoldersOwn(s: Sys) {
    forall w :: w in s.held ==> Owns(s, w)
  }

  predicate Owns(s: Sys, worker: string)
    requires worker in s.held
  {
    var lease := s.held[worker].lease;
    && lease.id in s.db.work
    && var row := s.db.work[lease.id];
       row.state.Leased? && row.workerId == Some(worker) && row.attempts == lease.attempts && row.key == lease.key
  }

  lemma AskKeepsLeased(s: Sys, key: Key, priority: int, id: nat)
    requires Inv(s) && id in s.db.work && s.db.work[id].state.Leased?
    ensures var t := Apply(s, Ask(key, priority));
            id in t.db.work && t.db.work[id].(priority := 0, updatedAt := 0)
                == s.db.work[id].(priority := 0, updatedAt := 0)
  {}

  lemma ActorLeavesOthers(s: Sys, step: Step, worker: string)
    requires HoldersOwn(s) && Enabled(s, step) && Acts(step) && step.worker != worker && worker in s.held
    ensures var id, t := s.held[worker].lease.id, Apply(s, step);
            id in t.db.work && worker in t.held && t.held[worker] == s.held[worker] && t.db.work[id] == s.db.work[id]
  {
    assert Owns(s, worker) && Owns(s, step.worker);
    assert s.held[worker].lease.id != s.held[step.worker].lease.id;
  }

  /** A step leaves the row of every worker but the one it is about. */
  lemma OthersRowIsKept(s: Sys, step: Step, worker: string)
    requires Inv(s) && HoldersOwn(s) && Enabled(s, step) && TakesPending(s, step)
    requires worker in s.held && worker in Apply(s, step).held
    ensures var id, t := s.held[worker].lease.id, Apply(s, step);
            && id in t.db.work && t.held[worker].lease == s.held[worker].lease
            && t.db.work[id].(priority := 0, updatedAt := 0) == s.db.work[id].(priority := 0, updatedAt := 0)
  {
    assert Owns(s, worker);
    if step.Ask? {
      AskKeepsLeased(s, step.key, step.priority, s.held[worker].lease.id);
    } else if Acts(step) && step.worker != worker {
      ActorLeavesOthers(s, step, worker);
    }
  }

  lemma StepKeepsHolders(s: Sys, step: Step)
    requires Inv(s) && HoldersOwn(s) && Enabled(s, step) && TakesPending(s, step)
    ensures HoldersOwn(Apply(s, step))
  {
    var t := Apply(s, step);
    forall w | w in t.held
      ensures Owns(t, w)
    {
      if !(step.Claim? && step.worker == w) {
        assert Owns(s, w);
        OthersRowIsKept(s, step, w);
      }
    }
  }

  // ---- One life -------------------------------------------------------------------------

  /** The wait a step imposes on a row: from a failure that does not kill it to its next try. */
  function Imposed(s: Sys, step: Step, id: nat): int
    requires Enabled(s, step)
  {
    if step.Fail? && step.worker in s.held && s.held[step.worker].lease.id == id
       && id in Apply(s, step).db.work && Apply(s, step).db.work[id].state.Pending?
    then Apply(s, step).db.work[id].availableAt - s.now else 0
  }

  /** Whether a step begins a life of the row. */
  predicate Begins(s: Sys, step: Step, id: nat) {
    id !in s.db.work || (step.Revive? && step.id == id && s.db.work[id].state.Dead?)
  }

  function NextWait(s: Sys, step: Step, id: nat, wait: int): int
    requires Enabled(s, step)
  {
    if Begins(s, step, id) then 0 else wait + Imposed(s, step, id)
  }

  /** All waits imposed on a row in the life it is in at state `n`. */
  ghost function LifeWait(states: seq<Sys>, steps: seq<Step>, n: nat, id: nat): int
    requires IsRun(states, steps) && n < |states|
  {
    if n == 0 then 0
    else
      assert Taken(states, steps, n - 1);
      NextWait(states[n - 1], steps[n - 1], id, LifeWait(states, steps, n - 1, id))
  }

  /** Attempts made and waits imposed agree, and a row dies on its last attempt or for good. */
  predicate LifeOk(row: WorkRow, wait: int, tries: nat) {
    match row.state
    case Pending => row.attempts < tries && wait == TotalDelay(row.attempts)
    case Leased => 1 <= row.attempts <= tries && wait == TotalDelay(row.attempts - 1)
    case Dead => 1 <= row.attempts <= tries && wait == TotalDelay(row.attempts - 1)
        && (row.isPermanent || row.attempts == tries)
    case Superseded =>
      || (row.attempts < tries && wait == TotalDelay(row.attempts))
      || (1 <= row.attempts <= tries && wait == TotalDelay(row.attempts - 1))
  }

  /** Steps that change no row's state, attempts or time. */
  lemma QuietStepKeepsLife(s: Sys, step: Step, id: nat, wait: int, tries: nat)
    requires Enabled(s, step) && id in Apply(s, step).db.work
    requires step.Tick? || step.AskRace? || step.Save? || step.Complete? || step.Crash? || step.Cleanup?
    requires id in s.db.work ==> LifeOk(s.db.work[id], wait, tries)
    ensures LifeOk(Apply(s, step).db.work[id], NextWait(s, step, id, wait), tries)
  {}

  lemma ClaimMovesLife(s: Sys, step: Step, id: nat, wait: int, tries: nat)
    requires Enabled(s, step) && step.Claim? && TakesPending(s, step)
    requires id in s.db.work && LifeOk(s.db.work[id], wait, tries)
    ensures id in Apply(s, step).db.work && LifeOk(Apply(s, step).db.work[id], NextWait(s, step, id, wait), tries)
  {}

  lemma SupersedeMovesLife(s: Sys, step: Step, id: nat, wait: int, tries: nat)
    requires Enabled(s, step) && step.Supersede? && Owns(s, step.worker)
    requires id in s.db.work && LifeOk(s.db.work[id], wait, tries)
    ensures id in Apply(s, step).db.work && LifeOk(Apply(s, step).db.work[id], NextWait(s, step, id, wait), tries)
  {}

  lemma ReviveMovesLife(s: Sys, step: Step, id: nat, wait: int, tries: nat)
    requires Enabled(s, step) && step.Revive? && tries >= 1
    requires id in s.db.work && LifeOk(s.db.work[id], wait, tries)
    ensures id in Apply(s, step).db.work && LifeOk(Apply(s, step).db.work[id], NextWait(s, step, id, wait), tries)
  {}

  lemma AskKeepsLife(s: Sys, key: Key, priority: int, id: nat)
    requires Inv(s) && id in Apply(s, Ask(key, priority)).db.work
    ensures var row := Apply(s, Ask(key, priority)).db.work[id];
            if id in s.db.work then
              && row.attempts == s.db.work[id].attempts && row.isPermanent == s.db.work[id].isPermanent
              && (row.state == s.db.work[id].state || (s.db.work[id].state.Pending? && row.state.Superseded?))
            else row.state.Pending? && row.attempts == 0
  {}

  lemma AskMovesLife(s: Sys, step: Step, id: nat, wait: int, tries: nat)
    requires Inv(s) && step.Ask? && id in Apply(s, step).db.work && tries >= 1
    requires id in s.db.work ==> LifeOk(s.db.work[id], wait, tries)
    ensures LifeOk(Apply(s, step).db.work[id], NextWait(s, step, id, wait), tries)
  {
    AskKeepsLife(s, step.key, step.priority, id);
  }

  lemma FailMovesLife(row: WorkRow, now: int, lease: WorkLease, failure: Failure, wait: int, maxAttempts: int)
    requires row.state.Leased? && row.attempts == lease.attempts && LifeOk(row, wait, MostAttempts(maxAttempts))
    ensures var after := FailRow(row, now, lease, failure, maxAttempts);
            LifeOk(after, wait + if after.state.Pending? then after.availableAt - now else 0, MostAttempts(maxAttempts))
  {}

  lemma FailStepMovesLife(s: Sys, step: Step, id: nat, wait: int, maxAttempts: int)
    requires Enabled(s, step) && step.Fail? && Owns(s, step.worker) && OneLimit(step, maxAttempts)
    requires id in s.db.work && LifeOk(s.db.work[id], wait, MostAttempts(maxAttempts))
    ensures id in Apply(s, step).db.work
            && LifeOk(Apply(s, step).db.work[id], NextWait(s, step, id, wait), MostAttempts(maxAttempts))
  {
    if id == s.held[step.worker].lease.id {
      FailMovesLife(s.db.work[id], s.now, s.held[step.worker].lease, step.failure, wait, maxAttempts);
    }
  }

  lemma StepKeepsLife(s: Sys, step: Step, id: nat, wait: int, maxAttempts: int)
    requires Inv(s) && HoldersOwn(s) && Enabled(s, step) && TakesPending(s, step) && OneLimit(step, maxAttempts)
    requires id in Apply(s, step).db.work
             && (id in s.db.work ==> LifeOk(s.db.work[id], wait, MostAttempts(maxAttempts)))
    ensures LifeOk(Apply(s, step).db.work[id], NextWait(s, step, id, wait), MostAttempts(maxAttempts))
  {
    if Acts(step) {
      assert Owns(s, step.worker);
    }
    var tries := MostAttempts(maxAttempts);
    match step {
      case Ask(_, _) => AskMovesLife(s, step, id, wait, tries);
      case Fail(_, _, _) => FailStepMovesLife(s, step, id, wait, maxAttempts);
      case Claim(_, _, _) => ClaimMovesLife(s, step, id, wait, tries);
      case Supersede(_, _) => SupersedeMovesLife(s, step, id, wait, tries);
      case Revive(_, _) => ReviveMovesLife(s, step, id, wait, tries);
      case _ => QuietStepKeepsLife(s, step, id, wait, tries);
    }
  }

  /**
   * In every run in which no lease runs out, for every row in every state: the holder is its
   * own, attempts and imposed waits are those of the backoff table, and the row is dead for
   * want of attempts exactly on the last one.
   */
  lemma {:induction false} LivesFollowTheTable(states: seq<Sys>, steps: seq<Step>, n: nat, maxAttempts: int)
    requires PlainRun(states, steps, maxAttempts) && n < |states|
    ensures HoldersOwn(states[n])
    ensures forall id :: id in states[n].db.work ==>
            LifeOk(states[n].db.work[id], LifeWait(states, steps, n, id), MostAttempts(maxAttempts))
  {
    if n > 0 {
      var s, step := states[n - 1], steps[n - 1];
      LivesFollowTheTable(states, steps, n - 1, maxAttempts);
      RunsKeepInv(states, steps, n - 1);
      assert Taken(states, steps, n - 1) && TakesPending(s, step) && OneLimit(step, maxAttempts);
      StepKeepsHolders(s, step);
      forall id | id in states[n].db.work
        ensures LifeOk(states[n].db.work[id], LifeWait(states, steps, n, id), MostAttempts(maxAttempts))
      {
        StepKeepsLife(s, step, id, LifeWait(states, steps, n - 1, id), maxAttempts);
      }
    }
  }

  lemma {:induction false} TotalDelayGrows(a: nat, b: nat)
    ensures a <= b ==> TotalDelay(a) <= TotalDelay(b)
    decreases b
  {
    if a < b { TotalDelayGrows(a, b - 1); }
  }

  lemma LifeWaitFits(row: WorkRow, wait: int, tries: nat)
    requires LifeOk(row, wait, tries) && tries >= 1
    ensures wait <= TotalDelay(tries - 1)
    ensures row.state.Dead? && !row.isPermanent ==> wait == TotalDelay(tries - 1)
  {
    TotalDelayGrows(row.attempts, tries - 1);
    if row.attempts >= 1 {
      TotalDelayGrows(row.attempts - 1, tries - 1);
    }
  }

  lemma LifeWaitIsTabled(states: seq<Sys>, steps: seq<Step>, n: nat, maxAttempts: int, id: nat)
    requires PlainRun(states, steps, maxAttempts) && n < |states| && id in states[n].db.work
    ensures LifeOk(states[n].db.work[id], LifeWait(states, steps, n, id), MostAttempts(maxAttempts))
  {
    LivesFollowTheTable(states, steps, n, maxAttempts);
  }

  lemma TableIsBounded(row: WorkRow, wait: int, maxAttempts: nat)
    requires maxAttempts >= 1 && LifeOk(row, wait, MostAttempts(maxAttempts))
    ensures wait <= Min(DELAY_FLOOR * (Pow2(maxAttempts - 1) - 1), DELAY_CAP * (maxAttempts - 1))
    ensures row.state.Dead? && !row.isPermanent && maxAttempts <= 11 ==>
            wait == DELAY_FLOOR * (Pow2(maxAttempts - 1) - 1)
  {
    LifeWaitFits(row, wait, maxAttempts);
    WaitOfOneLife(maxAttempts);
  }

  /**
   * So the waits of one life add up to at most min(30 * (2^(M-1) - 1), 21600 * (M - 1)), and
   * for a row that died for want of attempts, M at most 11, to exactly the first.
   */
  lemma WaitsOfOneLife(states: seq<Sys>, steps: seq<Step>, n: nat, maxAttempts: nat, id: nat)
    requires PlainRun(states, steps, maxAttempts) && n < |states| && maxAttempts >= 1 && id in states[n].db.work
    ensures LifeWait(states, steps, n, id)
            <= Min(DELAY_FLOOR * (Pow2(maxAttempts - 1) - 1), DELAY_CAP * (maxAttempts - 1))
    ensures states[n].db.work[id].state.Dead? && !states[n].db.work[id].isPermanent && maxAttempts <= 11 ==>
              LifeWait(states, steps, n, id) == DELAY_FLOOR * (Pow2(maxAttempts - 1) - 1)
  {
    LifeWaitIsTabled(states, steps, n, maxAttempts, id);
    TableIsBounded(states[n].db.work[id], LifeWait(states, steps, n, id), maxAttempts);
  }

  // ---- When leases run out -----------------------------------------------------------------

  /** No pending row has used up its attempts. */
  ghost predicate PendingUnspent(s: Sys, maxAttempts: int) {
    forall id :: id in s.db.work && s.db.work[id].state.Pending? ==> s.db.work[id].attempts < MostAttempts(maxAttempts)
  }

  /** No leased row has had more than its attempts. */
  ghost predicate LeasedWithinTries(s: Sys, maxAttempts: int) {
    forall id :: id in s.db.work && s.db.work[id].state.Leased? ==> s.db.work[id].attempts <= MostAttempts(maxAttempts)
  }

  /** A claim takes over a lease that ran out on the last attempt. */
  predicate TakesSpentLease(s: Sys, step: Step, maxAttempts: int) {
    step.Claim? && step.id in s.db.work && s.db.work[step.id].state.Leased?
        && s.db.work[step.id].attempts >= MostAttempts(maxAttempts)
  }

  lemma StepKeepsPendingUnspent(s: Sys, step: Step, maxAttempts: int)
    requires Inv(s) && LeaseSafe(s) && Enabled(s, step) && Disciplined(s, step) && OneLimit(step, maxAttempts)
    requires PendingUnspent(s, maxAttempts)
    ensures PendingUnspent(Apply(s, step), maxAttempts)
  {
    var t := Apply(s, step);
    forall id | id in t.db.work && t.db.work[id].state.Pending?
      ensures t.db.work[id].attempts < MostAttempts(maxAttempts)
    {
      if step.Ask? {
        AskKeepsLife(s, step.key, step.priority, id);
      }
      assert id in s.db.work && s.db.work[id].state.Pending? ==> s.db.work[id].attempts < MostAttempts(maxAttempts);
    }
  }

  lemma StepKeepsLeasedWithin(s: Sys, step: Step, maxAttempts: int)
    requires Inv(s) && Enabled(s, step) && PendingUnspent(s, maxAttempts) && LeasedWithinTries(s, maxAttempts)
    ensures LeasedWithinTries(Apply(s, step), maxAttempts) <==> !TakesSpentLease(s, step, maxAttempts)
  {
    var t := Apply(s, step);
    if TakesSpentLease(s, step, maxAttempts) {
      assert t.db.work[step.id].attempts > MostAttempts(maxAttempts);
    } else {
      forall id | id in t.db.work && t.db.work[id].state.Leased?
        ensures t.db.work[id].attempts <= MostAttempts(maxAttempts)
      {
        if step.Ask? {
          AskKeepsLife(s, step.key, step.priority, id);
        }
        assert id in s.db.work;
      }
    }
  }

  lemma {:induction false} RunsKeepPendingUnspent(states: seq<Sys>, steps: seq<Step>, n: nat, maxAttempts: int)
    requires DisciplinedRun(states, steps) && n < |states|
    requires forall i :: 0 <= i < |steps| ==> OneLimit(steps[i], maxAttempts)
    ensures PendingUnspent(states[n], maxAttempts)
  {
    if n > 0 {
      RunsKeepPendingUnspent(states, steps, n - 1, maxAttempts);
      DisciplinedRunsExclude(states, steps, n - 1);
      assert Taken(states, steps, n - 1) && Disciplined(states[n - 1], steps[n - 1])
          && OneLimit(steps[n - 1], maxAttempts);
      StepKeepsPendingUnspent(states[n - 1], steps[n - 1], maxAttempts);
    }
  }

  /**
   * With workers that may crash or hang but act only within their leases, a row gets at most
   * max(1, M) attempts up to state `n` exactly when no claim so far took over a lease that
   * ran out on the last attempt.
   */
  lemma {:induction false} AttemptsBoundedIff(states: seq<Sys>, steps: seq<Step>, n: nat, maxAttempts: int)
    requires DisciplinedRun(states, steps) && n < |states|
    requires forall i :: 0 <= i < |steps| ==> OneLimit(steps[i], maxAttempts)
    ensures (forall k :: 0 <= k <= n ==> LeasedWithinTries(states[k], maxAttempts))
            <==> (forall k :: 0 <= k < n ==> !TakesSpentLease(states[k], steps[k], maxAttempts))
  {
    if n > 0 {
      AttemptsBoundedIff(states, steps, n - 1, maxAttempts);
      RunsKeepPendingUnspent(states, steps, n - 1, maxAttempts);
      DisciplinedRunsExclude(states, steps, n - 1);
      assert Taken(states, steps, n - 1);
      if LeasedWithinTries(states[n - 1], maxAttempts) {
        StepKeepsLeasedWithin(states[n - 1], steps[n - 1], maxAttempts);
      }
    }
  }

  lemma CrashAndClaim(states: seq<Sys>, steps: seq<Step>) returns (more: seq<Sys>, longer: seq<Step>)
    requires DisciplinedRun(states, steps) && forall i :: 0 <= i < |steps| ==> !steps[i].Fail?
    requires var s := states[|steps|];
             && s.db.work.Keys == {0} && "worker" in s.held && s.held.Keys == {"worker"}
             && s.db.work[0].state.Leased? && s.db.work[0].leaseUntil == Some(s.now + 300)
    ensures DisciplinedRun(more, longer) && forall i :: 0 <= i < |longer| ==> !longer[i].Fail?
    ensures var s, t := states[|steps|], more[|longer|];
            && t.db.work.Keys == {0} && "worker" in t.held && t.held.Keys == {"worker"}
            && t.db.work[0].state.Leased? && t.db.work[0].leaseUntil == Some(t.now + 300)
            && t.db.work[0].attempts == s.db.work[0].attempts + 1
  {
    var now := states[|steps|].now;
    more, longer := GoOn(states, steps, Crash("worker"));
    more, longer := GoOn(more, longer, Tick(now + 301));
    more, longer := GoOn(more, longer, Claim("worker", 0, 300));
  }

  /**
   * And there is no bound otherwise: workers that crash in turn, each in time, bring one row
   * to any number of attempts without a single failure being recorded.
   */
  lemma {:induction false} CrashesRaiseAttemptsForever(key: Key, attempts: nat)
    returns (states: seq<Sys>, steps: seq<Step>)
    requires attempts >= 1
    ensures DisciplinedRun(states, steps) && forall i :: 0 <= i < |steps| ==> !steps[i].Fail?
    ensures var s := states[|steps|];
            && s.db.work.Keys == {0} && "worker" in s.held && s.held.Keys == {"worker"}
            && s.db.work[0].state.Leased? && s.db.work[0].attempts == attempts
               && s.db.work[0].leaseUntil == Some(s.now + 300)
  {
    if attempts == 1 {
      states, steps := Begin();
      states, steps := GoOn(states, steps, Ask(key, 100));
      assert states[1].db.work == map[0 := FreshRow(key, 100, 0)];
      states, steps := GoOn(states, steps, Claim("worker", 0, 300));
    } else {
      states, steps := CrashesRaiseAttemptsForever(key, attempts - 1);
      states, steps := CrashAndClaim(states, steps);
    }
  }
}
