/**
 * What holds in every state of every run of the queue: leases exclude each other, rows
 * leave only when answered or expired, and a page that has an answer never loses it.
 */
module QueueSafety {
  import opened Options
  import opened WorkQueue
  import opened QueueRuns

  // ---- Lease exclusivity -----------------------------------------------------

  /** A holder whose lease has not run out. */
  predicate Live(s: Sys, worker: string) {
    worker in s.held && s.now <= s.held[worker].until
  }

  /** The row of a live holder is leased to exactly that holder. */
  ghost predicate LeaseSafe(s: Sys) {
    forall w :: Live(s, w) ==>
      var held := s.held[w];
      && held.lease.id in s.db.work
      && var row := s.db.work[held.lease.id];
         row.state.Leased? && row.workerId == Some(w) && row.leaseUntil == Some(held.until)
         && row.attempts == held.lease.attempts && row.key == held.lease.key
  }

  /** A worker that acts, acts no later than its lease says. */
  predicate Disciplined(s: Sys, step: Step)
  {
    Acts(step) ==> Live(s, step.worker)
  }

  ghost predicate DisciplinedRun(states: seq<Sys>, steps: seq<Step>) {
    IsRun(states, steps) && Initial(states[0]) && forall i :: 0 <= i < |steps| ==> Disciplined(states[i], steps[i])
  }

  /** Steps that leave leased rows and holders alone, up to priority and time of update. */
  lemma QuietStepKeepsLeases(s: Sys, step: Step)
    requires Inv(s) && LeaseSafe(s) && Enabled(s, step)
    requires step.Tick? || step.AskRace? || step.Revive? || step.Cleanup? || step.Crash? || step.Save?
    ensures LeaseSafe(Apply(s, step))
  {
    var t := Apply(s, step);
    forall w | Live(t, w)
      ensures w in s.held && t.held[w].lease == s.held[w].lease && t.held[w].until == s.held[w].until && Live(s, w)
    {}
  }

  lemma AskKeepsLeases(s: Sys, key: Key, priority: int)
    requires Inv(s) && LeaseSafe(s)
    ensures LeaseSafe(Apply(s, Ask(key, priority)))
  {
    var t := Apply(s, Ask(key, priority));
    forall w | Live(t, w)
      ensures t.held[w].lease.id in t.db.work
      ensures var row, was := t.db.work[t.held[w].lease.id], s.db.work[t.held[w].lease.id];
              row.(priority := 0, updatedAt := 0) == was.(priority := 0, updatedAt := 0)
    {
      assert Live(s, w);
    }
  }

  lemma ClaimKeepsLeases(s: Sys, worker: string, id: nat, leaseSeconds: int)
    requires Inv(s) && LeaseSafe(s) && Enabled(s, Claim(worker, id, leaseSeconds))
    ensures LeaseSafe(Apply(s, Claim(worker, id, leaseSeconds)))
  {
    var t := Apply(s, Claim(worker, id, leaseSeconds));
    forall w | Live(t, w) && w != worker
      ensures Live(s, w) && t.held[w].lease.id != id
    {
      assert Live(s, w);
    }
  }

  /**
   * When ending a job is safe, at any time, late or not: the leases stay exclusive
   * exactly when no other live worker holds the row by then.
   */
  lemma EndingIsSafeIffNobodyElseHolds(s: Sys, step: Step)
    requires Inv(s) && LeaseSafe(s) && Enabled(s, step)
    requires step.Complete? || step.Supersede? || step.Fail?
    ensures LeaseSafe(Apply(s, step))
            <==> forall w :: w != step.worker && Live(s, w) ==> s.held[w].lease.id != s.held[step.worker].lease.id
  {
    var t := Apply(s, step);
    var id := s.held[step.worker].lease.id;
    assert forall w :: Live(t, w) <==> Live(s, w) && w != step.worker;
    assert forall other :: other != id && other in s.db.work ==>
        other in t.db.work && t.db.work[other] == s.db.work[other];
    assert id in t.db.work ==> !t.db.work[id].state.Leased?;
  }

  /** No live worker shares its row with another live worker. */
  lemma LiveHoldersAreAlone(s: Sys, a: string, b: string)
    requires LeaseSafe(s) && Live(s, a) && Live(s, b) && s.held[a].lease.id == s.held[b].lease.id
    ensures a == b
  {
    assert s.db.work[s.held[a].lease.id].workerId == Some(a);
  }

  lemma EndingWhileLiveIsSafe(s: Sys, step: Step)
    requires Inv(s) && LeaseSafe(s) && Enabled(s, step) && Disciplined(s, step)
    requires step.Complete? || step.Supersede? || step.Fail?
    ensures LeaseSafe(Apply(s, step))
  {
    var me := step.worker;
    forall w | w != me && Live(s, w)
      ensures s.held[w].lease.id != s.held[me].lease.id
    {
      if s.held[w].lease.id == s.held[me].lease.id {
        LiveHoldersAreAlone(s, w, me);
      }
    }
    EndingIsSafeIffNobodyElseHolds(s, step);
  }

  lemma StepKeepsLeases(s: Sys, step: Step)
    requires Inv(s) && LeaseSafe(s) && Enabled(s, step) && Disciplined(s, step)
    ensures LeaseSafe(Apply(s, step))
  {
    match step
    case Ask(key, priority) => AskKeepsLeases(s, key, priority);
    case Claim(worker, id, leaseSeconds) => ClaimKeepsLeases(s, worker, id, leaseSeconds);
    case Save(_, _, _) => QuietStepKeepsLeases(s, step);
    case Complete(_) => EndingWhileLiveIsSafe(s, step);
    case Supersede(_, _) => EndingWhileLiveIsSafe(s, step);
    case Fail(_, _, _) => EndingWhileLiveIsSafe(s, step);
    case _ => QuietStepKeepsLeases(s, step);
  }

  /** In every state of a disciplined run each live holder's row is its own. */
  lemma {:induction false} DisciplinedRunsExclude(states: seq<Sys>, steps: seq<Step>, n: nat)
    requires DisciplinedRun(states, steps) && n < |states|
    ensures Inv(states[n]) && LeaseSafe(states[n])
    ensures forall a, b :: (Live(states[n], a) && Live(states[n], b)
                            && states[n].held[a].lease.id == states[n].held[b].lease.id) ==> a == b
  {
    RunsKeepInv(states, steps, n);
    if n > 0 {
      DisciplinedRunsExclude(states, steps, n - 1);
      assert Taken(states, steps, n - 1) && Disciplined(states[n - 1], steps[n - 1]);
      StepKeepsLeases(states[n - 1], steps[n - 1]);
    }
    forall a, b | Live(states[n], a) && Live(states[n], b)
                  && states[n].held[a].lease.id == states[n].held[b].lease.id
      ensures a == b
    {
      LiveHoldersAreAlone(states[n], a, b);
    }
  }

  /** A disciplined run goes on with any enabled disciplined step. */
  lemma GoOn(states: seq<Sys>, steps: seq<Step>, step: Step) returns (more: seq<Sys>, longer: seq<Step>)
    requires DisciplinedRun(states, steps) && Enabled(states[|steps|], step) && Disciplined(states[|steps|], step)
    ensures DisciplinedRun(more, longer)
    ensures more == states + [Apply(states[|steps|], step)] && longer == steps + [step]
  {
    more, longer := states + [Apply(states[|steps|], step)], steps + [step];
    forall i | 0 <= i < |longer|
      ensures Taken(more, longer, i) && Disciplined(more[i], longer[i])
    {
      if i < |steps| {
        assert Taken(states, steps, i) && Disciplined(states[i], steps[i]);
        assert more[i] == states[i] && more[i + 1] == states[i + 1] && longer[i] == steps[i];
      }
    }
  }

  /** The run that has not begun. */
  function Start(): Sys {
    Sys(Db(map[], 0, map[], 0), 0, map[], {})
  }

  lemma Begin() returns (states: seq<Sys>, steps: seq<Step>)
    ensures DisciplinedRun(states, steps) && states == [Start()] && steps == []
  {
    states, steps := [Start()], [];
  }

  lemma StepNeverReusesIds(s: Sys, step: Step, id: nat)
    requires Inv(s) && Enabled(s, step) && id < s.db.nextWork && id !in s.db.work
    ensures id !in Apply(s, step).db.work && id < Apply(s, step).db.nextWork
  {
    if !step.Ask? {
      EveryStepButAskShrinks(s, step);
    }
  }

  // ---- Rows leave only answered or expired -------------------------------------

  /** At step `j` some worker stored an answer for exactly this key. */
  ghost predicate AnsweredAt(states: seq<Sys>, steps: seq<Step>, j: nat, key: Key)
    requires |states| == |steps| + 1 && j < |steps|
  {
    && steps[j].Save? && steps[j].worker in states[j].held
    && states[j].held[steps[j].worker].lease.key == key
    && HasResult(states[j + 1].db.results, key)
  }

  /** A hold marked as saved was so marked by this step, or was so before it. */
  lemma SavedMarkComesFromSave(s: Sys, step: Step, worker: string)
    requires Enabled(s, step) && worker in Apply(s, step).held && Apply(s, step).held[worker].saved
    ensures worker in s.held && s.held[worker].lease == Apply(s, step).held[worker].lease
    ensures (step.Save? && step.worker == worker) || s.held[worker].saved
  {}

  lemma SaveStoresKey(s: Sys, step: Step)
    requires Inv(s) && Enabled(s, step) && step.Save?
    ensures HasResult(Apply(s, step).db.results, s.held[step.worker].lease.key)
  {
    SaveKeepsTables(s.db, ResultRow(s.held[step.worker].lease.key, step.answer, step.computedAt));
  }

  /** A holder marked as saved did store the answer for its key earlier in the run. */
  lemma {:induction false} SavedMeansAnswered(states: seq<Sys>, steps: seq<Step>, n: nat, worker: string)
    returns (j: nat)
    requires IsRun(states, steps) && Initial(states[0]) && n < |states|
    requires worker in states[n].held && states[n].held[worker].saved
    ensures j < n && AnsweredAt(states, steps, j, states[n].held[worker].lease.key)
  {
    assert n != 0;
    assert Taken(states, steps, n - 1);
    SavedMarkComesFromSave(states[n - 1], steps[n - 1], worker);
    if steps[n - 1].Save? && steps[n - 1].worker == worker {
      j := n - 1;
      RunsKeepInv(states, steps, j);
      SaveStoresKey(states[j], steps[j]);
      assert AnsweredAt(states, steps, j, states[n].held[worker].lease.key);
    } else {
      j := SavedMeansAnswered(states, steps, n - 1, worker);
    }
  }

  lemma StepKeepsPageAnswered(s: Sys, step: Step, page: PageRef)
    requires Inv(s) && Enabled(s, step) && PageHasResult(s.db.results, page)
    ensures PageHasResult(Apply(s, step).db.results, page)
  {
    if step.Save? {
      SaveKeepsAnswers(s.db, ResultRow(s.held[step.worker].lease.key, step.answer, step.computedAt), page);
    } else if step.Cleanup? {
      var top := LatestExists(s.db.results, page);
      CleanupKeepsLatest(s.db, step.queueCutoff, step.resultCutoff, step.chosen, page, top);
    }
  }

  /** Once a page has an answer it has one in every later state. */
  lemma {:induction false} AnswersAreNeverLost(states: seq<Sys>, steps: seq<Step>, n: nat, m: nat, page: PageRef)
    requires IsRun(states, steps) && Initial(states[0]) && n <= m < |states|
    requires PageHasResult(states[n].db.results, page)
    ensures PageHasResult(states[m].db.results, page)
  {
    if n < m {
      AnswersAreNeverLost(states, steps, n, m - 1, page);
      RunsKeepInv(states, steps, m - 1);
      assert Taken(states, steps, m - 1);
      StepKeepsPageAnswered(states[m - 1], steps[m - 1], page);
    }
  }

  /** Only storing an answer for the page itself changes which row is served for it. */
  lemma ServedRowChangesOnlyBySave(s: Sys, step: Step, page: PageRef, id: nat)
    requires Inv(s) && Enabled(s, step) && IsLatest(s.db.results, page, id)
    requires !(step.Save? && s.held[step.worker].lease.key.page == page)
    ensures IsLatest(Apply(s, step).db.results, page, id)
    ensures Apply(s, step).db.results[id] == s.db.results[id]
  {
    if step.Save? {
      SaveKeepsAnswers(s.db, ResultRow(s.held[step.worker].lease.key, step.answer, step.computedAt), page);
    } else if step.Cleanup? {
      CleanupKeepsLatest(s.db, step.queueCutoff, step.resultCutoff, step.chosen, page, id);
    }
  }

  /**
   * A queue row disappears only because a cleanup found it dead or superseded past the
   * cutoff, or because an answer for exactly its key was stored earlier in the run; in
   * the second case its page still has an answer afterwards.
   */
  lemma RowsLeaveAnsweredOrExpired(states: seq<Sys>, steps: seq<Step>, i: nat, id: nat)
    requires IsRun(states, steps) && Initial(states[0]) && i < |steps|
    requires id in states[i].db.work && id !in states[i + 1].db.work
    ensures || (&& steps[i].Cleanup?
                && (states[i].db.work[id].state.Dead? || states[i].db.work[id].state.Superseded?)
                && states[i].db.work[id].updatedAt < steps[i].queueCutoff)
            || (&& steps[i].Complete?
                && (exists j: nat :: j < i && AnsweredAt(states, steps, j, states[i].db.work[id].key))
                && PageHasResult(states[i + 1].db.results, states[i].db.work[id].key.page))
  {
    var step, key := steps[i], states[i].db.work[id].key;
    RunsKeepInv(states, steps, i);
    assert Taken(states, steps, i);
    if step.Ask? {
      EnqueueKeepsTables(states[i].db, states[i].now, step.key, step.priority);
    } else if step.Complete? {
      var j := SavedMeansAnswered(states, steps, i, step.worker);
      var stored :| stored in states[j + 1].db.results && states[j + 1].db.results[stored].key == key;
      assert states[j + 1].db.results[stored].key.page == key.page;
      AnswersAreNeverLost(states, steps, j + 1, i + 1, key.page);
    }
  }
}
