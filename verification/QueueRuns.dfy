/**
 * The queue as a step machine: readers, workers and the cleanup job each run one
 * transaction at a time, in any order, while the clock moves forward. A run is any
 * sequence of enabled steps; nothing is assumed about fairness, about which claimable
 * row a worker gets, or about when a worker finishes, unless a lemma says so.
 */
module QueueRuns {
  import opened WorkQueue

  /** A worker between `claim` and the transaction that ends its job. */
  datatype Held = Held(lease: WorkLease, until: int, saved: bool)

  /** `touched` remembers which rows were ever claimed or revived. */
  datatype Sys = Sys(db: Db, now: int, held: map<string, Held>, touched: set<nat>)

  datatype Step =
    | Tick(to: int)
    | Ask(key: Key, priority: int)
    | AskRace(key: Key, priority: int)
    | Claim(worker: string, id: nat, leaseSeconds: int)
    | Save(worker: string, answer: Answer, computedAt: int)
    | Complete(worker: string)
    | Supersede(worker: string, reason: string)
    | Fail(worker: string, failure: Failure, maxAttempts: int)
    | Crash(worker: string)
    | Revive(id: nat, priority: int)
    | Cleanup(queueCutoff: int, resultCutoff: int, chosen: set<nat>)

  /** The steps by which a worker acts on the row it holds. */
  predicate Acts(step: Step) {
    step.Save? || step.Complete? || step.Supersede? || step.Fail?
  }

  ghost predicate Enabled(s: Sys, step: Step) {
    match step
    case Tick(to) => s.now <= to
    case Ask(_, _) => true
    case AskRace(_, _) => true
    case Claim(worker, id, _) => worker !in s.held && id in s.db.work && Claimable(s.db.work[id], s.now)
    case Save(worker, _, _) => worker in s.held
    case Complete(worker) => worker in s.held && s.held[worker].saved
    case Supersede(worker, _) => worker in s.held && !s.held[worker].saved
    case Fail(worker, _, _) => worker in s.held
    case Crash(worker) => worker in s.held
    case Revive(_, _) => true
    case Cleanup(_, resultCutoff, chosen) => IsCleanupChoice(s.db.results, resultCutoff, chosen)
  }

  function Apply(s: Sys, step: Step): Sys
    requires Enabled(s, step)
  {
    match step
    case Tick(to) => s.(now := to)
    case Ask(key, priority) => s.(db := EnqueueTx(s.db, s.now, key, priority))
    case AskRace(key, priority) => s.(db := EnqueueRaceTx(s.db, s.now, key, priority))
    case Claim(worker, id, leaseSeconds) =>
      var db := ClaimTx(s.db, s.now, id, worker, leaseSeconds);
      s.(db := db, held := s.held[worker := Held(LeaseOf(id, db.work[id]), s.now + leaseSeconds, false)],
      touched := s.touched + {id})
    case Save(worker, answer, computedAt) =>
      s.(db := SaveResultTx(s.db, ResultRow(s.held[worker].lease.key, answer, computedAt)),
      held := s.held[worker := s.held[worker].(saved := true)])
    case Complete(worker) =>
      s.(db := CompleteTx(s.db, s.held[worker].lease.id), held := s.held - {worker})
    case Supersede(worker, reason) =>
      s.(db := SupersedeTx(s.db, s.now, s.held[worker].lease.id, reason), held := s.held - {worker})
    case Fail(worker, failure, maxAttempts) =>
      s.(db := FailTx(s.db, s.now, s.held[worker].lease, failure, maxAttempts), held := s.held - {worker})
    case Crash(worker) => s.(held := s.held - {worker})
    case Revive(id, priority) =>
      s.(db := ReviveTx(s.db, s.now, id, priority),
      touched := if id in s.db.work && s.db.work[id].state.Dead? then s.touched + {id} else s.touched)
    case Cleanup(queueCutoff, _, chosen) => s.(db := CleanupTx(s.db, queueCutoff, chosen))
  }

  /** Step `i` was enabled and leads to the next state. */
  ghost predicate Taken(states: seq<Sys>, steps: seq<Step>, i: nat)
    requires |states| == |steps| + 1 && i < |steps|
  {
    Enabled(states[i], steps[i]) && states[i + 1] == Apply(states[i], steps[i])
  }

  /** A run: one more state than steps, each step enabled where it is taken. */
  ghost predicate IsRun(states: seq<Sys>, steps: seq<Step>) {
    && |states| == |steps| + 1
    && forall i :: 0 <= i < |steps| ==> Taken(states, steps, i)
  }

  ghost predicate Initial(s: Sys) {
    s.db == Db(map[], 0, map[], 0) && s.held == map[] && s.touched == {}
  }

  // ---- Invariants of every run ----------------------------------------------

  /** A lease names a row id that was handed out, and the row under that id has its key. */
  ghost predicate LeasesNameRows(s: Sys) {
    forall w :: w in s.held ==>
      && s.held[w].lease.id < s.db.nextWork
      && s.held[w].lease.id in s.touched
      && (s.held[w].lease.id in s.db.work ==> s.db.work[s.held[w].lease.id].key == s.held[w].lease.key)
  }

  /** Every claimed row ever is remembered as touched. */
  ghost predicate LeasedAreTouched(s: Sys) {
    && (forall id :: id in s.touched ==> id < s.db.nextWork)
    && (forall id :: id in s.db.work && s.db.work[id].state.Leased? ==> id in s.touched)
  }

  /** Per page and algorithm at most one pending row was never claimed nor revived. */
  ghost predicate OnePending(s: Sys) {
    forall i, j :: (Untouched(s, i) && Untouched(s, j) && s.db.work[i].key.page == s.db.work[j].key.page) ==> i == j
  }

  predicate Untouched(s: Sys, id: nat) {
    id in s.db.work && s.db.work[id].state.Pending? && id !in s.touched
  }

  ghost predicate Inv(s: Sys) {
    TablesOk(s.db) && LeasesNameRows(s) && LeasedAreTouched(s) && OnePending(s)
  }

  /** How any single transaction may treat the work rows. */
  ghost predicate RowsOnlyShrink(s: Sys, t: Sys) {
    && s.db.nextWork == t.db.nextWork
    && s.touched <= t.touched
    && (forall id :: id in t.touched ==> id < t.db.nextWork)
    && (forall id :: id in t.db.work ==> id in s.db.work && t.db.work[id].key == s.db.work[id].key)
    && (forall id :: Untouched(t, id) ==> Untouched(s, id))
    && (forall id :: id in t.db.work ==> RowShape(t.db.work[id]))
    && (forall id :: id in t.db.work && t.db.work[id].state.Leased? ==> id in t.touched)
  }

  lemma ShrinkingKeepsWork(s: Sys, t: Sys)
    requires Inv(s) && RowsOnlyShrink(s, t)
    ensures WorkOk(t.db.work, t.db.nextWork) && LeasedAreTouched(t) && OnePending(t)
  {}

  /** Changing one row that was claimed or revived, or dropping it from the queue. */
  lemma TouchedRowShrinks(s: Sys, t: Sys, id: nat, row: WorkRow)
    requires Inv(s) && id in s.db.work && RowShape(row) && row.key == s.db.work[id].key
    requires t.db.work == s.db.work[id := row] && t.db.nextWork == s.db.nextWork
    requires t.touched == s.touched + {id} || (t.touched == s.touched && (id in s.touched || row.state.Superseded?))
    ensures RowsOnlyShrink(s, t)
  {}

  lemma RemovalShrinks(s: Sys, t: Sys)
    requires Inv(s) && t.touched == s.touched && t.db.nextWork == s.db.nextWork
    requires forall id :: id in t.db.work ==> id in s.db.work && t.db.work[id] == s.db.work[id]
    ensures RowsOnlyShrink(s, t)
  {}

  lemma EveryStepButAskShrinks(s: Sys, step: Step)
    requires Inv(s) && Enabled(s, step) && !step.Ask?
    ensures RowsOnlyShrink(s, Apply(s, step))
  {
    var t := Apply(s, step);
    match step
    case Claim(worker, id, leaseSeconds) =>
      TouchedRowShrinks(s, t, id, ClaimRow(s.db.work[id], s.now, worker, leaseSeconds));
    case Supersede(worker, reason) =>
      var id := s.held[worker].lease.id;
      if id in s.db.work {
        TouchedRowShrinks(s, t, id, SupersedeRow(s.db.work[id], s.now, reason));
      } else {
        RemovalShrinks(s, t);
      }
    case Fail(worker, failure, maxAttempts) =>
      var lease := s.held[worker].lease;
      if lease.id in s.db.work {
        TouchedRowShrinks(s, t, lease.id, FailRow(s.db.work[lease.id], s.now, lease, failure, maxAttempts));
      } else {
        RemovalShrinks(s, t);
      }
    case Revive(id, priority) =>
      if id in s.db.work && s.db.work[id].state.Dead? {
        TouchedRowShrinks(s, t, id, ReviveRow(s.db.work[id], s.now, priority));
      } else {
        RemovalShrinks(s, t);
      }
    case AskRace(key, priority) =>
    case _ => RemovalShrinks(s, t);
  }

  lemma SweepOnlySupersedes(s: Sys, key: Key, priority: int)
    requires Inv(s)
    ensures RowsOnlyShrink(s, s.(db := s.db.(work := Sweep(s.db.work, key, priority, s.now))))
  {
    SweepKeepsTable(s.db.work, s.db.nextWork, key, priority, s.now);
  }

  /** Where no newer job is active, nothing of the page stays pending once `key` is inserted. */
  lemma SweepEmptiesPage(work: map<nat, WorkRow>, key: Key, priority: int, now: int)
    requires !HasWork(work, key) && !NewerActive(work, key)
    ensures forall id :: id in work && work[id].key.page == key.page ==>
                           !Sweep(work, key, priority, now)[id].state.Pending?
  {
    forall id | id in work && work[id].key.page == key.page
      ensures !Sweep(work, key, priority, now)[id].state.Pending?
    {
      assert work[id].key != key;
    }
  }

  /** The only new row is the only pending one of its page. */
  lemma InsertKeepsOnePending(s: Sys, row: WorkRow)
    requires WorkOk(s.db.work, s.db.nextWork) && LeasedAreTouched(s) && OnePending(s) && row.state.Pending?
    requires forall id :: id in s.db.work && s.db.work[id].key.page == row.key.page ==> !s.db.work[id].state.Pending?
    ensures var t := s.(db := s.db.(work := s.db.work[s.db.nextWork := row], nextWork := s.db.nextWork + 1));
            OnePending(t) && LeasedAreTouched(t)
  {}

  lemma AskKeepsOnePending(s: Sys, key: Key, priority: int)
    requires Inv(s)
    ensures OnePending(Apply(s, Ask(key, priority)))
    ensures LeasedAreTouched(Apply(s, Ask(key, priority)))
  {
    var swept := s.(db := s.db.(work := Sweep(s.db.work, key, priority, s.now)));
    SweepOnlySupersedes(s, key, priority);
    ShrinkingKeepsWork(s, swept);
    if !HasWork(s.db.work, key) && !NewerActive(s.db.work, key) {
      SweepEmptiesPage(s.db.work, key, priority, s.now);
      InsertKeepsOnePending(swept, FreshRow(key, priority, s.now));
    }
  }

  lemma StepKeepsResults(s: Sys, step: Step)
    requires Inv(s) && Enabled(s, step)
    ensures TablesOk(Apply(s, step).db)
  {
    if step.Ask? {
      EnqueueKeepsTables(s.db, s.now, step.key, step.priority);
    } else {
      EveryStepButAskShrinks(s, step);
      ShrinkingKeepsWork(s, Apply(s, step));
      if step.Save? {
        SaveKeepsTables(s.db, ResultRow(s.held[step.worker].lease.key, step.answer, step.computedAt));
      }
    }
  }

  lemma StepKeepsInv(s: Sys, step: Step)
    requires Inv(s) && Enabled(s, step)
    ensures Inv(Apply(s, step))
  {
    StepKeepsResults(s, step);
    if step.Ask? {
      AskKeepsOnePending(s, step.key, step.priority);
      EnqueueKeepsTables(s.db, s.now, step.key, step.priority);
    } else {
      EveryStepButAskShrinks(s, step);
      ShrinkingKeepsWork(s, Apply(s, step));
    }
  }

  /** In every reachable state keys are unique and a page has at most one untouched pending row. */
  lemma {:induction false} RunsKeepInv(states: seq<Sys>, steps: seq<Step>, n: nat)
    requires IsRun(states, steps) && Initial(states[0]) && n < |states|
    ensures Inv(states[n])
  {
    if n > 0 {
      RunsKeepInv(states, steps, n - 1);
      assert Taken(states, steps, n - 1);
      StepKeepsInv(states[n - 1], steps[n - 1]);
    }
  }
}
