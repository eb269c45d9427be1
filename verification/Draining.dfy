/**
 * One whole pass of a worker (Worker.run_once) on the tables, and why a queue that
 * nobody feeds drains: every pass that claims something lowers a measure, so the number
 * of passes is bounded by a figure computed from the queue itself.
 */
module Draining {
  import Arithmetic
  import opened WorkQueue

  /** How `process` ends, as far as the tables are concerned. */
  datatype Outcome =
    | Refuse(reason: string)                    // left the main namespace, or a redirect
    | Requeue(revision: int, reason: string)    // the page has moved on
    | Store(answer: Answer)
    | Break(failure: Failure)                   // an error escaped

  function Finish(db: Db, now: int, lease: WorkLease, outcome: Outcome, maxAttempts: int): Db {
    match outcome
    case Refuse(reason) => SupersedeTx(db, now, lease.id, reason)
    case Requeue(revision, reason) =>
      Enqueue(SupersedeTx(db, now, lease.id, reason), now, Key(lease.key.page, revision), lease.priority, false)
    case Store(answer) => CompleteTx(SaveResultTx(db, ResultRow(lease.key, answer, now)), lease.id)
    case Break(failure) => FailTx(db, now, lease, failure, maxAttempts)
  }

  /** The same with other sessions before each of the job's transactions. */
  function FinishAmid(db: Db, lease: WorkLease, outcome: Outcome, maxAttempts: int, pace: Pace): Db {
    var first, now := pace(0).others(db), pace(0).now;
    match outcome
    case Refuse(reason) => SupersedeTx(first, now, lease.id, reason)
    case Requeue(revision, reason) =>
      EnqueueAmid(pace(1).others(SupersedeTx(first, now, lease.id, reason)), pace(1).now, Key(lease.key.page, revision),
                  lease.priority, false, pace(2).others)
    case Store(answer) => CompleteTx(pace(1).others(SaveResultTx(first, ResultRow(lease.key, answer, now))), lease.id)
    case Break(failure) => FailTx(first, now, lease, failure, maxAttempts)
  }

  /** One pass: who claims which row when, and how it ends when. */
  datatype Pass = Pass(id: nat, worker: string, leaseSeconds: int, claimAt: int, finishAt: int, outcome: Outcome)

  function RunPass(db: Db, pass: Pass, maxAttempts: int): Db
    requires pass.id in db.work
  {
    var claimed := ClaimTx(db, pass.claimAt, pass.id, pass.worker, pass.leaseSeconds);
    Finish(claimed, pass.finishAt, LeaseOf(pass.id, claimed.work[pass.id]), pass.outcome, maxAttempts)
  }

  function RunPassAmid(db: Db, pass: Pass, maxAttempts: int, pace: Pace): Db
    requires pass.id in db.work
  {
    var claimed := ClaimTx(db, pass.claimAt, pass.id, pass.worker, pass.leaseSeconds);
    FinishAmid(claimed, LeaseOf(pass.id, claimed.work[pass.id]), pass.outcome, maxAttempts, pace)
  }

  /** With nobody else there the two are one. */
  lemma NobodyElseThere(db: Db, pass: Pass, maxAttempts: int)
    requires pass.id in db.work
    ensures RunPassAmid(db, pass, maxAttempts, Quietly(pass.finishAt)) == RunPass(db, pass, maxAttempts)
  {}

  /** The pass claims a claimable row and sees the page's current revision. */
  predicate Possible(db: Db, pass: Pass, current: PageRef -> int) {
    && pass.id in db.work
    && Claimable(db.work[pass.id], pass.claimAt)
    && pass.claimAt <= pass.finishAt
    && var key := db.work[pass.id].key;
       match pass.outcome
       case Requeue(revision, _) => revision == current(key.page) != key.revision
       case Store(_) => current(key.page) == key.revision
       case _ => true
  }

  lemma EnqueueLeavesSuperseded(db: Db, now: int, key: Key, priority: int, id: nat)
    requires id in db.work && id < db.nextWork && db.work[id].state.Superseded?
    ensures var after := Enqueue(db, now, key, priority, false); id in after.work && after.work[id] == db.work[id]
  {}

  /**
   * After a pass the claimed row is answered and gone, superseded, dead, or pending with
   * a time to wait that has not come yet.
   */
  lemma PassSettlesItsRow(db: Db, pass: Pass, current: PageRef -> int, maxAttempts: int)
    requires TablesOk(db) && Possible(db, pass, current)
    ensures var after := RunPass(db, pass, maxAttempts);
            match pass.outcome
            case Store(_) => pass.id !in after.work && HasResult(after.results, db.work[pass.id].key)
            case Break(failure) =>
              && pass.id in after.work
              && after.work[pass.id].state == (if Kills(db.work[pass.id].attempts + 1, maxAttempts, failure.permanent)
                                               then Dead else Pending)
              && after.work[pass.id].availableAt > pass.finishAt
            case _ => pass.id in after.work && after.work[pass.id].state.Superseded?
  {
    var claimed := ClaimTx(db, pass.claimAt, pass.id, pass.worker, pass.leaseSeconds);
    match pass.outcome {
      case Store(answer) => SaveKeepsTables(claimed, ResultRow(db.work[pass.id].key, answer, pass.finishAt));
      case Break(_) => Pow2Grows(0, db.work[pass.id].attempts);
      case Requeue(revision, reason) =>
        EnqueueLeavesSuperseded(SupersedeTx(claimed, pass.finishAt, pass.id, reason), pass.finishAt,
                                Key(db.work[pass.id].key.page, revision), db.work[pass.id].priority, pass.id);
      case Refuse(_) =>
    }
  }

  // ---- Adding up over the queue -----------------------------------------------

  /** The sum of a weight over the rows with ids below `n`. */
  function Sum(work: map<nat, WorkRow>, n: nat, weight: WorkRow -> nat): nat {
    if n == 0 then 0
    else Sum(work, n - 1, weight) + if n - 1 in work then weight(work[n - 1]) else 0
  }

  lemma {:induction false} SumMonotone(before: map<nat, WorkRow>, after: map<nat, WorkRow>, n: nat,
                                       weight: WorkRow -> nat)
    requires forall id :: id in after && id < n ==> id in before && weight(after[id]) <= weight(before[id])
    ensures Sum(after, n, weight) <= Sum(before, n, weight)
  {
    if n > 0 { SumMonotone(before, after, n - 1, weight); }
  }

  /** When one row loses `drop` and none gains, the sum loses at least `drop`. */
  lemma {:induction false} SumDrops(before: map<nat, WorkRow>, after: map<nat, WorkRow>, n: nat, weight: WorkRow -> nat,
                                    id: nat, drop: nat)
    requires id < n && id in before
    requires forall k :: k in after && k < n ==> k in before && weight(after[k]) <= weight(before[k])
    requires (if id in after then weight(after[id]) else 0) + drop <= weight(before[id])
    ensures Sum(after, n, weight) + drop <= Sum(before, n, weight)
  {
    if id == n - 1 {
      SumMonotone(before, after, n - 1, weight);
    } else {
      SumDrops(before, after, n - 1, weight, id, drop);
    }
  }

  /** Rows at or above the bound do not count. */
  lemma {:induction false} SumIgnoresBeyond(work: map<nat, WorkRow>, n: nat, weight: WorkRow -> nat, id: nat,
                                            row: WorkRow)
    requires n <= id
    ensures Sum(work[id := row], n, weight) == Sum(work, n, weight)
  {
    if n > 0 { SumIgnoresBeyond(work, n - 1, weight, id, row); }
  }

  // ---- The measure ---------------------------------------------------------------

  /** Tries left to an active row, the one that kills it included. */
  function Tries(row: WorkRow, maxAttempts: int): nat {
    if Active(row) then 1 + Max(0, maxAttempts - row.attempts) else 0
  }

  /** One for an active row that is not at its page's current revision. */
  function Stale(row: WorkRow, current: PageRef -> int): nat {
    if Active(row) && row.key.revision != current(row.key.page) then 1 else 0
  }

  function TriesOf(maxAttempts: int): WorkRow -> nat { row => Tries(row, maxAttempts) }

  function StaleOf(current: PageRef -> int): WorkRow -> nat { row => Stale(row, current) }

  function StaleRows(db: Db, current: PageRef -> int): nat {
    Sum(db.work, db.nextWork, StaleOf(current))
  }

  function TriesLeft(db: Db, maxAttempts: int): nat {
    Sum(db.work, db.nextWork, TriesOf(maxAttempts))
  }

  /** What a queue can cost before it is drained. */
  function Cost(db: Db, current: PageRef -> int, maxAttempts: int): nat {
    TriesLeft(db, maxAttempts) + StaleRows(db, current) * (1 + Max(0, maxAttempts))
  }

  /** Rows that change without gaining weight, with nothing inserted. */
  ghost predicate LosesWeight(before: Db, after: Db, current: PageRef -> int, maxAttempts: int) {
    && after.nextWork == before.nextWork
    && forall id :: id in after.work ==>
         && id in before.work
         && Tries(after.work[id], maxAttempts) <= Tries(before.work[id], maxAttempts)
         && Stale(after.work[id], current) <= Stale(before.work[id], current)
  }

  lemma FinishingOneRow(before: Db, after: Db, id: nat, current: PageRef -> int, maxAttempts: int)
    requires TablesOk(before) && LosesWeight(before, after, current, maxAttempts) && id in before.work
             && Active(before.work[id])
    requires id in after.work ==> Tries(after.work[id], maxAttempts) < Tries(before.work[id], maxAttempts)
    ensures TriesLeft(after, maxAttempts) < TriesLeft(before, maxAttempts)
    ensures StaleRows(after, current) <= StaleRows(before, current)
    ensures (id in after.work ==> !Active(after.work[id]))
            && before.work[id].key.revision != current(before.work[id].key.page)
            ==> StaleRows(after, current) < StaleRows(before, current)
  {
    SumDrops(before.work, after.work, before.nextWork, TriesOf(maxAttempts), id, 1);
    SumMonotone(before.work, after.work, before.nextWork, StaleOf(current));
    if (id in after.work ==> !Active(after.work[id]))
        && before.work[id].key.revision != current(before.work[id].key.page) {
      SumDrops(before.work, after.work, before.nextWork, StaleOf(current), id, 1);
    }
  }

  lemma SweepCosts(db: Db, key: Key, priority: int, now: int, current: PageRef -> int, maxAttempts: int)
    requires TablesOk(db)
    ensures var swept := Sweep(db.work, key, priority, now);
            && Sum(swept, db.nextWork, TriesOf(maxAttempts)) <= TriesLeft(db, maxAttempts)
            && Sum(swept, db.nextWork, StaleOf(current)) <= StaleRows(db, current)
  {
    var swept := Sweep(db.work, key, priority, now);
    SumMonotone(db.work, swept, db.nextWork, TriesOf(maxAttempts));
    SumMonotone(db.work, swept, db.nextWork, StaleOf(current));
  }

  lemma InsertCosts(work: map<nat, WorkRow>, next: nat, row: WorkRow, weight: WorkRow -> nat)
    ensures Sum(work[next := row], next + 1, weight) == Sum(work, next, weight) + weight(row)
  {
    SumIgnoresBeyond(work, next, weight, next, row);
  }

  /** Enqueueing the current revision adds no stale row and at most one full life. */
  lemma EnqueueCurrentCosts(db: Db, now: int, page: PageRef, priority: int, allowCached: bool, current: PageRef -> int,
                            maxAttempts: int)
    requires TablesOk(db)
    ensures var after := Enqueue(db, now, Key(page, current(page)), priority, allowCached);
            && StaleRows(after, current) <= StaleRows(db, current)
            && TriesLeft(after, maxAttempts) <= TriesLeft(db, maxAttempts) + 1 + Max(0, maxAttempts)
  {
    var key := Key(page, current(page));
    var swept, row := Sweep(db.work, key, priority, now), FreshRow(key, priority, now);
    SweepCosts(db, key, priority, now, current, maxAttempts);
    InsertCosts(swept, db.nextWork, row, TriesOf(maxAttempts));
    InsertCosts(swept, db.nextWork, row, StaleOf(current));
  }

  lemma PassKeepsTables(db: Db, pass: Pass, current: PageRef -> int, maxAttempts: int)
    requires TablesOk(db) && Possible(db, pass, current)
    ensures TablesOk(RunPass(db, pass, maxAttempts))
  {
    var claimed := ClaimTx(db, pass.claimAt, pass.id, pass.worker, pass.leaseSeconds);
    assert TablesOk(claimed);
    if pass.outcome.Requeue? {
      var superseded := SupersedeTx(claimed, pass.finishAt, pass.id, pass.outcome.reason);
      assert TablesOk(superseded);
      EnqueueKeepsTables(superseded, pass.finishAt, Key(db.work[pass.id].key.page, pass.outcome.revision),
                         db.work[pass.id].priority);
    } else if pass.outcome.Store? {
      SaveKeepsTables(claimed, ResultRow(db.work[pass.id].key, pass.outcome.answer, pass.finishAt));
    }
  }

  /** Superseding the claimed row loses weight, and so does storing or failing. */
  lemma SupersedingCosts(db: Db, pass: Pass, reason: string, current: PageRef -> int, maxAttempts: int)
    requires TablesOk(db) && Possible(db, pass, current)
    ensures var claimed := ClaimTx(db, pass.claimAt, pass.id, pass.worker, pass.leaseSeconds);
            var after := SupersedeTx(claimed, pass.finishAt, pass.id, reason);
            && TablesOk(after)
            && TriesLeft(after, maxAttempts) < TriesLeft(db, maxAttempts)
            && StaleRows(after, current) <= StaleRows(db, current)
            && (db.work[pass.id].key.revision != current(db.work[pass.id].key.page)
                ==> StaleRows(after, current) < StaleRows(db, current))
  {
    var claimed := ClaimTx(db, pass.claimAt, pass.id, pass.worker, pass.leaseSeconds);
    FinishingOneRow(db, SupersedeTx(claimed, pass.finishAt, pass.id, reason), pass.id, current, maxAttempts);
  }

  lemma StoringOrFailingCosts(db: Db, pass: Pass, current: PageRef -> int, maxAttempts: int)
    requires TablesOk(db) && Possible(db, pass, current) && (pass.outcome.Store? || pass.outcome.Break?)
    ensures var after := RunPass(db, pass, maxAttempts);
            && TriesLeft(after, maxAttempts) < TriesLeft(db, maxAttempts)
            && StaleRows(after, current) <= StaleRows(db, current)
  {
    FinishingOneRow(db, RunPass(db, pass, maxAttempts), pass.id, current, maxAttempts);
  }

  lemma RequeueingCosts(db: Db, pass: Pass, current: PageRef -> int, maxAttempts: int)
    requires TablesOk(db) && Possible(db, pass, current) && pass.outcome.Requeue?
    ensures var after := RunPass(db, pass, maxAttempts);
            && StaleRows(after, current) < StaleRows(db, current)
            && TriesLeft(after, maxAttempts) < TriesLeft(db, maxAttempts) + 1 + Max(0, maxAttempts)
  {
    SupersedingCosts(db, pass, pass.outcome.reason, current, maxAttempts);
    var claimed := ClaimTx(db, pass.claimAt, pass.id, pass.worker, pass.leaseSeconds);
    var superseded := SupersedeTx(claimed, pass.finishAt, pass.id, pass.outcome.reason);
    EnqueueCurrentCosts(superseded, pass.finishAt, db.work[pass.id].key.page, db.work[pass.id].priority, false, current,
                        maxAttempts);
  }

  lemma CostDrops(tries: nat, stale: nat, triesBefore: nat, staleBefore: nat, life: nat)
    requires (stale < staleBefore && tries < triesBefore + life) || (stale <= staleBefore && tries < triesBefore)
    ensures tries + stale * life < triesBefore + staleBefore * life
  {
    if stale == staleBefore {
    } else {
      Arithmetic.MultiplesGrow(stale + 1, staleBefore, life);
      Arithmetic.OneMoreTime(stale, life);
    }
  }

  /**
   * Every pass lowers (stale active rows, tries left) in lexicographic order, and lowers
   * the queue's cost by at least one, the pass that supersedes a row and queues the
   * current revision included.
   */
  lemma PassLowersMeasure(db: Db, pass: Pass, current: PageRef -> int, maxAttempts: int)
    requires TablesOk(db) && Possible(db, pass, current)
    ensures var after := RunPass(db, pass, maxAttempts);
            && (StaleRows(after, current) < StaleRows(db, current)
                || (StaleRows(after, current) == StaleRows(db, current)
                    && TriesLeft(after, maxAttempts) < TriesLeft(db, maxAttempts)))
            && Cost(after, current, maxAttempts) < Cost(db, current, maxAttempts)
  {
    match pass.outcome {
      case Requeue(_, _) => RequeueingCosts(db, pass, current, maxAttempts);
      case Refuse(reason) => SupersedingCosts(db, pass, reason, current, maxAttempts);
      case _ => StoringOrFailingCosts(db, pass, current, maxAttempts);
    }
    var after := RunPass(db, pass, maxAttempts);
    CostDrops(TriesLeft(after, maxAttempts), StaleRows(after, current),
              TriesLeft(db, maxAttempts), StaleRows(db, current), 1 + Max(0, maxAttempts));
  }

  /** A sequence of passes with nothing else feeding the queue. */
  ghost predicate Drains(dbs: seq<Db>, passes: seq<Pass>, current: PageRef -> int, maxAttempts: int) {
    && |dbs| == |passes| + 1
    && forall i :: 0 <= i < |passes| ==>
                     Possible(dbs[i], passes[i], current) && dbs[i + 1] == RunPass(dbs[i], passes[i], maxAttempts)
  }

  /** With revisions frozen and no readers, no more passes than the first queue's cost find work. */
  lemma {:induction false} DrainingIsBounded(dbs: seq<Db>, passes: seq<Pass>, current: PageRef -> int, maxAttempts: int)
    requires Drains(dbs, passes, current, maxAttempts) && TablesOk(dbs[0])
    ensures |passes| + Cost(dbs[|passes|], current, maxAttempts) <= Cost(dbs[0], current, maxAttempts)
    ensures TablesOk(dbs[|passes|])
  {
    if passes != [] {
      var n := |passes| - 1;
      DrainingIsBounded(dbs[..n + 1], passes[..n], current, maxAttempts);
      PassKeepsTables(dbs[n], passes[n], current, maxAttempts);
      PassLowersMeasure(dbs[n], passes[n], current, maxAttempts);
    }
  }

  // ---- What a requeue leaves behind --------------------------------------------------

  /** A pending or leased row of the page at this revision or a later one. */
  predicate Backed(work: map<nat, WorkRow>, key: Key) {
    exists id :: id in work && work[id].key.page == key.page && work[id].key.revision >= key.revision
        && Active(work[id])
  }

  lemma BackedIsKept(before: map<nat, WorkRow>, after: map<nat, WorkRow>, key: Key)
    requires forall id ::
               id in before && Active(before[id]) && before[id].key.page == key.page
               && before[id].key.revision >= key.revision
               ==> id in after && after[id].key == before[id].key && Active(after[id])
    requires Backed(before, key)
    ensures Backed(after, key)
  {
    var id :| id in before && before[id].key.page == key.page && before[id].key.revision >= key.revision
        && Active(before[id]);
    assert after[id].key == before[id].key;
  }

  lemma EnqueueTxBacks(db: Db, now: int, key: Key, priority: int)
    requires TablesOk(db)
    ensures Backed(EnqueueTx(db, now, key, priority).work, key) <==> (Backed(db.work, key) || !HasWork(db.work, key))
  {
    var after := EnqueueTx(db, now, key, priority);
    if HasWork(db.work, key) {
      if Backed(db.work, key) { BackedIsKept(db.work, after.work, key); }
      if Backed(after.work, key) { BackedIsKept(after.work, db.work, key); }
    } else if NewerActive(db.work, key) {
      assert Backed(db.work, key);
    } else {
      assert after.work[db.nextWork] == FreshRow(key, priority, now);
    }
  }

  /**
   * Exactly when a plain enqueue leaves work behind for the revision: it was backed
   * before, or neither a row nor an answer for exactly that revision is stored.
   */
  lemma EnqueueBacks(db: Db, now: int, key: Key, priority: int, allowCached: bool)
    requires TablesOk(db)
    ensures Backed(Enqueue(db, now, key, priority, allowCached).work, key)
            <==> (Backed(db.work, key) || (!HasWork(db.work, key) && (allowCached || !HasResult(db.results, key))))
  {
    EnqueueTxBacks(db, now, key, priority);
  }

  lemma SupersededRowBacksNothing(db: Db, superseded: Db, id: nat, key: Key)
    requires id in db.work && superseded.work.Keys == db.work.Keys
    requires !Active(superseded.work[id]) && superseded.work[id].key == db.work[id].key
    requires forall other :: other in db.work && other != id ==> superseded.work[other] == db.work[other]
    ensures Backed(superseded.work, key) <==> Backed(db.work - {id}, key)
    ensures HasWork(superseded.work, key) <==> HasWork(db.work, key)
  {
    var others := db.work - {id};
    if Backed(superseded.work, key) { BackedIsKept(superseded.work, others, key); }
    if Backed(others, key) { BackedIsKept(others, superseded.work, key); }
    assert forall other :: other in db.work ==> superseded.work[other].key == db.work[other].key;
  }

  /**
   * The worker requeues without asking for a refresh, so a page whose current revision
   * already has a stored answer, however old, gets no job from a pass that found the row
   * stale: it is backed afterwards exactly when it was backed without the claimed row or
   * neither a row nor an answer is stored for the current revision.
   */
  lemma RequeueBacks(db: Db, pass: Pass, current: PageRef -> int, maxAttempts: int)
    requires TablesOk(db) && Possible(db, pass, current) && pass.outcome.Requeue?
    ensures var key := Key(db.work[pass.id].key.page, pass.outcome.revision);
            Backed(RunPass(db, pass, maxAttempts).work, key)
            <==> (Backed(db.work - {pass.id}, key) || (!HasWork(db.work, key) && !HasResult(db.results, key)))
  {
    var key := Key(db.work[pass.id].key.page, pass.outcome.revision);
    var claimed := ClaimTx(db, pass.claimAt, pass.id, pass.worker, pass.leaseSeconds);
    var superseded := SupersedeTx(claimed, pass.finishAt, pass.id, pass.outcome.reason);
    assert TablesOk(superseded);
    EnqueueBacks(superseded, pass.finishAt, key, db.work[pass.id].priority, false);
    SupersededRowBacksNothing(db, superseded, pass.id, key);
  }
}
