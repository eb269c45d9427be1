/**
 * Draining with any number of workers at once: their transactions interleave in any order,
 * workers crash or hang and others take over their leases, and while nobody feeds the queue
 * only so many transactions can happen.
 */
module Overlap {
  import opened Options
  import opened WorkQueue
  import opened QueueRuns
  import opened QueueSafety
  import opened Draining
  import opened Lives
  import Arithmetic

  /** The queue, and how many current revisions workers have yet to queue. */
  datatype Shift = Shift(sys: Sys, owed: nat)

  datatype Act =
    | Wait(to: int)
    | Crash(worker: string)
    | Take(worker: string, id: nat, leaseSeconds: int)
    | TakeOver(worker: string, id: nat, leaseSeconds: int)  // of a lease that ran out
    | Write(worker: string, answer: Answer, computedAt: int)
    | Done(worker: string)
    | Drop(worker: string, reason: string)
    | MoveOn(worker: string, reason: string)            // drop the row, and owe the current revision
    | GiveUp(worker: string, failure: Failure)
    | Repay(page: PageRef, priority: int, cached: bool)  // queue an owed revision, unless it has an answer

  /** The transaction of an act. */
  function StepFor(act: Act, current: PageRef -> int, maxAttempts: int): Option<Step> {
    match act
    case Wait(to) => Some(Step.Tick(to))
    case Crash(worker) => Some(Step.Crash(worker))
    case Take(worker, id, leaseSeconds) => Some(Step.Claim(worker, id, leaseSeconds))
    case TakeOver(worker, id, leaseSeconds) => Some(Step.Claim(worker, id, leaseSeconds))
    case Write(worker, answer, computedAt) => Some(Step.Save(worker, answer, computedAt))
    case Done(worker) => Some(Step.Complete(worker))
    case Drop(worker, reason) => Some(Step.Supersede(worker, reason))
    case MoveOn(worker, reason) => Some(Step.Supersede(worker, reason))
    case GiveUp(worker, failure) => Some(Step.Fail(worker, failure, maxAttempts))
    case Repay(page, priority, cached) => if cached then None else Some(Step.Ask(Key(page, current(page)), priority))
  }

  /** What workers do within their leases, while revisions stand still. */
  ghost predicate CanAct(s: Shift, act: Act, current: PageRef -> int, maxAttempts: int) {
    && (StepFor(act, current, maxAttempts).Some? ==>
          && Enabled(s.sys, StepFor(act, current, maxAttempts).value)
          && Disciplined(s.sys, StepFor(act, current, maxAttempts).value))
    && match act
       case Take(_, id, _) => s.sys.db.work[id].state.Pending?
       case TakeOver(_, id, _) => s.sys.db.work[id].state.Leased?
       case Write(worker, _, _) => !s.sys.held[worker].saved
       case MoveOn(worker, _) => s.sys.held[worker].lease.key.revision != current(s.sys.held[worker].lease.key.page)
       case Repay(_, _, _) => s.owed >= 1
       case _ => true
  }

  ghost function Acted(s: Shift, act: Act, current: PageRef -> int, maxAttempts: int): Shift
    requires CanAct(s, act, current, maxAttempts)
  {
    var step := StepFor(act, current, maxAttempts);
    Shift(if step.Some? then Apply(s.sys, step.value) else s.sys,
          match act case MoveOn(_, _) => s.owed + 1 case Repay(_, _, _) => s.owed - 1 case _ => s.owed)
  }

  // ---- The measure ----------------------------------------------------------------------

  /** Three for each try left, the one in hand counting two. */
  function Left(row: WorkRow, maxAttempts: int): nat {
    match row.state
    case Pending => 3 * (1 + Max(0, maxAttempts - row.attempts))
    case Leased => 2 + 3 * Max(0, maxAttempts - row.attempts + 1)
    case _ => 0
  }

  /** More than a new row weighs. */
  function Life(maxAttempts: int): nat {
    4 + 3 * Max(0, maxAttempts)
  }

  function Weight(row: WorkRow, current: PageRef -> int, maxAttempts: int): nat {
    Left(row, maxAttempts) + Stale(row, current) * Life(maxAttempts)
  }

  function WeightOf(current: PageRef -> int, maxAttempts: int): WorkRow -> nat {
    row => Weight(row, current, maxAttempts)
  }

  function Total(db: Db, current: PageRef -> int, maxAttempts: int): nat {
    Sum(db.work, db.nextWork, WeightOf(current, maxAttempts))
  }

  /** The workers that have not stored their answer. */
  function Unsaved(s: Sys): set<string> {
    set w | w in s.held && !s.held[w].saved
  }

  function Potential(s: Shift, current: PageRef -> int, maxAttempts: int): nat {
    2 * (Total(s.sys.db, current, maxAttempts) + s.owed * Life(maxAttempts)) + |Unsaved(s.sys)|
  }

  /** No row gains weight, and none is new. */
  ghost predicate NoHeavier(before: Db, after: Db, current: PageRef -> int, maxAttempts: int) {
    && after.nextWork == before.nextWork
    && forall id :: id in after.work ==>
       id in before.work && Weight(after.work[id], current, maxAttempts)
           <= Weight(before.work[id], current, maxAttempts)
  }

  lemma OneRowDrops(before: Db, after: Db, id: nat, drop: nat, current: PageRef -> int, maxAttempts: int)
    requires TablesOk(before) && NoHeavier(before, after, current, maxAttempts) && id in before.work
    requires (if id in after.work then Weight(after.work[id], current, maxAttempts) else 0) + drop
             <= Weight(before.work[id], current, maxAttempts)
    ensures Total(after, current, maxAttempts) + drop <= Total(before, current, maxAttempts)
  {
    SumDrops(before.work, after.work, before.nextWork, WeightOf(current, maxAttempts), id, drop);
  }

  lemma StaleWeighs(row: WorkRow, current: PageRef -> int, maxAttempts: int)
    requires row.state.Leased?
    ensures Weight(row, current, maxAttempts) >= 2
    ensures row.key.revision != current(row.key.page) ==> Weight(row, current, maxAttempts) >= 2 + Life(maxAttempts)
  {}

  lemma ClaimedWeighsNoMore(row: WorkRow, now: int, worker: string, leaseSeconds: int, current: PageRef -> int,
                            maxAttempts: int)
    ensures row.state.Pending? ==>
            Weight(ClaimRow(row, now, worker, leaseSeconds), current, maxAttempts) < Weight(row, current, maxAttempts)
    ensures row.state.Leased? ==>
            Weight(ClaimRow(row, now, worker, leaseSeconds), current, maxAttempts) <= Weight(row, current, maxAttempts)
  {}

  lemma OneMoreUnsaved(s: Sys, t: Sys, worker: string)
    requires forall w :: w in t.held && w != worker ==> w in s.held && t.held[w] == s.held[w]
    ensures |Unsaved(t)| <= |Unsaved(s)| + 1
  {
    Arithmetic.SubsetIsSmaller(Unsaved(t), Unsaved(s) + {worker});
  }

  /** Claiming a pending row lowers the total; taking over a lease does not raise it. */
  lemma TakingCosts(s: Sys, step: Step, current: PageRef -> int, maxAttempts: int)
    requires Inv(s) && Enabled(s, step) && step.Claim?
    ensures var drop := if s.db.work[step.id].state.Pending? then 1 else 0;
            Total(Apply(s, step).db, current, maxAttempts) + drop <= Total(s.db, current, maxAttempts)
    ensures |Unsaved(Apply(s, step))| <= |Unsaved(s)| + 1
  {
    ClaimedWeighsNoMore(s.db.work[step.id], s.now, step.worker, step.leaseSeconds, current, maxAttempts);
    var drop := if s.db.work[step.id].state.Pending? then 1 else 0;
    OneRowDrops(s.db, Apply(s, step).db, step.id, drop, current, maxAttempts);
    OneMoreUnsaved(s, Apply(s, step), step.worker);
  }

  lemma FewerUnsaved(s: Sys, t: Sys)
    requires forall w :: w in t.held ==> w in s.held && t.held[w] == s.held[w]
    ensures |Unsaved(t)| <= |Unsaved(s)|
  {
    Arithmetic.SubsetIsSmaller(Unsaved(t), Unsaved(s));
  }

  /** Who acts in time holds its row. */
  lemma ActorOwns(s: Sys, step: Step)
    requires LeaseSafe(s) && Enabled(s, step) && Disciplined(s, step) && Acts(step)
    ensures Owns(s, step.worker)
  {
    assert Live(s, step.worker);
  }

  lemma WritingCosts(s: Sys, step: Step, current: PageRef -> int, maxAttempts: int)
    requires Enabled(s, step) && step.Save? && !s.held[step.worker].saved
    ensures Total(Apply(s, step).db, current, maxAttempts) == Total(s.db, current, maxAttempts)
    ensures |Unsaved(Apply(s, step))| < |Unsaved(s)|
  {
    assert Unsaved(s) == Unsaved(Apply(s, step)) + {step.worker};
  }

  lemma EndingCosts(s: Sys, step: Step, current: PageRef -> int, maxAttempts: int)
    requires Inv(s) && LeaseSafe(s) && Enabled(s, step) && Disciplined(s, step) && (step.Complete? || step.Supersede?)
    ensures var stale := s.held[step.worker].lease.key.revision != current(s.held[step.worker].lease.key.page);
            Total(Apply(s, step).db, current, maxAttempts) + 2 + (if stale then Life(maxAttempts) else 0)
                <= Total(s.db, current, maxAttempts)
    ensures |Unsaved(Apply(s, step))| <= |Unsaved(s)|
  {
    var lease := s.held[step.worker].lease;
    ActorOwns(s, step);
    StaleWeighs(s.db.work[lease.id], current, maxAttempts);
    var life := if lease.key.revision != current(lease.key.page) then Life(maxAttempts) else 0;
    OneRowDrops(s.db, Apply(s, step).db, lease.id, 2 + life, current, maxAttempts);
    FewerUnsaved(s, Apply(s, step));
  }

  lemma FailingCosts(s: Sys, step: Step, current: PageRef -> int, maxAttempts: int)
    requires Inv(s) && LeaseSafe(s) && Enabled(s, step) && Disciplined(s, step)
    requires step.Fail? && step.maxAttempts == maxAttempts
    ensures Total(Apply(s, step).db, current, maxAttempts) < Total(s.db, current, maxAttempts)
    ensures |Unsaved(Apply(s, step))| <= |Unsaved(s)|
  {
    ActorOwns(s, step);
    OneRowDrops(s.db, Apply(s, step).db, s.held[step.worker].lease.id, 1, current, maxAttempts);
    FewerUnsaved(s, Apply(s, step));
  }

  lemma RepayingCosts(db: Db, now: int, page: PageRef, priority: int, current: PageRef -> int, maxAttempts: int)
    requires TablesOk(db)
    ensures Total(EnqueueTx(db, now, Key(page, current(page)), priority), current, maxAttempts) < Total(db, current,
            maxAttempts) + Life(maxAttempts)
  {
    var key := Key(page, current(page));
    var swept := Sweep(db.work, key, priority, now);
    SumMonotone(db.work, swept, db.nextWork, WeightOf(current, maxAttempts));
    InsertCosts(swept, db.nextWork, FreshRow(key, priority, now), WeightOf(current, maxAttempts));
  }

  lemma RepayLowersPotential(s: Shift, act: Act, current: PageRef -> int, maxAttempts: int)
    requires Inv(s.sys) && CanAct(s, act, current, maxAttempts) && act.Repay?
    ensures Potential(Acted(s, act, current, maxAttempts), current, maxAttempts) < Potential(s, current, maxAttempts)
  {
    Arithmetic.OneMoreTime(s.owed - 1, Life(maxAttempts));
    if !act.cached {
      RepayingCosts(s.sys.db, s.sys.now, act.page, act.priority, current, maxAttempts);
    }
  }

  /** Waiting and crashing are no transactions. */
  predicate IsTransaction(act: Act) {
    !act.Wait? && !act.Crash?
  }

  /** Every transaction lowers the potential, but for taking over a lease, which raises it by one at most. */
  lemma ActMovesPotential(s: Shift, act: Act, current: PageRef -> int, maxAttempts: int)
    requires Inv(s.sys) && LeaseSafe(s.sys) && CanAct(s, act, current, maxAttempts)
    ensures var before, after := Potential(s, current, maxAttempts),
            Potential(Acted(s, act, current, maxAttempts), current, maxAttempts);
            if act.TakeOver? then after <= before + 1
            else if IsTransaction(act) then after < before
            else after <= before
  {
    var step, t, life := StepFor(act, current, maxAttempts), Acted(s, act, current, maxAttempts), Life(maxAttempts);
    match act
    case Wait(_) =>
    case Crash(_) => FewerUnsaved(s.sys, t.sys);
    case Take(_, _, _) => TakingCosts(s.sys, step.value, current, maxAttempts);
    case TakeOver(_, _, _) => TakingCosts(s.sys, step.value, current, maxAttempts);
    case Write(_, _, _) => WritingCosts(s.sys, step.value, current, maxAttempts);
    case GiveUp(_, _) => FailingCosts(s.sys, step.value, current, maxAttempts);
    case MoveOn(_, _) =>
      EndingCosts(s.sys, step.value, current, maxAttempts);
      Arithmetic.OneMoreTime(s.owed, life);
    case Repay(_, _, _) => RepayLowersPotential(s, act, current, maxAttempts);
    case _ => EndingCosts(s.sys, step.value, current, maxAttempts);
  }

  lemma ActKeepsInv(s: Shift, act: Act, current: PageRef -> int, maxAttempts: int)
    requires Inv(s.sys) && LeaseSafe(s.sys) && CanAct(s, act, current, maxAttempts)
    ensures Inv(Acted(s, act, current, maxAttempts).sys) && LeaseSafe(Acted(s, act, current, maxAttempts).sys)
  {
    var step := StepFor(act, current, maxAttempts);
    if step.Some? {
      StepKeepsInv(s.sys, step.value);
      StepKeepsLeases(s.sys, step.value);
    }
  }

  // ---- Whole shifts ------------------------------------------------------------------------

  ghost predicate Worked(shifts: seq<Shift>, acts: seq<Act>, current: PageRef -> int, maxAttempts: int, i: nat)
    requires |shifts| == |acts| + 1 && i < |acts|
  {
    CanAct(shifts[i], acts[i], current, maxAttempts) && shifts[i + 1] == Acted(shifts[i], acts[i], current, maxAttempts)
  }

  ghost predicate IsShiftWork(shifts: seq<Shift>, acts: seq<Act>, current: PageRef -> int, maxAttempts: int) {
    && |shifts| == |acts| + 1
    && Inv(shifts[0].sys) && LeaseSafe(shifts[0].sys)
    && forall i :: 0 <= i < |acts| ==> Worked(shifts, acts, current, maxAttempts, i)
  }

  function Transactions(acts: seq<Act>): nat {
    if acts == [] then 0 else Transactions(acts[..|acts| - 1]) + if IsTransaction(acts[|acts| - 1]) then 1 else 0
  }

  function TakeOvers(acts: seq<Act>): nat {
    if acts == [] then 0 else TakeOvers(acts[..|acts| - 1]) + if acts[|acts| - 1].TakeOver? then 1 else 0
  }

  /**
   * However many workers there are, whichever crash or hang, and however their transactions
   * interleave: with revisions standing still and nobody else feeding the queue, no more
   * transactions happen than the first state's potential and two for each lease taken over,
   * the requeues included.
   */
  lemma {:induction false} OverlappingWorkIsBounded(shifts: seq<Shift>, acts: seq<Act>, current: PageRef -> int,
                                                    maxAttempts: int, n: nat)
    requires IsShiftWork(shifts, acts, current, maxAttempts) && n < |shifts|
    ensures Inv(shifts[n].sys) && LeaseSafe(shifts[n].sys)
    ensures Transactions(acts[..n]) + Potential(shifts[n], current, maxAttempts)
         <= Potential(shifts[0], current, maxAttempts) + 2 * TakeOvers(acts[..n])
  {
    if n > 0 {
      OverlappingWorkIsBounded(shifts, acts, current, maxAttempts, n - 1);
      var s, act := shifts[n - 1], acts[n - 1];
      assert Worked(shifts, acts, current, maxAttempts, n - 1);
      ActKeepsInv(s, act, current, maxAttempts);
      ActMovesPotential(s, act, current, maxAttempts);
      assert acts[..n][..n - 1] == acts[..n - 1];
    }
  }
}
