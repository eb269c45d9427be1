/**
 * Reader requests as they run (app.py, enqueue in repository.py): each request is a series
 * of transactions, and workers, cleanups and other requests run between any two of them.
 */
module Requests {
  import opened Options
  import opened WorkQueue
  import opened QueueRuns
  import Draining
  import Endpoints

  /** v1 asks for one revision, v2 for the newest answer and how fresh it is. */
  datatype Version = Exact | ByFreshness(freshness: int)

  datatype Reply = Served(row: ResultRow) | Refused | Promised

  /** The transaction that comes next, or the reply. */
  datatype Stage = Finding | Looking | Reviving(id: nat) | Checking | Asking | Retrying | Done(reply: Reply)

  /** `stale` is the answer a v2 request goes on to refresh; `failed` the rows failed since it looked. */
  datatype Get = Get(key: Key, version: Version, stale: Option<ResultRow>, foundAt: int, stage: Stage, failed: set<nat>)

  datatype World = World(sys: Sys, gets: map<nat, Get>)

  datatype Event =
    | Other(step: Step)                                 // anybody else's transaction
    | Arrive(r: nat, key: Key, version: Version)
    | Find(r: nat, answer: nat)                             // an answer is there
    | Miss(r: nat)
    | Look(r: nat, seen: Option<nat>, deadRetry: int)     // the row of the key, if any
    | Revival(r: nat)
    | Check(r: nat)                                     // enqueue's own look for an answer
    | Put(r: nat)                                       // the enqueue transaction
    | Lose(r: nat)                                      // another session inserted the key first
    | Retry(r: nat)                                     // the fallback then

  /** The answer that makes enqueue return without queueing. */
  predicate Answered(db: Db, key: Key, version: Version, now: int) {
    match version
    case Exact => HasResult(db.results, key)
    case ByFreshness(freshness) => FreshSince(db.results, key.page, now - freshness)
  }

  ghost predicate IsAnswer(db: Db, key: Key, version: Version, id: nat) {
    match version
    case Exact => id in db.results && db.results[id].key == key
    case ByFreshness(_) => IsLatest(db.results, key.page, id)
  }

  predicate AtStage(w: World, r: nat, stage: Stage) {
    r in w.gets && w.gets[r].stage == stage
  }

  ghost predicate Can(w: World, e: Event) {
    match e
    case Other(step) => Enabled(w.sys, step)
    case Arrive(r, _, _) => r !in w.gets
    case Find(r, id) => AtStage(w, r, Finding) && IsAnswer(w.sys.db, w.gets[r].key, w.gets[r].version, id)
    case Miss(r) => AtStage(w, r, Finding) && forall id :: !IsAnswer(w.sys.db, w.gets[r].key, w.gets[r].version, id)
    case Look(r, id, _) =>
      && AtStage(w, r, Looking)
      && if id.Some? then id.value in w.sys.db.work && w.sys.db.work[id.value].key == w.gets[r].key
         else !HasWork(w.sys.db.work, w.gets[r].key)
    case Revival(r) => r in w.gets && w.gets[r].stage.Reviving?
    case Check(r) => AtStage(w, r, Checking)
    case Put(r) => AtStage(w, r, Asking)
    case Lose(r) => AtStage(w, r, Asking) && HasWork(w.sys.db.work, w.gets[r].key)
    case Retry(r) => AtStage(w, r, Retrying)
  }

  /** What the request does to the queue, if the event is its own and writes. */
  function StepOf(w: World, e: Event): Option<Step> {
    match e
    case Other(step) => Some(step)
    case Revival(r) => if r in w.gets
        && w.gets[r].stage.Reviving? then Some(Revive(w.gets[r].stage.id, Endpoints.READER_PRIORITY)) else None
    case Put(r) => if r in w.gets then Some(Ask(w.gets[r].key, Endpoints.READER_PRIORITY)) else None
    case Retry(r) => if r in w.gets then Some(AskRace(w.gets[r].key, Endpoints.READER_PRIORITY)) else None
    case _ => None
  }

  function ReplyOf(get: Get): Stage {
    Done(if get.stale.Some? then Served(get.stale.value) else Promised)
  }

  function FindStage(get: Get, row: ResultRow, now: int): Get {
    if get.version.Exact? || row.computedAt + get.version.freshness > now then get.(stage := Done(Served(row)))
    else get.(stage := Looking, stale := Some(row), foundAt := now)
  }

  /** A dead row is revived if it is ripe; if not, only a request with nothing to serve is refused. */
  function LookStage(get: Get, id: Option<nat>, db: Db, now: int, deadRetry: int): Get
    requires id.Some? ==> id.value in db.work
  {
    var look := get.(failed := {});
    if id.None? || !db.work[id.value].state.Dead? then look.(stage := Checking)
    else if Endpoints.Ripe(db.work[id.value], if get.stale.Some? then get.foundAt else now, deadRetry)
        then look.(stage := Reviving(id.value))
    else look.(stage := if get.stale.Some? then Checking else Done(Refused))
  }

  function NextGet(w: World, e: Event): Get
    requires Can(w, e) && !e.Other?
  {
    match e
    case Arrive(_, key, version) => Get(key, version, None, 0, Finding, {})
    case Find(r, id) => FindStage(w.gets[r], w.sys.db.results[id], w.sys.now)
    case Miss(r) => w.gets[r].(stage := Looking)
    case Look(r, id, deadRetry) => LookStage(w.gets[r], id, w.sys.db, w.sys.now, deadRetry)
    case Revival(r) => w.gets[r].(stage := Checking)
    case Check(r) =>
      w.gets[r].(stage := if Answered(w.sys.db, w.gets[r].key, w.gets[r].version, w.sys.now) then ReplyOf(w.gets[r])
                 else Asking)
    case Put(r) => w.gets[r].(stage := ReplyOf(w.gets[r]))
    case Lose(r) => w.gets[r].(stage := Retrying)
    case Retry(r) => w.gets[r].(stage := ReplyOf(w.gets[r]))
  }

  /** The row a step fails. */
  function FailedBy(s: Sys, step: Step): set<nat> {
    if step.Fail? && step.worker in s.held then {s.held[step.worker].lease.id} else {}
  }

  function SysAfter(w: World, e: Event): Sys
    requires Can(w, e)
  {
    if StepOf(w, e).Some? then Apply(w.sys, StepOf(w, e).value) else w.sys
  }

  function Follow(w: World, e: Event): World
    requires Can(w, e)
  {
    World(SysAfter(w, e),
          match e
          case Other(step) => map r | r in w.gets :: w.gets[r].(failed := w.gets[r].failed + FailedBy(w.sys, step))
          case _ => w.gets[e.r := NextGet(w, e)])
  }

  ghost predicate Moved(worlds: seq<World>, events: seq<Event>, i: nat)
    requires |worlds| == |events| + 1 && i < |events|
  {
    Can(worlds[i], events[i]) && worlds[i + 1] == Follow(worlds[i], events[i])
  }

  ghost predicate IsWorldRun(worlds: seq<World>, events: seq<Event>) {
    && |worlds| == |events| + 1
    && Initial(worlds[0].sys) && worlds[0].gets == map[]
    && forall i :: 0 <= i < |events| ==> Moved(worlds, events, i)
  }

  // ---- What a request knows ---------------------------------------------------------------

  predicate DeadRow(db: Db, key: Key, id: nat) {
    id in db.work && db.work[id].key == key && db.work[id].state.Dead?
  }

  /** Every dead row of the key was failed since the request looked, or is the one it saw. */
  ghost predicate DeadAreFailed(s: Sys, get: Get, seen: set<nat>) {
    forall id :: DeadRow(s.db, get.key, id) ==> id in get.failed || id in seen
  }

  ghost predicate GetOk(s: Sys, get: Get) {
    match get.stage
    case Reviving(id) =>
      id < s.db.nextWork && (id in s.db.work ==> s.db.work[id].key == get.key) && DeadAreFailed(s, get, {id})
    case Checking => get.stale.None? ==> DeadAreFailed(s, get, {})
    case Asking => get.stale.None? ==> DeadAreFailed(s, get, {})
    case Retrying => get.stale.None? ==> DeadAreFailed(s, get, {})
    case _ => true
  }

  ghost predicate WorldOk(w: World) {
    Inv(w.sys) && forall r :: r in w.gets ==> GetOk(w.sys, w.gets[r])
  }

  /** A row becomes dead only by a failure of its own. */
  lemma DeadOnlyByFail(s: Sys, step: Step, key: Key, id: nat)
    requires Inv(s) && Enabled(s, step) && DeadRow(Apply(s, step).db, key, id)
    ensures DeadRow(s.db, key, id) || id in FailedBy(s, step)
  {
    if step.Ask? {
      EnqueueKeepsTables(s.db, s.now, step.key, step.priority);
    }
  }

  lemma RowKeepsKey(s: Sys, step: Step, id: nat)
    requires Inv(s) && Enabled(s, step) && id < s.db.nextWork && id in Apply(s, step).db.work
    ensures id in s.db.work && Apply(s, step).db.work[id].key == s.db.work[id].key
  {
    if step.Ask? {
      EnqueueKeepsTables(s.db, s.now, step.key, step.priority);
    } else {
      EveryStepButAskShrinks(s, step);
    }
  }

  lemma IdsGrow(s: Sys, step: Step)
    requires Inv(s) && Enabled(s, step)
    ensures s.db.nextWork <= Apply(s, step).db.nextWork
  {
    if !step.Ask? {
      EveryStepButAskShrinks(s, step);
    }
  }

  lemma StepKeepsGet(s: Sys, step: Step, get: Get, failed: set<nat>)
    requires Inv(s) && Enabled(s, step) && GetOk(s, get) && get.failed + FailedBy(s, step) <= failed
    ensures GetOk(Apply(s, step), get.(failed := failed))
  {
    var t := Apply(s, step);
    forall id | DeadRow(t.db, get.key, id)
      ensures id in failed || DeadRow(s.db, get.key, id)
    {
      DeadOnlyByFail(s, step, get.key, id);
    }
    if get.stage.Reviving? {
      IdsGrow(s, step);
      if get.stage.id in t.db.work {
        RowKeepsKey(s, step, get.stage.id);
      }
    }
  }

  /** Looking at the row leaves no other dead row of the key unexplained. */
  lemma LookIsOk(w: World, e: Event)
    requires Inv(w.sys) && Can(w, e) && e.Look?
    ensures GetOk(w.sys, NextGet(w, e))
  {
    var get := w.gets[e.r];
    if e.seen.Some? {
      assert forall id :: DeadRow(w.sys.db, get.key, id) ==> id == e.seen.value;
    } else {
      assert forall id :: !DeadRow(w.sys.db, get.key, id);
    }
  }

  lemma RevivalIsOk(w: World, e: Event)
    requires WorldOk(w) && Can(w, e) && e.Revival?
    ensures GetOk(SysAfter(w, e), NextGet(w, e))
  {
    var get, s := w.gets[e.r], w.sys;
    var step := Revive(get.stage.id, Endpoints.READER_PRIORITY);
    assert GetOk(s, get);
    StepKeepsGet(s, step, get, get.failed);
    assert !DeadRow(Apply(s, step).db, get.key, get.stage.id);
  }

  lemma OwnEventIsOk(w: World, e: Event)
    requires WorldOk(w) && Can(w, e) && !e.Other?
    ensures GetOk(SysAfter(w, e), NextGet(w, e))
  {
    match e
    case Look(_, _, _) => LookIsOk(w, e);
    case Revival(_) => RevivalIsOk(w, e);
    case Check(r) => assert GetOk(w.sys, w.gets[r]);
    case Lose(r) => assert GetOk(w.sys, w.gets[r]);
    case _ =>
  }

  lemma EventKeepsWorld(w: World, e: Event)
    requires WorldOk(w) && Can(w, e)
    ensures WorldOk(Follow(w, e))
  {
    var v, step := Follow(w, e), StepOf(w, e);
    if step.Some? {
      StepKeepsInv(w.sys, step.value);
    }
    forall r | r in v.gets
      ensures GetOk(v.sys, v.gets[r])
    {
      if !e.Other? && r == e.r {
        OwnEventIsOk(w, e);
      } else {
        assert GetOk(w.sys, w.gets[r]);
        if step.Some? {
          StepKeepsGet(w.sys, step.value, w.gets[r], v.gets[r].failed);
          assert v.gets[r] == w.gets[r].(failed := v.gets[r].failed);
        }
      }
    }
  }

  /** In every reachable state the queue's invariants hold and requests know what they know. */
  lemma {:induction false} WorldRunsAreOk(worlds: seq<World>, events: seq<Event>, n: nat)
    requires IsWorldRun(worlds, events) && n < |worlds|
    ensures WorldOk(worlds[n])
  {
    if n > 0 {
      WorldRunsAreOk(worlds, events, n - 1);
      assert Moved(worlds, events, n - 1);
      EventKeepsWorld(worlds[n - 1], events[n - 1]);
    }
  }

  // ---- What is behind a 202 ------------------------------------------------------------------

  /** The event by which a request gets to promise an answer. */
  ghost predicate Promises(w: World, e: Event) {
    && Can(w, e) && (e.Check? || e.Put? || e.Retry?)
    && NextGet(w, e).stage == Done(Promised)
  }

  /** The key's row was superseded, or failed since the request looked. */
  predicate EndedSince(db: Db, get: Get) {
    exists id :: id in db.work && db.work[id].key == get.key
                 && (db.work[id].state.Superseded? || (db.work[id].state.Dead? && id in get.failed))
  }

  lemma EndedIsEndedSince(s: Sys, get: Get)
    requires DeadAreFailed(s, get, {})
    ensures EndedSince(s.db, get) <==> Endpoints.EndedRow(s.db.work, get.key)
  {
    if Endpoints.EndedRow(s.db.work, get.key) {
      var id :| id in s.db.work && s.db.work[id].key == get.key && !Active(s.db.work[id]);
      assert s.db.work[id].state.Dead? ==> DeadRow(s.db, get.key, id);
    }
    if EndedSince(s.db, get) {
      var id :| id in s.db.work && s.db.work[id].key == get.key
                && (s.db.work[id].state.Superseded? || (s.db.work[id].state.Dead? && id in get.failed));
      assert !Active(s.db.work[id]);
    }
  }

  lemma PutLeavesNoJobIff(w: World, e: Event)
    requires WorldOk(w) && Promises(w, e) && e.Put?
    ensures var get, before, after := w.gets[e.r], w.sys.db, SysAfter(w, e).db;
            && (!Draining.Backed(after.work, get.key)
                <==> EndedSince(before, get) && !NewerActive(before.work, get.key))
            && (!Draining.Backed(after.work, get.key) ==> EndedSince(after, get))
  {
    var get, db := w.gets[e.r], w.sys.db;
    assert GetOk(w.sys, get);
    Endpoints.AskingLeavesNoJobIff(db, w.sys.now, get.key);
    EndedIsEndedSince(w.sys, get);
    var after := SysAfter(w, e);
    if !Draining.Backed(after.db.work, get.key) {
      StepKeepsInv(w.sys, Ask(get.key, Endpoints.READER_PRIORITY));
      StepKeepsGet(w.sys, Ask(get.key, Endpoints.READER_PRIORITY), get, get.failed);
      EndedIsEndedSince(after, get);
    }
  }

  /** The enqueue transaction leaves a row of the key, unless it declines behind a newer one. */
  lemma PutLeavesARow(db: Db, now: int, key: Key)
    ensures HasWork(EnqueueTx(db, now, key, Endpoints.READER_PRIORITY).work, key)
            || NewerActive(EnqueueTx(db, now, key, Endpoints.READER_PRIORITY).work, key)
  {
    var after := EnqueueTx(db, now, key, Endpoints.READER_PRIORITY);
    if HasWork(db.work, key) {
      var id :| id in db.work && db.work[id].key == key;
      assert after.work[id].key == key;
    } else if !NewerActive(db.work, key) {
      assert after.work[db.nextWork].key == key;
    }
  }

  /** A request about to promise knows of every dead row of its key. */
  lemma PromiserKnowsDeadRows(w: World, e: Event)
    requires WorldOk(w) && Promises(w, e)
    ensures Inv(SysAfter(w, e)) && DeadAreFailed(SysAfter(w, e), w.gets[e.r], {})
  {
    assert GetOk(w.sys, w.gets[e.r]);
    if StepOf(w, e).Some? {
      StepKeepsInv(w.sys, StepOf(w, e).value);
      StepKeepsGet(w.sys, StepOf(w, e).value, w.gets[e.r], w.gets[e.r].failed);
    }
  }

  /** A key's work is active, newer, ended or not there. */
  lemma BackedOrEnded(db: Db, key: Key)
    ensures !Draining.Backed(db.work, key) ==>
            !NewerActive(db.work, key) && (Endpoints.EndedRow(db.work, key) || !HasWork(db.work, key))
  {
    if HasWork(db.work, key) && !Endpoints.EndedRow(db.work, key) {
      var id :| id in db.work && db.work[id].key == key;
      assert Active(db.work[id]);
    }
  }

  lemma OneRowPerKey(db: Db, key: Key)
    requires TablesOk(db) && Draining.Backed(db.work, key) && !NewerActive(db.work, key)
    ensures HasWork(db.work, key) && !Endpoints.EndedRow(db.work, key)
  {
    var id :| id in db.work && db.work[id].key.page == key.page && db.work[id].key.revision >= key.revision
        && Active(db.work[id]);
    assert db.work[id].key == key;
  }

  lemma PromiseIff(w: World, e: Event)
    requires WorldOk(w) && Promises(w, e)
    ensures var get, after := w.gets[e.r], SysAfter(w, e).db;
            && (!Draining.Backed(after.work, get.key)
                <==> !NewerActive(after.work, get.key) && (EndedSince(after, get) || !HasWork(after.work, get.key)))
            && (!Draining.Backed(after.work, get.key) && !HasWork(after.work, get.key) ==>
                  e.Retry? || (e.Check? && Answered(w.sys.db, get.key, get.version, w.sys.now)))
  {
    var key, t := w.gets[e.r].key, SysAfter(w, e);
    PromiserKnowsDeadRows(w, e);
    EndedIsEndedSince(t, w.gets[e.r]);
    BackedOrEnded(t.db, key);
    if Draining.Backed(t.db.work, key) && !NewerActive(t.db.work, key) {
      OneRowPerKey(t.db, key);
    }
    if e.Put? {
      PutLeavesARow(w.sys.db, w.sys.now, key);
    }
  }

  /**
   * In every run, at the transaction that decides a 202: there is no active row of the page
   * at the revision or later exactly when nothing newer is active and either the requested
   * row has ended, superseded or failed by a worker since the request looked, or there is no
   * such row. There being no row, the request found that an answer had come in meanwhile,
   * or the row it lost its insert to has left the queue since.
   */
  lemma UnbackedPromiseIff(worlds: seq<World>, events: seq<Event>, n: nat)
    requires IsWorldRun(worlds, events) && n < |events| && Promises(worlds[n], events[n])
    ensures var e := events[n];
            var get, after := worlds[n].gets[e.r], worlds[n + 1].sys.db;
            && (!Draining.Backed(after.work, get.key)
                <==> !NewerActive(after.work, get.key) && (EndedSince(after, get) || !HasWork(after.work, get.key)))
            && (!Draining.Backed(after.work, get.key) && !HasWork(after.work, get.key) ==>
                  e.Retry? || (e.Check? && Answered(worlds[n].sys.db, get.key, get.version, worlds[n].sys.now)))
            && (e.Put? ==> (!Draining.Backed(after.work, get.key)
                            <==> EndedSince(worlds[n].sys.db, get) && !NewerActive(worlds[n].sys.db.work, get.key)))
  {
    WorldRunsAreOk(worlds, events, n);
    assert Moved(worlds, events, n);
    PromiseIff(worlds[n], events[n]);
    if events[n].Put? {
      PutLeavesNoJobIff(worlds[n], events[n]);
    }
  }
}
