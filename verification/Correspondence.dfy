/**
 * The step machines do what the calls do: a worker's pass, a reader's request and an offer of
 * the backfill, taken step by step with nobody in between, leave the tables the calls leave.
 */
module Correspondence {
  import opened Options
  import opened WorkQueue
  import opened QueueRuns
  import opened Draining
  import Endpoints
  import Requests
  import Offering
  import Feeding
  import Replica
  import Walk
  import Backfill
  import Resumption

  // ---- Anybody's transactions -----------------------------------------------------------

  /** In every state of the machine anybody may ask, revive, clean up, crash or wait, and the tables follow the call. */
  lemma NobodyIsHeldBack(s: Sys, key: Key, priority: int, id: nat, worker: string, later: int)
    ensures && Enabled(s, Step.Ask(key, priority)) && Enabled(s, Step.AskRace(key, priority))
            && Apply(s, Step.Ask(key, priority)).db == EnqueueTx(s.db, s.now, key, priority)
            && Apply(s, Step.AskRace(key, priority)).db == EnqueueRaceTx(s.db, s.now, key, priority)
    ensures Enabled(s, Step.Revive(id, priority))
            && Apply(s, Step.Revive(id, priority)).db == ReviveTx(s.db, s.now, id, priority)
    ensures forall queueCutoff, resultCutoff, chosen :: IsCleanupChoice(s.db.results, resultCutoff, chosen) ==>
              && Enabled(s, Step.Cleanup(queueCutoff, resultCutoff, chosen))
              && Apply(s, Step.Cleanup(queueCutoff, resultCutoff, chosen)).db
                 == CleanupTx(s.db, queueCutoff, chosen)
    ensures worker in s.held ==>
              && Enabled(s, Step.Crash(worker))
              && Apply(s, Step.Crash(worker)) == s.(held := s.held - {worker})
    ensures later >= s.now ==> Enabled(s, Step.Tick(later)) && Apply(s, Step.Tick(later)) == s.(now := later)
  {}

  // ---- A worker's pass ------------------------------------------------------------------

  /** The worker has claimed the row, and it is time to end the job. */
  function Working(s: Sys, pass: Pass): Sys
    requires pass.worker !in s.held && pass.id in s.db.work && Claimable(s.db.work[pass.id], s.now)
    requires pass.claimAt == s.now <= pass.finishAt
  {
    var claimed := Apply(s, Step.Claim(pass.worker, pass.id, pass.leaseSeconds));
    Apply(claimed, Step.Tick(pass.finishAt))
  }

  /** Claim, and then save and complete, supersede, supersede and ask, or fail: a pass is these steps. */
  lemma PassIsSteps(s: Sys, pass: Pass, maxAttempts: int)
    requires pass.worker !in s.held && pass.id in s.db.work && Claimable(s.db.work[pass.id], s.now)
    requires pass.claimAt == s.now <= pass.finishAt
    ensures var w, after := Working(s, pass), RunPass(s.db, pass, maxAttempts);
            match pass.outcome
            case Store(answer) =>
              && Enabled(w, Step.Save(pass.worker, answer, pass.finishAt))
              && var saved := Apply(w, Step.Save(pass.worker, answer, pass.finishAt));
                 Enabled(saved, Step.Complete(pass.worker)) && Apply(saved, Step.Complete(pass.worker)).db == after
            case Refuse(reason) =>
              Enabled(w, Step.Supersede(pass.worker, reason))
                  && Apply(w, Step.Supersede(pass.worker, reason)).db == after
            case Requeue(revision, reason) =>
              && Enabled(w, Step.Supersede(pass.worker, reason))
              && var left, key := Apply(w, Step.Supersede(pass.worker, reason)),
                 Key(s.db.work[pass.id].key.page, revision);
                 after == if HasResult(left.db.results, key) then left.db
                          else Apply(left, Step.Ask(key, s.db.work[pass.id].priority)).db
            case Break(failure) =>
              && Enabled(w, Step.Fail(pass.worker, failure, maxAttempts))
              && Apply(w, Step.Fail(pass.worker, failure, maxAttempts)).db == after
  {}

  // ---- A reader's request -----------------------------------------------------------------

  /** What a request does from its look at the row on, with nobody in between. */
  ghost predicate RunsAlone(w: Requests.World, r: nat, seen: Option<nat>, deadRetry: int, looked: Requests.World) {
    && Requests.Can(w, Requests.Look(r, seen, deadRetry))
    && var v := Requests.Follow(w, Requests.Look(r, seen, deadRetry));
       if v.gets[r].stage.Reviving? then
         Requests.Can(v, Requests.Revival(r)) && looked == Requests.Follow(v, Requests.Revival(r))
       else looked == v
  }

  /** An answer is served as it is, unless a request by freshness finds it stale and goes on to refresh it. */
  lemma RequestFindsAsTheEndpoint(w: Requests.World, r: nat, id: nat)
    requires Requests.Can(w, Requests.Find(r, id))
    ensures var get, found := w.gets[r], Requests.Follow(w, Requests.Find(r, id));
            && r in found.gets && found.sys == w.sys && found.gets[r].key == get.key
            && id in w.sys.db.results && w.sys.db.results[id].key.page == get.key.page
            && var row := w.sys.db.results[id];
               if get.version.ByFreshness? && row.computedAt + get.version.freshness <= w.sys.now then
                 && found.gets[r].stage == Requests.Looking && found.gets[r].stale == Some(row)
                 && found.gets[r].foundAt == w.sys.now
               else found.gets[r].stage == Requests.Done(Requests.Served(row))
  {}

  /** When a request decides about a dead row: a refresh goes by the time it found its answer. */
  function DecidesAt(w: Requests.World, r: nat): int
    requires r in w.gets
  {
    if w.gets[r].stale.Some? then w.gets[r].foundAt else w.sys.now
  }

  /** It looks and revives a ripe row as the endpoint does, and is refused only with nothing to serve. */
  lemma RequestLooksAsTheEndpoint(w: Requests.World, r: nat, seen: Option<nat>, deadRetry: int, looked: Requests.World)
    requires Inv(w.sys) && RunsAlone(w, r, seen, deadRetry, looked)
    ensures var key := w.gets[r].key;
            && r in looked.gets && looked.gets[r].key == key && looked.gets[r].version == w.gets[r].version
            && looked.gets[r].stale == w.gets[r].stale && looked.sys.now == w.sys.now
            && Endpoints.Looked(w.sys.db, looked.sys.db, DecidesAt(w, r), key, deadRetry, Moment(Alone, w.sys.now))
            && (looked.gets[r].stage == Requests.Done(Requests.Refused)
                <==> w.gets[r].stale.None? && Endpoints.Refuses(w.sys.db, w.sys.now, key, deadRetry))
            && (looked.gets[r].stage != Requests.Done(Requests.Refused) ==> looked.gets[r].stage == Requests.Checking)
  {
    var key := w.gets[r].key;
    if seen.Some? {
      assert forall id :: id in w.sys.db.work && w.sys.db.work[id].key == key ==> id == seen.value;
      assert Endpoints.RipeRow(w.sys.db, DecidesAt(w, r), key, deadRetry, seen.value)
             <==> Endpoints.Ripe(w.sys.db.work[seen.value], DecidesAt(w, r), deadRetry);
    } else {
      assert forall id :: id in w.sys.db.work ==> w.sys.db.work[id].key != key;
    }
  }

  /** Then it looks for an answer and enqueues as the endpoint does, and serves its stale answer or promises one. */
  lemma RequestAsksAsTheEndpoint(w: Requests.World, r: nat)
    requires r in w.gets && w.gets[r].stage == Requests.Checking
    ensures var get, checked := w.gets[r], Requests.Follow(w, Requests.Check(r));
            && Requests.Can(w, Requests.Check(r)) && r in checked.gets
            && var asked := if checked.gets[r].stage == Requests.Asking then Requests.Follow(checked, Requests.Put(r))
               else checked;
               && r in asked.gets
               && asked.gets[r].stage
                  == Requests.Done(if get.stale.Some? then Requests.Served(get.stale.value) else Requests.Promised)
               && asked.sys.db == match get.version
                    case Exact => Enqueue(w.sys.db, w.sys.now, get.key, Endpoints.READER_PRIORITY, false)
                    case ByFreshness(freshness) =>
                      EnqueueIfStale(w.sys.db, w.sys.now, get.key, Endpoints.READER_PRIORITY, freshness)
  {}

  // ---- An offer of the backfill ---------------------------------------------------------------

  /** A look that finds a fresh answer, or a look and an enqueue: an offer is these deeds. */
  lemma OfferIsDeeds(f: Feeding.Farm, feed: Offering.Feed)
    requires Feeding.HasNext(f) && !f.asking
    ensures var after := Offering.Offer(f.sys.db, f.sys.now, feed, f.job.phase.todo[0]);
            if Feeding.NextIsFresh(f, feed) then
              && Feeding.CanDo(f, Feeding.SeeFresh, feed)
              && Feeding.Did(f, Feeding.SeeFresh, feed).sys.db == after
            else
              && Feeding.CanDo(f, Feeding.SeeStale, feed)
              && var seen := Feeding.Did(f, Feeding.SeeStale, feed);
                 && Feeding.CanDo(seen, Feeding.Enqueue, feed)
                 && Feeding.Did(seen, Feeding.Enqueue, feed).sys.db == after
                 && Feeding.Did(seen, Feeding.Enqueue, feed).job == Resumption.Happen(f.job, Resumption.OfferNext)
  {}

  /** Every page left in the batch in hand is offered. */
  function OfferRest(job: Resumption.Job): Resumption.Job
    requires job.phase.Offering?
    decreases |job.phase.todo|
  {
    if job.phase.todo == [] then job else OfferRest(Resumption.Happen(job, Resumption.OfferNext))
  }

  lemma {:induction false} OfferRestOffersAll(job: Resumption.Job)
    requires job.phase.Offering?
    ensures OfferRest(job) == job.(phase := job.phase.(todo := []), offered := job.offered + job.phase.todo)
    decreases |job.phase.todo|
  {
    if job.phase.todo != [] {
      OfferRestOffersAll(Resumption.Happen(job, Resumption.OfferNext));
      assert job.phase.todo == [job.phase.todo[0]] + job.phase.todo[1..];
      assert job.offered + [job.phase.todo[0]] + job.phase.todo[1..] == job.offered + job.phase.todo;
    }
  }

  /** A fetch, the offers of its pages and the save are one batch as `BackfillBatch` takes it. */
  lemma BatchIsEvents(job: Resumption.Job, table: Replica.PageTable, limit: nat)
    requires job.phase.Fetching? && limit >= 1
    ensures var fetched := Resumption.Happen(job, Resumption.Fetch(table, limit));
            && fetched.phase.Offering?
            && var offered := OfferRest(fetched);
               && Resumption.Possible(offered, Resumption.SaveCursor)
               && var saved, pages := Resumption.Happen(offered, Resumption.SaveCursor),
                  Replica.Batch(table, job.phase.cursor, limit);
                  && saved.offered == job.offered + pages
                  && saved.saved.Some? && Backfill.PositionOf(saved.saved) == Walk.NextPosition(pages, limit)
                  && saved.phase == if |pages| < limit then Resumption.Idle
                     else Resumption.Fetching(Some(Replica.CursorAt(pages[|pages| - 1])))
  {
    var fetched := Resumption.Happen(job, Resumption.Fetch(table, limit));
    OfferRestOffersAll(fetched);
    Backfill.SavedTextIsThePosition(fetched.phase.next);
  }

  // ---- Who goes first ---------------------------------------------------------------------------

  /** While a job a reader waits for is ready, no job at the backfill's priority is claimed. */
  lemma ReadersGoBeforeTheBackfill(work: map<nat, WorkRow>, now: int, locked: set<nat>, claimed: nat, waiting: nat)
    requires IsClaimChoice(work, now, locked, claimed)
    requires waiting in work && waiting !in locked && work[waiting].state.Pending? && work[waiting].availableAt <= now
    requires work[waiting].priority >= Endpoints.READER_PRIORITY
    ensures Endpoints.READER_PRIORITY == 100 && work[claimed].priority > Offering.BACKFILL_PRIORITY == 10
  {
    assert Open(work, now, locked, waiting);
  }

  /** Of two jobs of one priority that are both ready, the older is claimed first. */
  lemma OlderJobsGoFirst(work: map<nat, WorkRow>, now: int, locked: set<nat>, claimed: nat, waiting: nat)
    requires IsClaimChoice(work, now, locked, claimed)
    requires waiting in work && waiting !in locked && work[waiting].state.Pending? && work[waiting].availableAt <= now
    ensures work[waiting].priority <= work[claimed].priority
    ensures work[waiting].priority == work[claimed].priority ==> work[claimed].createdAt <= work[waiting].createdAt
  {
    assert Open(work, now, locked, waiting);
  }
}
