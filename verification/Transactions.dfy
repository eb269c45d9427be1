/**
 * What each transaction of the queue leaves, row by row and field by field, and what that
 * means for who may claim a row and when. Nothing here is said through the functions that
 * WorkQueue builds the transactions from.
 */
module Transactions {
  import opened Options
  import opened WorkQueue

  // ---- Enqueue --------------------------------------------------------------------------

  /**
   * Rows of other pages, of the same or later revisions, and rows not pending, are left
   * alone; the rest is superseded.
   */
  lemma EnqueueTreatsOthers(db: Db, now: int, key: Key, priority: int, id: nat)
    requires TablesOk(db) && id in db.work && db.work[id].key != key
    ensures var before, after := db.work[id], EnqueueTx(db, now, key, priority);
            var goes := exists asked :: asked in db.work && db.work[asked].key == key;
            var newer := exists other :: other in db.work && db.work[other].key.page == key.page
                                         && db.work[other].key.revision > key.revision
                                         && (db.work[other].state.Pending? || db.work[other].state.Leased?);
            && id in after.work
            && after.work[id]
               == if (goes || !newer) && before.key.page == key.page && before.key.revision < key.revision
                   && before.state.Pending?
                  then before.(state := Superseded, updatedAt := now) else before
  {
    var newer := exists other :: other in db.work && db.work[other].key.page == key.page
                                 && db.work[other].key.revision > key.revision
                                 && (db.work[other].state.Pending? || db.work[other].state.Leased?);
    assert HasWork(db.work, key) <==> exists asked :: asked in db.work && db.work[asked].key == key;
    assert NewerActive(db.work, key) <==> newer by {
      if newer {
        var other :| other in db.work && db.work[other].key.page == key.page
            && db.work[other].key.revision > key.revision
                     && (db.work[other].state.Pending? || db.work[other].state.Leased?);
        assert Active(db.work[other]);
      }
    }
  }

  /** A row of the key that is at work gets the larger priority; one that has ended stays as it is. */
  lemma EnqueueTreatsItsRow(db: Db, now: int, key: Key, priority: int, id: nat)
    requires TablesOk(db) && id in db.work && db.work[id].key == key
    ensures var before, after := db.work[id], EnqueueTx(db, now, key, priority);
            && after.work.Keys == db.work.Keys && after.results == db.results && after.nextWork == db.nextWork
            && (before.state.Dead? || before.state.Superseded? ==> after.work[id] == before)
            && (before.state.Pending? || before.state.Leased? ==>
                  && after.work[id] == before.(priority := after.work[id].priority, updatedAt := now)
                  && after.work[id].priority >= priority && after.work[id].priority >= before.priority
                  && (after.work[id].priority == priority || after.work[id].priority == before.priority))
  {
    assert HasWork(db.work, key);
  }

  /** A new row may be claimed at once, by anyone, and carries nothing of the past. */
  lemma EnqueueAddsAReadyRow(db: Db, now: int, key: Key, priority: int) returns (id: nat)
    requires TablesOk(db)
    requires forall other :: other in db.work ==> db.work[other].key != key
    requires forall other ::
               other in db.work && db.work[other].key.page == key.page && db.work[other].key.revision > key.revision
               ==> db.work[other].state.Dead? || db.work[other].state.Superseded?
    ensures var after := EnqueueTx(db, now, key, priority);
            && id !in db.work && after.work.Keys == db.work.Keys + {id} && after.results == db.results
            && var row := after.work[id];
               && row.key == key && row.priority == priority && row.state.Pending? && row.attempts == 0
               && row.createdAt == now && row.updatedAt == now && !row.isPermanent
               && row.leaseUntil.None? && row.workerId.None? && row.errorCode.None? && row.lastError.None?
               && forall t :: Claimable(row, t) <==> t >= now
  {
    id := db.nextWork;
    assert !HasWork(db.work, key) && !NewerActive(db.work, key);
    assert EnqueueTx(db, now, key, priority).work.Keys == db.work.Keys + {id};
  }

  /** Behind newer work nothing changes. */
  lemma EnqueueDeclinesBehindNewerWork(db: Db, now: int, key: Key, priority: int, newer: nat)
    requires newer in db.work && db.work[newer].key.page == key.page && db.work[newer].key.revision > key.revision
    requires db.work[newer].state.Pending? || db.work[newer].state.Leased?
    requires forall other :: other in db.work ==> db.work[other].key != key
    ensures EnqueueTx(db, now, key, priority) == db
  {
    assert Active(db.work[newer]);
    assert NewerActive(db.work, key) && !HasWork(db.work, key);
  }

  /** The fallback after an insert race touches priority and time of the key's row only. */
  lemma RaceTouchesPriorityOnly(db: Db, now: int, key: Key, priority: int, id: nat)
    requires id in db.work
    ensures var after := EnqueueRaceTx(db, now, key, priority);
            && after.work.Keys == db.work.Keys && after.results == db.results && after.nextWork == db.nextWork
            && after.work[id] == if db.work[id].key == key then db.work[id].(priority := priority, updatedAt := now)
               else db.work[id]
  {}

  /** Nothing is queued for a page with an answer no older than the window, and otherwise the queue is asked. */
  lemma FreshPagesAreNotQueued(db: Db, now: int, key: Key, priority: int, freshness: int)
    ensures var isFresh := exists id :: id in db.results && db.results[id].key.page == key.page
                                      && db.results[id].computedAt + freshness >= now;
            EnqueueIfStale(db, now, key, priority, freshness) == if isFresh then db
                else EnqueueTx(db, now, key, priority)
  {
    var isFresh := exists id :: id in db.results && db.results[id].key.page == key.page
                              && db.results[id].computedAt + freshness >= now;
    if isFresh {
      var id :| id in db.results && db.results[id].key.page == key.page && db.results[id].computedAt + freshness >= now;
      assert db.results[id].computedAt >= now - freshness;
    } else {
      forall id | id in db.results && db.results[id].key.page == key.page
        ensures db.results[id].computedAt < now - freshness
      {
        assert !(db.results[id].computedAt + freshness >= now);
      }
    }
  }

  // ---- Leases -----------------------------------------------------------------------------

  /** Pending rows may be claimed from their time on, leased ones once the lease is past; others never. */
  lemma WhenRowsAreClaimable(row: WorkRow, now: int)
    ensures row.state.Pending? ==> (Claimable(row, now) <==> now >= row.availableAt)
    ensures row.state.Leased? ==> (Claimable(row, now) <==> row.leaseUntil.Some? && now > row.leaseUntil.value)
    ensures row.state.Dead? || row.state.Superseded? ==> !Claimable(row, now)
  {}

  /** A claimed row is the worker's for the length of the lease, and has one attempt more. */
  lemma ClaimedRowIsHeld(db: Db, now: int, id: nat, worker: string, leaseSeconds: int)
    requires id in db.work
    ensures var after := ClaimTx(db, now, id, worker, leaseSeconds);
            && after.results == db.results && after.nextWork == db.nextWork && after.work.Keys == db.work.Keys
            && (forall other :: other in db.work && other != id ==> after.work[other] == db.work[other])
            && var row, was := after.work[id], db.work[id];
               && row.state.Leased? && row.workerId == Some(worker) && row.attempts == was.attempts + 1
               && row.key == was.key && row.priority == was.priority && row.createdAt == was.createdAt
                  && row.updatedAt == now
               && row.isPermanent == was.isPermanent && row.errorCode == was.errorCode
               && row.leaseUntil == Some(now + leaseSeconds)
               && (forall t :: Claimable(row, t) <==> t > now + leaseSeconds)
               && LeaseOf(id, row) == WorkLease(id, was.key, was.priority, was.attempts + 1)
  {}

  /** Completing takes exactly the leased row away. */
  lemma CompleteRemovesOneRow(db: Db, id: nat)
    ensures var after := CompleteTx(db, id);
            && after.results == db.results && after.work.Keys == db.work.Keys - {id}
            && forall other :: other in after.work ==> after.work[other] == db.work[other]
  {}

  /** A superseded row keeps what it is and why, and nobody claims it again. */
  lemma SupersededRowIsOut(db: Db, now: int, id: nat, reason: string)
    ensures var after := SupersedeTx(db, now, id, reason);
            && after.results == db.results && after.nextWork == db.nextWork && after.work.Keys == db.work.Keys
            && (forall other :: other in db.work && other != id ==> after.work[other] == db.work[other])
            && (id in db.work ==>
                  var row, was := after.work[id], db.work[id];
                  && row.state.Superseded? && row.leaseUntil.None? && row.workerId.None? && row.updatedAt == now
                  && row.key == was.key && row.attempts == was.attempts && row.priority == was.priority
                  && row.errorCode == Some("revision_superseded")
                  && row.lastError.Some? && row.lastError.value <= reason
                  && |row.lastError.value| == Min(|reason|, 2000)
                  && forall t :: !Claimable(row, t))
  {}

  /** A failed row dies if the failure is permanent or its attempts are used up, and otherwise waits its delay. */
  lemma FailedRowDiesOrWaits(db: Db, now: int, lease: WorkLease, failure: Failure, maxAttempts: int)
    requires lease.id in db.work
    ensures var after := FailTx(db, now, lease, failure, maxAttempts);
            && after.results == db.results && after.nextWork == db.nextWork && after.work.Keys == db.work.Keys
            && (forall other :: other in db.work && other != lease.id ==> after.work[other] == db.work[other])
            && var row, was := after.work[lease.id], db.work[lease.id];
               && row.key == was.key && row.attempts == was.attempts && row.priority == was.priority
                  && row.updatedAt == now
               && row.leaseUntil.None? && row.workerId.None? && row.isPermanent == failure.permanent
               && row.errorCode.Some? && row.errorCode.value <= failure.code
               && |row.errorCode.value| == Min(|failure.code|, 64)
               && row.lastError.Some? && row.lastError.value <= failure.message
               && |row.lastError.value| == Min(|failure.message|, 2000)
               && (if failure.permanent || lease.attempts >= maxAttempts
                   then row.state.Dead? && forall t :: !Claimable(row, t)
                   else row.state.Pending? && forall t :: Claimable(row, t) <==> t >= now + Delay(lease.attempts))
  {}

  /** The delay doubles from half a minute and stops at six hours. */
  lemma DelayDoublesUpToTheCap(attempts: nat)
    ensures Delay(0) == 30 && Delay(1) == 30
    ensures attempts >= 1 ==> Delay(attempts + 1) == if 2 * Delay(attempts) <= 21600 then 2 * Delay(attempts) else 21600
  {
    Pow2Grows(0, if attempts == 0 then 0 else attempts - 1);
  }

  /** A revived row starts over, ready at once; only dead rows are revived. */
  lemma RevivedRowStartsOver(db: Db, now: int, id: nat, priority: int)
    ensures var after := ReviveTx(db, now, id, priority);
            && after.results == db.results && after.nextWork == db.nextWork && after.work.Keys == db.work.Keys
            && (forall other :: other in db.work && other != id ==> after.work[other] == db.work[other])
            && (id in db.work && !db.work[id].state.Dead? ==> after.work[id] == db.work[id])
            && (id in db.work && db.work[id].state.Dead? ==>
                  var row, was := after.work[id], db.work[id];
                  && row.state.Pending? && row.attempts == 0 && row.priority == priority && row.key == was.key
                  && row.errorCode.None? && row.lastError.None? && row.updatedAt == now
                     && row.isPermanent == was.isPermanent
                  && forall t :: Claimable(row, t) <==> t >= now)
  {}

  // ---- Results ------------------------------------------------------------------------------

  /** After a save exactly one row has the key, it is the saved row, and every other row is as it was. */
  lemma SaveStoresExactlyTheRow(db: Db, row: ResultRow)
    requires TablesOk(db)
    ensures var after := SaveResultTx(db, row);
            && after.work == db.work && after.nextWork == db.nextWork
            && (forall id :: id in after.results && after.results[id].key == row.key ==> after.results[id] == row)
            && (exists id :: id in after.results && after.results[id] == row)
            && (forall a, b :: (a in after.results && b in after.results
                                && after.results[a].key == row.key && after.results[b].key == row.key) ==> a == b)
            && (forall id :: id in db.results ==> id in after.results && after.results[id].key == db.results[id].key)
            && (forall id :: id in db.results && db.results[id].key != row.key ==> after.results[id] == db.results[id])
            && (forall id :: id in after.results && id !in db.results ==> after.results[id] == row)
  {
    SaveKeepsTables(db, row);
    var after := SaveResultTx(db, row);
    var id :| id in after.results && after.results[id].key == row.key;
    assert after.results[id] == row;
  }

  /** A save makes its page as fresh as the saved row, whatever was stored before. */
  lemma SaveMakesThePageFresh(db: Db, row: ResultRow, cutoff: int)
    requires TablesOk(db)
    requires forall id :: id in db.results && db.results[id].key.page == row.key.page ==>
             db.results[id].computedAt <= row.computedAt
    ensures FreshSince(SaveResultTx(db, row).results, row.key.page, cutoff) <==> row.computedAt >= cutoff
  {
    SaveStoresExactlyTheRow(db, row);
    var after := SaveResultTx(db, row);
    var id :| id in after.results && after.results[id] == row;
    forall other | other in after.results && after.results[other].key.page == row.key.page
      ensures after.results[other].computedAt <= row.computedAt
    {
      assert after.results[other] == row || (other in db.results && after.results[other] == db.results[other]);
    }
  }

  /** A save newer than all other answers of its page is what the page is served from then on. */
  lemma NewestSaveIsServed(db: Db, row: ResultRow, id: nat)
    requires TablesOk(db)
    requires forall other ::
               other in db.results && db.results[other].key.page == row.key.page && db.results[other].key != row.key
               ==> db.results[other].computedAt < row.computedAt
    requires IsLatest(SaveResultTx(db, row).results, row.key.page, id)
    ensures SaveResultTx(db, row).results[id] == row
  {
    SaveStoresExactlyTheRow(db, row);
    var after := SaveResultTx(db, row);
    var saved :| saved in after.results && after.results[saved] == row;
  }

  // ---- Cleanup ------------------------------------------------------------------------------

  /**
   * A cleanup removes a queue row exactly when it is dead or superseded and was last touched
   * before the cutoff; pending and leased rows, and rows touched since, keep every field.
   */
  lemma CleanupRemovesExactlyOldEndedRows(db: Db, queueCutoff: int, chosen: set<nat>, id: nat)
    requires id in db.work
    ensures var after := CleanupTx(db, queueCutoff, chosen);
            && (id in after.work <==> !((db.work[id].state.Dead? || db.work[id].state.Superseded?)
                                        && db.work[id].updatedAt < queueCutoff))
            && (id in after.work ==> after.work[id] == db.work[id])
            && after.work.Keys <= db.work.Keys
  {}

  /**
   * Of the results it removes only ones computed before the cutoff whose page has a later one,
   * all of them if they are no more than the limit; every other result keeps every field.
   */
  lemma CleanupRemovesOnlyOldReplacedResults(db: Db, queueCutoff: int, resultCutoff: int, chosen: set<nat>, id: nat)
    requires IsCleanupChoice(db.results, resultCutoff, chosen) && id in db.results
    ensures var after := CleanupTx(db, queueCutoff, chosen);
            && (id in after.results ==> after.results[id] == db.results[id])
            && (id !in after.results ==>
                  && db.results[id].computedAt < resultCutoff
                  && exists newer :: newer in db.results && db.results[newer].key.page == db.results[id].key.page
                                     && db.results[newer].computedAt > db.results[id].computedAt)
            && (|chosen| < 10000 ==>
                  (id !in after.results <==>
                   && db.results[id].computedAt < resultCutoff
                   && exists newer :: newer in db.results && db.results[newer].key.page == db.results[id].key.page
                                      && db.results[newer].computedAt > db.results[id].computedAt))
  {
    assert Obsolete(db.results, resultCutoff, id) <==>
           && db.results[id].computedAt < resultCutoff
           && exists newer :: newer in db.results && db.results[newer].key.page == db.results[id].key.page
                              && db.results[newer].computedAt > db.results[id].computedAt;
  }
}
