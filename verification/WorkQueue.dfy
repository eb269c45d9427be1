/**
 * The tables behind the durable queue (models.py) and every transaction that
 * repository.py runs on them, as functions from one database value to the next.
 * Repository.dfy runs the same transactions on fields that change in place and
 * is proved to agree with these functions; QueueRuns.dfy interleaves them.
 */
module WorkQueue {
  import opened Options

  /** What supersession and freshness are decided by: one article under one algorithm. */
  datatype PageRef = PageRef(wiki: string, pageId: int, algorithm: string)

  /** The unique key of both tables. */
  datatype Key = Key(page: PageRef, revision: int)

  datatype WorkState = Pending | Leased | Dead | Superseded

  datatype WorkRow = WorkRow(
    key: Key,
    priority: int,
    state: WorkState,
    attempts: nat,
    availableAt: int,
    leaseUntil: Option<int>,
    workerId: Option<string>,
    errorCode: Option<string>,
    lastError: Option<string>,
    isPermanent: bool,
    createdAt: int,
    updatedAt: int)

  datatype Contributor = Contributor(userId: int, username: string, count: nat, share: real)

  datatype Metric = TokenMetric | EditMetric

  /** The computed columns of a result row. */
  datatype Answer = Answer(
    title: string,
    metric: Metric,
    contributors: seq<Contributor>,
    distinct: int,
    countLimited: bool,
    countableTokens: nat)

  datatype ResultRow = ResultRow(key: Key, answer: Answer, computedAt: int)

  datatype Db = Db(work: map<nat, WorkRow>, nextWork: nat, results: map<nat, ResultRow>, nextResult: nat)

  /** What a worker is told about the row it claimed. */
  datatype WorkLease = WorkLease(id: nat, key: Key, priority: int, attempts: nat)

  // ---- Queries ------------------------------------------------------------

  predicate Active(row: WorkRow) {
    row.state.Pending? || row.state.Leased?
  }

  predicate HasWork(work: map<nat, WorkRow>, key: Key) {
    exists id :: id in work && work[id].key == key
  }

  /** Some pending or leased row of the same page has a later revision. */
  predicate NewerActive(work: map<nat, WorkRow>, key: Key) {
    exists id :: id in work && work[id].key.page == key.page && work[id].key.revision > key.revision && Active(work[id])
  }

  predicate HasResult(results: map<nat, ResultRow>, key: Key) {
    exists id :: id in results && results[id].key == key
  }

  predicate PageHasResult(results: map<nat, ResultRow>, page: PageRef) {
    exists id :: id in results && results[id].key.page == page
  }

  /** Row `b` comes before row `a` in ORDER BY computed_at DESC, id DESC. */
  predicate ServedBefore(results: map<nat, ResultRow>, b: nat, a: nat)
    requires a in results && b in results
  {
    results[b].computedAt > results[a].computedAt || (results[b].computedAt == results[a].computedAt && b > a)
  }

  /** `id` is the row get_latest_result returns for the page. */
  ghost predicate IsLatest(results: map<nat, ResultRow>, page: PageRef, id: nat) {
    && id in results
    && results[id].key.page == page
    && forall other :: other in results && results[other].key.page == page && other != id ==>
       ServedBefore(results, id, other)
  }

  /** The newest result of the page was computed at or after the cutoff. */
  predicate FreshSince(results: map<nat, ResultRow>, page: PageRef, cutoff: int) {
    exists id :: id in results && results[id].key.page == page && results[id].computedAt >= cutoff
  }

  predicate Claimable(row: WorkRow, now: int) {
    || (row.state.Pending? && row.availableAt <= now)
    || (row.state.Leased? && row.leaseUntil.Some? && row.leaseUntil.value < now)
  }

  /** A claimable row that no other session holds a lock on. */
  predicate Open(work: map<nat, WorkRow>, now: int, locked: set<nat>, id: nat) {
    id in work && Claimable(work[id], now) && id !in locked
  }

  /** Row `a` is not after row `b` in ORDER BY priority DESC, created_at ASC. */
  predicate NotAfter(a: WorkRow, b: WorkRow) {
    a.priority > b.priority || (a.priority == b.priority && a.createdAt <= b.createdAt)
  }

  /** `id` is first in line among the claimable rows that are not locked. */
  predicate IsClaimChoice(work: map<nat, WorkRow>, now: int, locked: set<nat>, id: nat) {
    Open(work, now, locked, id) && forall other :: other in work && Open(work, now, locked, other) ==>
        NotAfter(work[id], work[other])
  }

  // ---- Transactions -------------------------------------------------------

  function FreshRow(key: Key, priority: int, now: int): WorkRow {
    WorkRow(key, priority, Pending, 0, now, None, None, None, None, false, now, now)
  }

  function Max(a: int, b: int): int { if a < b then b else a }

  function Min(a: int, b: int): int { if a < b then a else b }

  /** What enqueueing `key` does to a row that is already there. */
  function EnqueueRow(row: WorkRow, key: Key, priority: int, now: int): WorkRow {
    if row.key == key then
      if Active(row) then row.(priority := Max(row.priority, priority), updatedAt := now) else row
    else if row.key.page == key.page && row.key.revision < key.revision && row.state.Pending? then
      row.(state := Superseded, updatedAt := now)
    else
      row
  }

  function Sweep(work: map<nat, WorkRow>, key: Key, priority: int, now: int): map<nat, WorkRow> {
    map id | id in work :: EnqueueRow(work[id], key, priority, now)
  }

  /** The transaction of `enqueue`. */
  function EnqueueTx(db: Db, now: int, key: Key, priority: int): Db {
    if HasWork(db.work, key) then
      db.(work := Sweep(db.work, key, priority, now))
    else if NewerActive(db.work, key) then
      db
    else
      db.(work := Sweep(db.work, key, priority, now)[db.nextWork := FreshRow(key, priority, now)],
      nextWork := db.nextWork + 1)
  }

  /** The fallback of `enqueue` after another session inserted the key first. */
  function EnqueueRaceTx(db: Db, now: int, key: Key, priority: int): Db {
    db.(work := map id | id in db.work ::
          if db.work[id].key == key then db.work[id].(priority := priority, updatedAt := now) else db.work[id])
  }

  function Enqueue(db: Db, now: int, key: Key, priority: int, allowCached: bool): Db {
    if !allowCached && HasResult(db.results, key) then db else EnqueueTx(db, now, key, priority)
  }

  /** What the other sessions do to the tables between two transactions of one call. */
  type Meanwhile = Db -> Db

  ghost predicate Sound(meanwhile: Meanwhile) {
    forall db :: TablesOk(db) ==> TablesOk(meanwhile(db))
  }

  /** Nobody else is there. */
  function Alone(db: Db): Db { db }

  /** Before a transaction the other sessions run, and then it is `now`. */
  datatype Moment = Moment(others: Meanwhile, now: int)

  /** The moments before the transactions of one call. */
  type Pace = nat -> Moment

  ghost predicate SoundPace(pace: Pace) {
    forall i: nat :: Sound(pace(i).others)
  }

  /** All at one time, with nobody else there. */
  function Quietly(now: int): Pace {
    i => Moment(Alone, now)
  }

  /** `enqueue` as its two transactions: the look for an answer, then the queue. */
  function EnqueueAmid(db: Db, now: int, key: Key, priority: int, allowCached: bool, meanwhile: Meanwhile): Db {
    if allowCached then EnqueueTx(db, now, key, priority)
    else if HasResult(db.results, key) then db
    else EnqueueTx(meanwhile(db), now, key, priority)
  }

  /** `enqueue_if_stale` up to its enqueue, which reads the clock again. */
  function EnqueueIfStaleAmid(db: Db, now: int, key: Key, priority: int, freshness: int, asking: Moment): Db {
    if FreshSince(db.results, key.page, now - freshness) then db
    else EnqueueTx(asking.others(db), asking.now, key, priority)
  }

  function EnqueueIfStale(db: Db, now: int, key: Key, priority: int, freshness: int): Db {
    if FreshSince(db.results, key.page, now - freshness) then db else Enqueue(db, now, key, priority, true)
  }

  predicate ActiveWork(work: map<nat, WorkRow>, key: Key) {
    exists id :: id in work && work[id].key == key && Active(work[id])
  }

  /** The boolean `enqueue_if_stale` returns, read after the enqueue. */
  predicate Queued(before: Db, after: Db, now: int, key: Key, freshness: int) {
    !FreshSince(before.results, key.page, now - freshness) && ActiveWork(after.work, key)
  }

  function ClaimRow(row: WorkRow, now: int, worker: string, leaseSeconds: int): WorkRow {
    row.(state := Leased, workerId := Some(worker), leaseUntil := Some(now + leaseSeconds),
    attempts := row.attempts + 1, updatedAt := now)
  }

  function ClaimTx(db: Db, now: int, id: nat, worker: string, leaseSeconds: int): Db
    requires id in db.work
  {
    db.(work := db.work[id := ClaimRow(db.work[id], now, worker, leaseSeconds)])
  }

  function LeaseOf(id: nat, row: WorkRow): WorkLease {
    WorkLease(id, row.key, row.priority, row.attempts)
  }

  function SaveResultTx(db: Db, row: ResultRow): Db {
    if HasResult(db.results, row.key) then
      db.(results := map id | id in db.results :: if db.results[id].key == row.key then row else db.results[id])
    else
      db.(results := db.results[db.nextResult := row], nextResult := db.nextResult + 1)
  }

  function CompleteTx(db: Db, id: nat): Db {
    db.(work := db.work - {id})
  }

  function UpdateWork(db: Db, id: nat, row: WorkRow): Db {
    if id in db.work then db.(work := db.work[id := row]) else db
  }

  function Clip(text: string, limit: nat): string {
    if |text| <= limit then text else text[..limit]
  }

  function SupersedeRow(row: WorkRow, now: int, reason: string): WorkRow {
    row.(state := Superseded, leaseUntil := None, workerId := None,
    errorCode := Some("revision_superseded"), lastError := Some(Clip(reason, 2000)), updatedAt := now)
  }

  function SupersedeTx(db: Db, now: int, id: nat, reason: string): Db {
    if id in db.work then UpdateWork(db, id, SupersedeRow(db.work[id], now, reason)) else db
  }

  function Pow2(n: nat): nat {
    if n == 0 then 1 else 2 * Pow2(n - 1)
  }

  const DELAY_FLOOR := 30
  const DELAY_CAP := 21600

  /** Seconds until the next try after the given number of attempts. */
  function Delay(attempts: nat): nat {
    Min(DELAY_CAP, DELAY_FLOOR * Pow2(if attempts == 0 then 0 else attempts - 1))
  }

  /** Whether a failure ends the row's life. */
  predicate Kills(attempts: nat, maxAttempts: int, permanent: bool) {
    permanent || attempts >= maxAttempts
  }

  datatype Failure = Failure(code: string, message: string, permanent: bool)

  function FailRow(row: WorkRow, now: int, lease: WorkLease, failure: Failure, maxAttempts: int): WorkRow {
    row.(state := if Kills(lease.attempts, maxAttempts, failure.permanent) then Dead else Pending,
    availableAt := now + Delay(lease.attempts), leaseUntil := None, workerId := None,
    errorCode := Some(Clip(failure.code, 64)), lastError := Some(Clip(failure.message, 2000)),
    isPermanent := failure.permanent, updatedAt := now)
  }

  function FailTx(db: Db, now: int, lease: WorkLease, failure: Failure, maxAttempts: int): Db {
    if lease.id in db.work
    then UpdateWork(db, lease.id, FailRow(db.work[lease.id], now, lease, failure, maxAttempts))
    else db
  }

  function ReviveRow(row: WorkRow, now: int, priority: int): WorkRow {
    row.(state := Pending, attempts := 0, priority := priority, availableAt := now,
    errorCode := None, lastError := None, updatedAt := now)
  }

  function ReviveTx(db: Db, now: int, id: nat, priority: int): Db {
    if id in db.work && db.work[id].state.Dead?
    then UpdateWork(db, id, ReviveRow(db.work[id], now, priority))
    else db
  }

  /** The rows the queue half of `cleanup` deletes. */
  predicate Expired(row: WorkRow, queueCutoff: int) {
    (row.state.Dead? || row.state.Superseded?) && row.updatedAt < queueCutoff
  }

  /** The rows the result half of `cleanup` may delete. */
  predicate Obsolete(results: map<nat, ResultRow>, resultCutoff: int, id: nat) {
    && id in results
    && results[id].computedAt < resultCutoff
    && exists newer :: newer in results && results[newer].key.page == results[id].key.page
                       && results[newer].computedAt > results[id].computedAt
  }

  const CLEANUP_LIMIT := 10000

  /** Any subset that SELECT DISTINCT ... LIMIT 10000 may hand back. */
  ghost predicate IsCleanupChoice(results: map<nat, ResultRow>, resultCutoff: int, chosen: set<nat>) {
    && |chosen| <= CLEANUP_LIMIT
    && (forall id :: id in chosen ==> Obsolete(results, resultCutoff, id))
    && (|chosen| < CLEANUP_LIMIT ==> forall id :: Obsolete(results, resultCutoff, id) ==> id in chosen)
  }

  function Unexpired(work: map<nat, WorkRow>, queueCutoff: int): map<nat, WorkRow> {
    map id | id in work && !Expired(work[id], queueCutoff) :: work[id]
  }

  function CleanupTx(db: Db, queueCutoff: int, chosen: set<nat>): Db {
    db.(work := Unexpired(db.work, queueCutoff),
    results := db.results - chosen)
  }

  // ---- What the tables always look like ------------------------------------

  /** Only a leased row carries a lease, and it has been claimed at least once. */
  predicate RowShape(row: WorkRow) {
    && (row.state.Leased? <==> row.leaseUntil.Some?)
    && (row.state.Leased? <==> row.workerId.Some?)
    && (row.state.Leased? ==> row.attempts >= 1)
  }

  ghost predicate WorkOk(work: map<nat, WorkRow>, next: nat) {
    && (forall id :: id in work ==> id < next && RowShape(work[id]))
    && (forall i, j :: i in work && j in work && work[i].key == work[j].key ==> i == j)
  }

  /** Ids are below the counters, both tables obey their unique constraint, rows are well shaped. */
  ghost predicate TablesOk(db: Db) {
    && WorkOk(db.work, db.nextWork)
    && (forall id :: id in db.results ==> id < db.nextResult)
    && (forall i, j :: i in db.results && j in db.results && db.results[i].key == db.results[j].key ==> i == j)
  }

  /** Every id of a table is still there and stands for the same key. */
  ghost predicate KeepsRows(before: map<nat, WorkRow>, after: map<nat, WorkRow>) {
    forall id :: id in before ==> id in after && after[id].key == before[id].key
  }

  lemma EnqueueRowKeeps(row: WorkRow, key: Key, priority: int, now: int)
    requires RowShape(row)
    ensures RowShape(EnqueueRow(row, key, priority, now))
    ensures EnqueueRow(row, key, priority, now).key == row.key
  {}

  lemma SweepKeepsTable(work: map<nat, WorkRow>, next: nat, key: Key, priority: int, now: int)
    requires WorkOk(work, next)
    ensures WorkOk(Sweep(work, key, priority, now), next)
    ensures KeepsRows(work, Sweep(work, key, priority, now))
  {
    forall id | id in work
      ensures RowShape(Sweep(work, key, priority, now)[id])
      ensures Sweep(work, key, priority, now)[id].key == work[id].key
    {
      EnqueueRowKeeps(work[id], key, priority, now);
    }
  }

  lemma InsertKeepsTable(work: map<nat, WorkRow>, next: nat, row: WorkRow)
    requires WorkOk(work, next) && RowShape(row) && !HasWork(work, row.key)
    ensures WorkOk(work[next := row], next + 1)
  {}

  lemma EnqueueKeepsTables(db: Db, now: int, key: Key, priority: int)
    requires TablesOk(db)
    ensures TablesOk(EnqueueTx(db, now, key, priority))
    ensures KeepsRows(db.work, EnqueueTx(db, now, key, priority).work)
  {
    SweepKeepsTable(db.work, db.nextWork, key, priority, now);
    if !HasWork(db.work, key) {
      var swept := Sweep(db.work, key, priority, now);
      assert !HasWork(swept, key) by {
        assert forall id :: id in swept ==> swept[id].key == db.work[id].key;
      }
      InsertKeepsTable(swept, db.nextWork, FreshRow(key, priority, now));
    }
  }

  lemma SaveKeepsTables(db: Db, row: ResultRow)
    requires TablesOk(db)
    ensures TablesOk(SaveResultTx(db, row))
    ensures HasResult(SaveResultTx(db, row).results, row.key)
  {
    var after := SaveResultTx(db, row);
    if HasResult(db.results, row.key) {
      var id :| id in db.results && db.results[id].key == row.key;
      assert after.results[id].key == row.key;
    } else {
      assert after.results[db.nextResult].key == row.key;
    }
  }

  // ---- Enqueue: what a caller can rely on -----------------------------------

  /** The enqueue returned early because a newer job is queued. */
  predicate EnqueueDeclined(db: Db, key: Key) {
    !HasWork(db.work, key) && NewerActive(db.work, key)
  }

  /**
   * An enqueue that goes through leaves no pending row older than the one asked for,
   * and disturbs nothing else: other pages, newer revisions, leased and dead rows keep
   * every field, and only the asked-for row may be new.
   */
  lemma EnqueueSupersedesExactlyOlderPending(db: Db, now: int, key: Key, priority: int)
    requires TablesOk(db) && !EnqueueDeclined(db, key)
    ensures var after := EnqueueTx(db, now, key, priority);
            && HasWork(after.work, key)
            && (forall id :: id in after.work && after.work[id].key.page == key.page && after.work[id].state.Pending?
                             ==> after.work[id].key.revision >= key.revision)
            && (forall id :: id in db.work && db.work[id].key != key
                             && (db.work[id].key.page != key.page || db.work[id].key.revision > key.revision
                                 || !db.work[id].state.Pending?)
                             ==> id in after.work && after.work[id] == db.work[id])
            && (forall id :: id in db.work ==> after.work[id].state == db.work[id].state
                                               || (db.work[id].state.Pending? && after.work[id].state.Superseded?))
            && (forall id :: id in after.work && id !in db.work ==> after.work[id] == FreshRow(key, priority, now))
            && after.results == db.results
  {
    var after := EnqueueTx(db, now, key, priority);
    if HasWork(db.work, key) {
      var id :| id in db.work && db.work[id].key == key;
      assert after.work[id].key == key;
    } else {
      assert after.work[db.nextWork].key == key;
    }
  }

  predicate PageActive(work: map<nat, WorkRow>, page: PageRef) {
    exists id :: id in work && work[id].key.page == page && Active(work[id])
  }

  lemma SweepStrandsIff(work: map<nat, WorkRow>, key: Key, priority: int, now: int)
    ensures !PageActive(Sweep(work, key, priority, now), key.page)
            <==> forall id :: id in work && work[id].key.page == key.page && Active(work[id]) ==>
                                work[id].state.Pending? && work[id].key.revision < key.revision
  {
    var after := Sweep(work, key, priority, now);
    if id :| id in work && work[id].key.page == key.page && Active(work[id])
             && !(work[id].state.Pending? && work[id].key.revision < key.revision) {
      assert after[id].key.page == key.page && Active(after[id]);
    }
    if PageActive(after, key.page) {
      var id :| id in after && after[id].key.page == key.page && Active(after[id]);
      assert work[id].key.page == key.page && Active(work[id]);
    }
  }

  /**
   * Supersession can leave a page with no work at all, in exactly one case: the asked-for
   * row exists but is dead or superseded, so it is not queued again, while every active row
   * of the page is pending at an older revision, so it is superseded.
   */
  lemma EnqueueStrandsPageIff(db: Db, now: int, key: Key, priority: int)
    requires TablesOk(db) && PageActive(db.work, key.page)
    ensures !PageActive(EnqueueTx(db, now, key, priority).work, key.page)
            <==> && HasWork(db.work, key)
                 && forall id :: id in db.work && db.work[id].key.page == key.page && Active(db.work[id]) ==>
                                   db.work[id].state.Pending? && db.work[id].key.revision < key.revision
  {
    var after := EnqueueTx(db, now, key, priority);
    if HasWork(db.work, key) {
      SweepStrandsIff(db.work, key, priority, now);
    } else if NewerActive(db.work, key) {
    } else {
      assert after.work[db.nextWork] == FreshRow(key, priority, now);
    }
  }

  /**
   * Asking again for a queued key raises its priority to the larger of the two and never
   * lowers it; the fallback taken after an insert race overwrites it instead, so there the
   * priority drops exactly when the later caller asked for less.
   */
  lemma PriorityAfterAskingAgain(db: Db, now: int, id: nat, priority: int)
    requires id in db.work && Active(db.work[id])
    ensures EnqueueTx(db, now, db.work[id].key, priority).work[id].priority == Max(db.work[id].priority, priority)
    ensures EnqueueRaceTx(db, now, db.work[id].key, priority).work[id].priority < db.work[id].priority
            <==> priority < db.work[id].priority
  {
    assert HasWork(db.work, db.work[id].key);
  }

  // ---- Cleanup and the newest result -----------------------------------------

  /** A page with results has exactly one newest row. */
  lemma {:induction false} LatestExists(results: map<nat, ResultRow>, page: PageRef) returns (latest: nat)
    requires PageHasResult(results, page)
    ensures IsLatest(results, page, latest)
    decreases |results|
  {
    var some :| some in results && results[some].key.page == page;
    var rest := results - {some};
    assert |rest.Keys| < |results.Keys| by { assert rest.Keys == results.Keys - {some}; }
    if PageHasResult(rest, page) {
      var best := LatestExists(rest, page);
      latest := if ServedBefore(results, some, best) then some else best;
      forall other | other in results && results[other].key.page == page && other != latest
        ensures ServedBefore(results, latest, other)
      {
        if other != some && other != best { assert ServedBefore(rest, best, other); }
      }
    } else {
      latest := some;
      assert forall other :: other in results && other != some ==> other in rest && rest[other] == results[other];
    }
  }

  lemma LatestIsUnique(results: map<nat, ResultRow>, page: PageRef, a: nat, b: nat)
    requires IsLatest(results, page, a) && IsLatest(results, page, b)
    ensures a == b
  {
    assert a != b ==> ServedBefore(results, a, b);
  }

  /**
   * No cleanup, whatever its cutoffs and whichever obsolete rows it picks, changes the row
   * that is served for any page.
   */
  lemma CleanupKeepsLatest(db: Db, queueCutoff: int, resultCutoff: int, chosen: set<nat>, page: PageRef, id: nat)
    requires IsCleanupChoice(db.results, resultCutoff, chosen)
    ensures IsLatest(db.results, page, id) <==> IsLatest(CleanupTx(db, queueCutoff, chosen).results, page, id)
    ensures IsLatest(db.results, page, id) ==> CleanupTx(db, queueCutoff, chosen).results[id] == db.results[id]
  {
    var after := CleanupTx(db, queueCutoff, chosen).results;
    if PageHasResult(db.results, page) {
      var top := LatestExists(db.results, page);
      assert top !in chosen by {
        assert forall newer :: newer in db.results && db.results[newer].key.page == page && newer != top
                               ==> ServedBefore(db.results, top, newer);
        assert !Obsolete(db.results, resultCutoff, top);
      }
      assert IsLatest(after, page, top) by {
        forall other | other in after && after[other].key.page == page && other != top
          ensures ServedBefore(after, top, other)
        {
          assert ServedBefore(db.results, top, other);
        }
      }
      if IsLatest(db.results, page, id) { LatestIsUnique(db.results, page, top, id); }
      if IsLatest(after, page, id) { LatestIsUnique(after, page, top, id); }
    }
  }

  /** Two tables hold the same rows of the page. */
  ghost predicate SamePageRows(before: map<nat, ResultRow>, after: map<nat, ResultRow>, page: PageRef) {
    && (forall id :: id in before && before[id].key.page == page ==> id in after && after[id] == before[id])
    && (forall id :: id in after && after[id].key.page == page ==> id in before && before[id] == after[id])
  }

  lemma StillLatest(before: map<nat, ResultRow>, after: map<nat, ResultRow>, page: PageRef, id: nat)
    requires SamePageRows(before, after, page) && IsLatest(before, page, id)
    ensures IsLatest(after, page, id)
  {
    forall other | other in after && after[other].key.page == page && other != id
      ensures ServedBefore(after, id, other)
    {
      assert ServedBefore(before, id, other);
    }
  }

  lemma CleanupKeepsTables(db: Db, queueCutoff: int, chosen: set<nat>)
    requires TablesOk(db)
    ensures TablesOk(CleanupTx(db, queueCutoff, chosen))
  {}

  /** Storing an answer never takes a page's answer away; it changes no other page's. */
  lemma SaveKeepsAnswers(db: Db, row: ResultRow, page: PageRef)
    requires TablesOk(db)
    ensures PageHasResult(SaveResultTx(db, row).results, row.key.page)
    ensures PageHasResult(db.results, page) ==> PageHasResult(SaveResultTx(db, row).results, page)
    ensures page != row.key.page ==>
              forall id :: IsLatest(db.results, page, id) <==> IsLatest(SaveResultTx(db, row).results, page, id)
  {
    SaveKeepsTables(db, row);
    var after := SaveResultTx(db, row).results;
    var mine :| mine in after && after[mine].key == row.key;
    assert after[mine].key.page == row.key.page;
    if PageHasResult(db.results, page) {
      var id :| id in db.results && db.results[id].key.page == page;
      assert id in after && after[id].key.page == page;
    }
    if page != row.key.page {
      assert SamePageRows(db.results, after, page);
      assert SamePageRows(after, db.results, page);
      forall id
        ensures IsLatest(db.results, page, id) <==> IsLatest(after, page, id)
      {
        if IsLatest(db.results, page, id) { StillLatest(db.results, after, page, id); }
        if IsLatest(after, page, id) { StillLatest(after, db.results, page, id); }
      }
    }
  }

  /** A row is there to be claimed whenever any claimable row is not locked. */
  lemma {:induction false} ClaimChoiceExists(work: map<nat, WorkRow>, now: int, locked: set<nat>, some: nat)
    requires Open(work, now, locked, some)
    ensures exists id :: id in work && IsClaimChoice(work, now, locked, id)
    decreases |work|
  {
    var rest := work - {some};
    assert |rest.Keys| < |work.Keys| by { assert rest.Keys == work.Keys - {some}; }
    assert forall other :: other in work && other != some ==> other in rest && rest[other] == work[other];
    if next :| next in rest && Open(rest, now, locked, next) {
      ClaimChoiceExists(rest, now, locked, next);
      var best: nat :| best in rest && IsClaimChoice(rest, now, locked, best);
      var id := if NotAfter(work[best], work[some]) then best else some;
      forall other | other in work && Open(work, now, locked, other)
        ensures NotAfter(work[id], work[other])
      {
        assert other != some ==> Open(rest, now, locked, other);
      }
      assert IsClaimChoice(work, now, locked, id);
    } else {
      forall other | other in work && Open(work, now, locked, other)
        ensures other == some
      {
        assert other != some ==> Open(rest, now, locked, other);
      }
      assert IsClaimChoice(work, now, locked, some);
    }
  }

  lemma {:induction false} Pow2Grows(a: nat, b: nat)
    requires a <= b
    ensures 1 <= Pow2(a) <= Pow2(b)
    decreases b
  {
    if a < b {
      Pow2Grows(a, b - 1);
    } else if a > 0 {
      Pow2Grows(a - 1, b - 1);
    }
  }
}
