/**
 * The repository (repository.py): tables as fields that each method changes in place.
 * Queue and result methods agree with the transactions of WorkQueue; the replacement
 * methods are specified by what the tables hold afterwards.
 */
module Repository {
  import opened Options
  import opened WorkQueue
  import opened Arithmetic
  import opened Policy

  /** An account's standing, with the time of its last complete lock check. */
  datatype StandingRecord = StandingRecord(standing: AccountStanding, lockCheckedAt: Option<int>)

  datatype StandingRow = StandingRow(record: StandingRecord, syncedAt: int)

  datatype OptOutEntry = OptOutEntry(pageId: int, title: string, source: string)

  datatype OptOutRow = OptOutRow(entry: OptOutEntry, syncedAt: int)

  /** The row of one wiki under one id. */
  datatype Scoped = Scoped(wiki: string, id: int)

  /** The last record of each account: what the dictionary built from a list holds. */
  function WantedStanding(records: seq<StandingRecord>): map<int, StandingRecord> {
    if records == [] then map[]
    else WantedStanding(records[..|records| - 1])[Last(records).standing.userId := Last(records)]
  }

  /** No later record of the list is of the same account. */
  predicate LastOfAccount(records: seq<StandingRecord>, k: nat)
    requires k < |records|
  {
    forall i :: k < i < |records| ==> records[i].standing.userId != records[k].standing.userId
  }

  lemma {:induction false} WantedStandingKeys(records: seq<StandingRecord>)
    ensures forall id ::
              id in WantedStanding(records)
              <==> exists k :: 0 <= k < |records| && records[k].standing.userId == id
  {
    if records != [] {
      var n := |records| - 1;
      var front := records[..n];
      WantedStandingKeys(front);
      forall id
        ensures id in WantedStanding(records) <==> exists k :: 0 <= k < |records| && records[k].standing.userId == id
      {
        if id in WantedStanding(front) {
          var k :| 0 <= k < n && front[k].standing.userId == id;
          assert records[k].standing.userId == id;
        }
        if k :| 0 <= k < |records| && records[k].standing.userId == id {
          assert k < n ==> front[k].standing.userId == id;
        }
      }
    }
  }

  lemma {:induction false} WantedStandingHolds(records: seq<StandingRecord>, k: nat)
    requires k < |records| && LastOfAccount(records, k)
    ensures records[k].standing.userId in WantedStanding(records)
    ensures WantedStanding(records)[records[k].standing.userId] == records[k]
  {
    var n := |records| - 1;
    if k < n {
      var front := records[..n];
      assert front[k] == records[k] && LastOfAccount(front, k);
      assert records[n].standing.userId != records[k].standing.userId;
      WantedStandingHolds(front, k);
    }
  }

  function WantedOptOut(entries: seq<OptOutEntry>): map<int, OptOutEntry> {
    if entries == [] then map[]
    else WantedOptOut(entries[..|entries| - 1])[Last(entries).pageId := Last(entries)]
  }

  /** No later entry of the list is of the same page. */
  predicate LastOfPage(entries: seq<OptOutEntry>, k: nat)
    requires k < |entries|
  {
    forall i :: k < i < |entries| ==> entries[i].pageId != entries[k].pageId
  }

  lemma {:induction false} WantedOptOutKeys(entries: seq<OptOutEntry>)
    ensures forall id :: id in WantedOptOut(entries) <==> exists k :: 0 <= k < |entries| && entries[k].pageId == id
  {
    if entries != [] {
      var n := |entries| - 1;
      var front := entries[..n];
      WantedOptOutKeys(front);
      forall id
        ensures id in WantedOptOut(entries) <==> exists k :: 0 <= k < |entries| && entries[k].pageId == id
      {
        if id in WantedOptOut(front) {
          var k :| 0 <= k < n && front[k].pageId == id;
          assert entries[k].pageId == id;
        }
        if k :| 0 <= k < |entries| && entries[k].pageId == id {
          assert k < n ==> front[k].pageId == id;
        }
      }
    }
  }

  lemma {:induction false} WantedOptOutHolds(entries: seq<OptOutEntry>, k: nat)
    requires k < |entries| && LastOfPage(entries, k)
    ensures entries[k].pageId in WantedOptOut(entries)
    ensures WantedOptOut(entries)[entries[k].pageId] == entries[k]
  {
    var n := |entries| - 1;
    if k < n {
      var front := entries[..n];
      assert front[k] == entries[k] && LastOfPage(front, k);
      assert entries[n].pageId != entries[k].pageId;
      WantedOptOutHolds(front, k);
    }
  }

  function Last<T>(s: seq<T>): T
    requires s != []
  {
    s[|s| - 1]
  }

  /** The record read back from the row stored under an id. */
  function RecordOf(id: int, row: StandingRow): StandingRecord {
    row.record.(standing := row.record.standing.(userId := id))
  }

  /** The ids one wiki has rows for. */
  function IdsOf<V>(table: map<Scoped, V>, wiki: string): set<int> {
    set key | key in table && key.wiki == wiki :: key.id
  }

  /** One of these result rows, of this wiki, names the account. */
  predicate NamedBy(results: map<nat, ResultRow>, rows: set<nat>, wiki: string, id: int)
    requires rows <= results.Keys
  {
    && id > 0
    && exists row :: row in rows && results[row].key.page.wiki == wiki
                     && exists k :: 0 <= k < |results[row].answer.contributors|
                                    && results[row].answer.contributors[k].userId == id
  }

  predicate StrictlyAscending(ids: seq<int>) {
    forall i, j :: 0 <= i < j < |ids| ==> ids[i] < ids[j]
  }

  predicate IsLeast(s: set<int>, x: int) {
    x in s && forall y :: y in s ==> x <= y
  }

  lemma {:induction false} LeastExists(s: set<int>)
    requires exists x :: x in s
    ensures exists x :: IsLeast(s, x)
    decreases |s|
  {
    var some :| some in s;
    var rest := s - {some};
    if exists next :: next in rest {
      LeastExists(rest);
      var best :| IsLeast(rest, best);
      assert forall x :: x in s && x != some ==> x in rest;
      assert IsLeast(s, if best < some then best else some);
    } else {
      assert forall x :: x in s && x != some ==> x in rest;
      assert IsLeast(s, some);
    }
  }

  /** The members of a set in ascending order. */
  function Ascending(s: set<int>): (ids: seq<int>)
    ensures forall id :: id in ids <==> id in s
    ensures StrictlyAscending(ids)
  {
    if exists x :: x in s then
      LeastExists(s);
      var least :| least in s && IsLeast(s, least);
      [least] + Ascending(s - {least})
    else []
  }

  /** UPDATE ... SET state = 'superseded' for pending rows of older revisions. */
  function OlderSuperseded(work: map<nat, WorkRow>, key: Key, now: int): map<nat, WorkRow> {
    map id | id in work ::
      if work[id].key.page == key.page && work[id].key.revision < key.revision && work[id].state.Pending?
      then work[id].(state := Superseded, updatedAt := now)
      else work[id]
  }

  lemma InsertThenSweep(work: map<nat, WorkRow>, next: nat, key: Key, priority: int, now: int)
    requires WorkOk(work, next) && !HasWork(work, key)
    ensures OlderSuperseded(work[next := FreshRow(key, priority, now)], key, now)
            == Sweep(work, key, priority, now)[next := FreshRow(key, priority, now)]
  {}

  lemma BoostThenSweep(work: map<nat, WorkRow>, id: nat, key: Key, priority: int, now: int)
    requires id in work && work[id].key == key
    requires forall other :: other in work && work[other].key == key ==> other == id
    ensures var row := work[id];
            var boosted := if Active(row)
                then work[id := row.(priority := Max(row.priority, priority), updatedAt := now)] else work;
            OlderSuperseded(boosted, key, now) == Sweep(work, key, priority, now)
  {}

  lemma UnexpiredAreFewer(work: map<nat, WorkRow>, queueCutoff: int)
    ensures |Unexpired(work, queueCutoff)| <= |work|
  {
    SubsetIsSmaller(Unexpired(work, queueCutoff).Keys, work.Keys);
  }

  lemma ChosenAreStored(results: map<nat, ResultRow>, resultCutoff: int, chosen: set<nat>)
    requires IsCleanupChoice(results, resultCutoff, chosen)
    ensures chosen <= results.Keys
  {}

  lemma WithoutChosen(results: map<nat, ResultRow>, chosen: set<nat>)
    requires chosen <= results.Keys
    ensures |results| - |results - chosen| == |chosen|
  {
    assert (results - chosen).Keys == results.Keys - chosen;
  }

  lemma IdsOfHolds<V>(table: map<Scoped, V>, wiki: string)
    ensures forall id :: id in IdsOf(table, wiki) <==> Scoped(wiki, id) in table
  {
    assert forall id :: Scoped(wiki, id).wiki == wiki;
  }

  class Repository {
    var work: map<nat, WorkRow>
    var nextWork: nat
    var results: map<nat, ResultRow>
    var nextResult: nat
    var standing: map<Scoped, StandingRow>
    var optout: map<Scoped, OptOutRow>
    var state: map<string, string>

    function Tables(): Db
      reads this
    {
      Db(work, nextWork, results, nextResult)
    }

    ghost predicate Valid()
      reads this
    {
      TablesOk(Tables())
    }

    constructor ()
      ensures Valid() && Tables() == Db(map[], 0, map[], 0)
      ensures standing == map[] && optout == map[] && state == map[]
    {
      work, nextWork, results, nextResult := map[], 0, map[], 0;
      standing, optout, state := map[], map[], map[];
    }

    method GetResult(key: Key) returns (row: Option<ResultRow>)
      requires Valid()
      ensures row.Some? <==> HasResult(results, key)
      ensures row.Some? ==> row.value.key == key && exists id :: id in results && results[id] == row.value
    {
      if id :| id in results && results[id].key == key {
        return Some(results[id]);
      }
      return None;
    }

    method GetLatestResult(page: PageRef) returns (row: Option<ResultRow>)
      requires Valid()
      ensures row.Some? <==> PageHasResult(results, page)
      ensures row.Some? ==> exists id :: IsLatest(results, page, id) && results[id] == row.value
      ensures row.Some? ==>
                exists id :: id in results && results[id] == row.value && row.value.key.page == page
                  && forall other :: other in results && results[other].key.page == page && other != id ==>
                       || results[other].computedAt < row.value.computedAt
                       || (results[other].computedAt == row.value.computedAt && other < id)
      ensures forall cutoff :: row.Some? && row.value.computedAt >= cutoff <==> FreshSince(results, page, cutoff)
    {
      if !PageHasResult(results, page) {
        return None;
      }
      ghost var top := LatestExists(results, page);
      var id :| id in results && results[id].key.page == page
                && forall other :: other in results && results[other].key.page == page && other != id ==>
                   ServedBefore(results, id, other);
      assert IsLatest(results, page, id);
      forall cutoff
        ensures results[id].computedAt >= cutoff <==> FreshSince(results, page, cutoff)
      {
        if FreshSince(results, page, cutoff) {
          var recent :| recent in results && results[recent].key.page == page && results[recent].computedAt >= cutoff;
          assert recent != id ==> ServedBefore(results, id, recent);
        }
      }
      return Some(results[id]);
    }

    method GetWork(key: Key) returns (id: Option<nat>)
      requires Valid()
      ensures id.Some? <==> HasWork(work, key)
      ensures id.Some? ==> id.value in work && work[id.value].key == key
      ensures id.Some? ==> forall other :: other in work && work[other].key == key ==> other == id.value
    {
      if found :| found in work && work[found].key == key {
        return Some(found);
      }
      return None;
    }

    /** The other sessions run. */
    method Yield(meanwhile: Meanwhile)
      requires Valid() && Sound(meanwhile)
      modifies this`work, this`nextWork, this`results, this`nextResult
      ensures Valid() && Tables() == meanwhile(old(Tables()))
    {
      var db := meanwhile(Tables());
      work, nextWork, results, nextResult := db.work, db.nextWork, db.results, db.nextResult;
    }

    method Enqueue(now: int, key: Key, priority: int, allowCached: bool, meanwhile: Meanwhile)
      requires Valid() && Sound(meanwhile)
      modifies this`work, this`nextWork, this`results, this`nextResult
      ensures Valid() && Tables() == EnqueueAmid(old(Tables()), now, key, priority, allowCached, meanwhile)
    {
      if !allowCached {
        var cached := GetResult(key);
        if cached.Some? {
          return;
        }
        Yield(meanwhile);
      }
      EnqueueTransaction(now, key, priority);
    }

    method EnqueueTransaction(now: int, key: Key, priority: int)
      requires Valid()
      modifies this`work, this`nextWork
      ensures Valid() && Tables() == EnqueueTx(old(Tables()), now, key, priority)
    {
      ghost var before := Tables();
      EnqueueKeepsTables(before, now, key, priority);
      var existing := GetWork(key);
      if existing.None? && NewerActive(work, key) {
        return;
      }
      if existing.None? {
        InsertThenSweep(work, nextWork, key, priority, now);
        work, nextWork := work[nextWork := FreshRow(key, priority, now)], nextWork + 1;
      } else {
        BoostThenSweep(work, existing.value, key, priority, now);
        if Active(work[existing.value]) {
          var row := work[existing.value];
          work := work[existing.value := row.(priority := Max(row.priority, priority), updatedAt := now)];
        }
      }
      work := OlderSuperseded(work, key, now);
      assert Tables() == EnqueueTx(before, now, key, priority);
    }

    /** The path taken when another session inserted the same key first. */
    method EnqueueAfterRace(now: int, key: Key, priority: int)
      requires Valid()
      modifies this`work
      ensures Valid() && Tables() == EnqueueRaceTx(old(Tables()), now, key, priority)
    {
      work := map id | id in work ::
        if work[id].key == key then work[id].(priority := priority, updatedAt := now) else work[id];
    }

    method EnqueueIfStale(now: int, key: Key, priority: int, freshness: int, asking: Moment, after: Meanwhile)
      returns (queued: bool)
      requires Valid() && Sound(asking.others) && Sound(after)
      modifies this`work, this`nextWork, this`results, this`nextResult
      ensures Valid()
      ensures var asked := EnqueueIfStaleAmid(old(Tables()), now, key, priority, freshness, asking);
              Tables() == if FreshSince(old(results), key.page, now - freshness) then asked else after(asked)
      ensures queued <==>
                && (forall id :: id in old(results) && old(results)[id].key.page == key.page ==>
                                   old(results)[id].computedAt + freshness < now)
                && exists id :: id in work && work[id].key == key && (work[id].state.Pending? || work[id].state.Leased?)
      ensures queued <==> Queued(old(Tables()), Tables(), now, key, freshness)
    {
      var latest := GetLatestResult(key.page);
      var cutoff := now - freshness;
      if latest.Some? && latest.value.computedAt >= cutoff {
        return false;
      }
      Yield(asking.others);
      Enqueue(asking.now, key, priority, true, Alone);
      Yield(after);
      var id := GetWork(key);
      return id.Some? && Active(work[id.value]);
    }

    /** A row first by priority and age among the claimable ones that are not locked. */
    method FirstInLine(now: int, locked: set<nat>) returns (id: Option<nat>)
      ensures id.None? <==> forall other :: other in work ==> !Open(work, now, locked, other)
      ensures id.Some? ==> IsClaimChoice(work, now, locked, id.value)
    {
      if some :| some in work && Open(work, now, locked, some) {
        ClaimChoiceExists(work, now, locked, some);
        var best: nat :| best in work && IsClaimChoice(work, now, locked, best);
        return Some(best);
      }
      return None;
    }

    /** `locked` are the rows other sessions hold locks on, which the query skips. */
    method Claim(now: int, worker: string, leaseSeconds: int, locked: set<nat>) returns (lease: Option<WorkLease>)
      requires Valid()
      modifies this`work
      ensures Valid()
      ensures lease.None? <==> forall id :: id in old(work) ==> !Open(old(work), now, locked, id)
      ensures lease.None? ==> work == old(work)
      ensures lease.Some? ==>
                && IsClaimChoice(old(work), now, locked, lease.value.id)
                && Tables() == ClaimTx(old(Tables()), now, lease.value.id, worker, leaseSeconds)
                && lease.value == LeaseOf(lease.value.id, work[lease.value.id])
      ensures lease.Some? ==>
                && lease.value.id in old(work) && lease.value.id !in locked
                && var row := old(work)[lease.value.id];
                   && (row.state.Pending? || row.state.Leased?)
                   && (row.state.Pending? ==> row.availableAt <= now)
                   && (row.state.Leased? ==> row.leaseUntil.Some? && row.leaseUntil.value < now)
                   && lease.value == WorkLease(lease.value.id, row.key, row.priority, row.attempts + 1)
                   && forall other :: other in old(work) && other !in locked && old(work)[other].state.Pending?
                                      && old(work)[other].availableAt <= now ==>
                        || old(work)[other].priority < row.priority
                        || (old(work)[other].priority == row.priority && row.createdAt <= old(work)[other].createdAt)
    {
      var id := FirstInLine(now, locked);
      if id.None? {
        return None;
      }
      var item := work[id.value];
      item := item.(state := Leased, workerId := Some(worker), leaseUntil := Some(now + leaseSeconds));
      item := item.(attempts := item.attempts + 1, updatedAt := now);
      work := work[id.value := item];
      lease := Some(WorkLease(id.value, item.key, item.priority, item.attempts));
    }

    method SaveResult(row: ResultRow)
      requires Valid()
      modifies this`results, this`nextResult
      ensures Valid() && Tables() == SaveResultTx(old(Tables()), row)
      ensures exists id :: id in results && results[id] == row
      ensures forall id :: id in results ==>
                results[id] == row || (results[id].key != row.key && id in old(results)
                                       && results[id] == old(results)[id])
    {
      SaveKeepsTables(Tables(), row);
      if id :| id in results && results[id].key == row.key {
        results := results[id := row];
        assert results == SaveResultTx(old(Tables()), row).results;
      } else {
        results, nextResult := results[nextResult := row], nextResult + 1;
      }
    }

    method Complete(id: nat)
      requires Valid()
      modifies this`work
      ensures Valid() && Tables() == CompleteTx(old(Tables()), id)
    {
      work := work - {id};
    }

    method Supersede(now: int, id: nat, reason: string)
      requires Valid()
      modifies this`work
      ensures Valid() && Tables() == SupersedeTx(old(Tables()), now, id, reason)
    {
      if id in work {
        var row := work[id].(state := Superseded, leaseUntil := None, workerId := None);
        work := work[id := row.(errorCode := Some("revision_superseded"), lastError := Some(Clip(reason, 2000)),
                                updatedAt := now)];
      }
    }

    method Fail(now: int, lease: WorkLease, failure: Failure, maxAttempts: int)
      requires Valid()
      modifies this`work
      ensures Valid() && Tables() == FailTx(old(Tables()), now, lease, failure, maxAttempts)
    {
      var isDead := failure.permanent || lease.attempts >= maxAttempts;
      var delay := Min(6 * 60 * 60, 30 * Pow2(Max(0, lease.attempts - 1)));
      if lease.id in work {
        var row := work[lease.id].(state := if isDead then Dead else Pending, availableAt := now + delay);
        row := row.(leaseUntil := None, workerId := None, isPermanent := failure.permanent, updatedAt := now);
        row := row.(errorCode := Some(Clip(failure.code, 64)), lastError := Some(Clip(failure.message, 2000)));
        work := work[lease.id := row];
      }
    }

    method Revive(now: int, id: nat, priority: int)
      requires Valid()
      modifies this`work
      ensures Valid() && Tables() == ReviveTx(old(Tables()), now, id, priority)
    {
      if id in work && work[id].state.Dead? {
        var row := work[id].(state := Pending, attempts := 0, priority := priority, availableAt := now);
        work := work[id := row.(errorCode := None, lastError := None, updatedAt := now)];
      }
    }

    /** `chosen` is what the capped SELECT of obsolete results hands back. */
    method Cleanup(queueCutoff: int, resultCutoff: int, chosen: set<nat>)
      returns (removedWork: nat, removedResults: nat)
      requires Valid() && IsCleanupChoice(results, resultCutoff, chosen)
      modifies this`work, this`results
      ensures Valid() && Tables() == CleanupTx(old(Tables()), queueCutoff, chosen)
      ensures removedWork == |old(work)| - |work| && removedResults == |old(results)| - |results| == |chosen|
      ensures forall id :: id in work <==>
                id in old(work)
                && (old(work)[id].state.Pending? || old(work)[id].state.Leased?
                    || old(work)[id].updatedAt >= queueCutoff)
      ensures forall id :: id in work ==> work[id] == old(work)[id]
      ensures forall id :: id in results <==> id in old(results) && id !in chosen
      ensures forall id :: id in results ==> results[id] == old(results)[id]
      ensures forall id :: id in old(results) && old(results)[id].computedAt >= resultCutoff ==> id in results
    {
      ChosenAreStored(results, resultCutoff, chosen);
      removedWork, removedResults := DeleteRows(queueCutoff, chosen);
    }

    method DeleteRows(queueCutoff: int, chosen: set<nat>) returns (removedWork: nat, removedResults: nat)
      requires Valid() && chosen <= results.Keys
      modifies this`work, this`results
      ensures Valid() && Tables() == CleanupTx(old(Tables()), queueCutoff, chosen)
      ensures removedWork == |old(work)| - |work| && removedResults == |old(results)| - |results| == |chosen|
    {
      CleanupKeepsTables(Tables(), queueCutoff, chosen);
      removedWork := DeleteExpired(queueCutoff);
      removedResults := DeleteResults(chosen);
    }

    method DeleteExpired(queueCutoff: int) returns (removed: nat)
      modifies this`work
      ensures work == Unexpired(old(work), queueCutoff)
      ensures removed == |old(work)| - |work|
    {
      UnexpiredAreFewer(work, queueCutoff);
      var kept := Unexpired(work, queueCutoff);
      removed := |work| - |kept|;
      work := kept;
    }

    method DeleteResults(chosen: set<nat>) returns (removed: nat)
      requires chosen <= results.Keys
      modifies this`results
      ensures results == old(results) - chosen
      ensures removed == |old(results)| - |results| == |chosen|
    {
      WithoutChosen(results, chosen);
      removed := |results| - |results - chosen|;
      results := results - chosen;
    }

    /** Every account the wiki's stored results would name, each once, in ascending order. */
    method NamedContributorIds(wiki: string) returns (ids: seq<int>)
      ensures forall id :: id in ids <==> NamedBy(results, results.Keys, wiki, id)
      ensures forall id :: id in ids <==>
                id > 0 && exists row :: row in results && results[row].key.page.wiki == wiki
                                        && exists k :: 0 <= k < |results[row].answer.contributors|
                                                       && results[row].answer.contributors[k].userId == id
      ensures StrictlyAscending(ids)
    {
      var seen: set<int> := {};
      var todo := results.Keys;
      while exists row :: row in todo
        invariant todo <= results.Keys
        invariant forall id :: id in seen <==> NamedBy(results, results.Keys - todo, wiki, id)
        decreases |todo|
      {
        var row :| row in todo;
        todo := todo - {row};
        if results[row].key.page.wiki == wiki {
          var contributors := results[row].answer.contributors;
          for k := 0 to |contributors|
            invariant forall id :: id in seen <==>
                                     || NamedBy(results, results.Keys - todo - {row}, wiki, id)
                                     || (id > 0 && exists i :: 0 <= i < k && contributors[i].userId == id)
          {
            if contributors[k].userId > 0 {
              seen := seen + {contributors[k].userId};
            }
          }
        }
      }
      ids := Ascending(seen);
    }

    /** The records one wiki has, by account. */
    function StandingRecords(wiki: string): (known: map<int, StandingRecord>)
      reads this
      ensures forall id :: id in known <==> Scoped(wiki, id) in standing
      ensures known.Keys == IdsOf(standing, wiki) && |known| == |IdsOf(standing, wiki)|
      ensures forall id :: id in known ==> known[id] == RecordOf(id, standing[Scoped(wiki, id)])
    {
      IdsOfHolds(standing, wiki);
      var known := map id | id in IdsOf(standing, wiki) :: RecordOf(id, standing[Scoped(wiki, id)]);
      assert known.Keys == IdsOf(standing, wiki);
      known
    }

    function GetState(key: string): Option<string>
      reads this
    {
      if key in state then Some(state[key]) else None
    }

    method SetState(key: string, value: string)
      modifies this`state
      ensures state == old(state)[key := value]
    {
      state := state[key := value];
    }

    predicate IsOptedOut(wiki: string, pageId: int)
      reads this
    {
      Scoped(wiki, pageId) in optout
    }

    /** One wiki's accounts become those of the records, and nothing else changes. */
    method ReplaceStanding(now: int, wiki: string, records: seq<StandingRecord>) returns (added: nat, removed: nat)
      modifies this`standing
      ensures Replaces(old(standing), standing, wiki, StandingRows(records, now))
      ensures added == |StandingRows(records, now).Keys - IdsOf(old(standing), wiki)|
      ensures removed == |IdsOf(old(standing), wiki) - StandingRows(records, now).Keys|
      ensures |StandingRows(records, now)| == |IdsOf(old(standing), wiki)| + added - removed
      ensures forall id ::
                Scoped(wiki, id) in standing
                <==> exists k :: 0 <= k < |records| && records[k].standing.userId == id
      ensures forall k :: 0 <= k < |records| && LastOfAccount(records, k) ==>
                standing[Scoped(wiki, records[k].standing.userId)] == StandingRow(records[k], now)
    {
      IdsOfHolds(standing, wiki);
      standing, added, removed := ReplaceScoped(standing, wiki, IdsOf(standing, wiki), StandingRows(records, now));
      WantedStandingKeys(records);
      forall k | 0 <= k < |records| && LastOfAccount(records, k)
        ensures WantedStanding(records)[records[k].standing.userId] == records[k]
      {
        WantedStandingHolds(records, k);
      }
    }

    /** One wiki's list becomes that of the entries, and nothing else changes. */
    method ReplaceOptout(now: int, wiki: string, entries: seq<OptOutEntry>) returns (added: nat, removed: nat)
      modifies this`optout
      ensures Replaces(old(optout), optout, wiki, OptOutRows(entries, now))
      ensures added == |OptOutRows(entries, now).Keys - IdsOf(old(optout), wiki)|
      ensures removed == |IdsOf(old(optout), wiki) - OptOutRows(entries, now).Keys|
      ensures |OptOutRows(entries, now)| == |IdsOf(old(optout), wiki)| + added - removed
      ensures forall id ::
                Scoped(wiki, id) in optout <==> exists k :: 0 <= k < |entries| && entries[k].pageId == id
      ensures forall k :: 0 <= k < |entries| && LastOfPage(entries, k) ==>
                optout[Scoped(wiki, entries[k].pageId)] == OptOutRow(entries[k], now)
    {
      IdsOfHolds(optout, wiki);
      optout, added, removed := ReplaceScoped(optout, wiki, IdsOf(optout, wiki), OptOutRows(entries, now));
      WantedOptOutKeys(entries);
      forall k | 0 <= k < |entries| && LastOfPage(entries, k)
        ensures WantedOptOut(entries)[entries[k].pageId] == entries[k]
      {
        WantedOptOutHolds(entries, k);
      }
    }
  }

  /** A record read back has the stored fields, under the id of its row. */
  lemma RecordsAreAsStored(repository: Repository, wiki: string, id: int)
    requires Scoped(wiki, id) in repository.standing
    ensures var record, stored := repository.StandingRecords(wiki)[id], repository.standing[Scoped(wiki, id)].record;
            record.lockCheckedAt == stored.lockCheckedAt && record.standing == stored.standing.(userId := id)
  {}

  function StandingRows(records: seq<StandingRecord>, now: int): map<int, StandingRow> {
    map id | id in WantedStanding(records) :: StandingRow(WantedStanding(records)[id], now)
  }

  function OptOutRows(entries: seq<OptOutEntry>, now: int): map<int, OptOutRow> {
    map id | id in WantedOptOut(entries) :: OptOutRow(WantedOptOut(entries)[id], now)
  }

  /** One wiki's rows are exactly the wanted ones; every other wiki's rows are untouched. */
  ghost predicate Replaces<V>(before: map<Scoped, V>, after: map<Scoped, V>, wiki: string, wanted: map<int, V>) {
    && (forall key: Scoped :: key.wiki != wiki ==> (key in after <==> key in before))
    && (forall key :: key in after && key.wiki != wiki ==> after[key] == before[key])
    && (forall id :: Scoped(wiki, id) in after <==> id in wanted)
    && (forall id :: id in wanted ==> after[Scoped(wiki, id)] == wanted[id])
  }

  /** Every wanted row but those of `todo` has been written, and unwanted rows are gone. */
  ghost predicate Halfway<V>(table: map<Scoped, V>, after: map<Scoped, V>, wiki: string, wanted: map<int, V>,
                             todo: set<int>) {
    && (forall key: Scoped :: key in after <==>
          if key.wiki == wiki then key.id in wanted && (key.id !in todo || key in table) else key in table)
    && (forall key: Scoped :: key in after ==>
          after[key] == if key.wiki == wiki && key.id !in todo then wanted[key.id] else table[key])
  }

  lemma WriteOneRow<V>(table: map<Scoped, V>, after: map<Scoped, V>, wiki: string, wanted: map<int, V>, todo: set<int>,
                       id: int)
    requires Halfway(table, after, wiki, wanted, todo) && todo <= wanted.Keys && id in todo
    ensures Halfway(table, after[Scoped(wiki, id) := wanted[id]], wiki, wanted, todo - {id})
    ensures Scoped(wiki, id) in after <==> Scoped(wiki, id) in table
  {}

  lemma AllRowsWritten<V>(table: map<Scoped, V>, after: map<Scoped, V>, wiki: string, wanted: map<int, V>)
    requires Halfway(table, after, wiki, wanted, {})
    ensures Replaces(table, after, wiki, wanted)
  {}

  lemma OneLessToDo(todo: set<int>, existing: set<int>, id: int)
    requires id in todo
    ensures |todo - existing| == |(todo - {id}) - existing| + if id in existing then 0 else 1
    ensures |todo - {id}| < |todo|
  {
    assert todo - existing == ((todo - {id}) - existing) + (if id in existing then {} else {id});
  }

  /** Rows after a replacement are the rows before, plus the added, minus the removed. */
  lemma ReplacementCount(before: set<int>, wanted: set<int>)
    ensures |wanted| == |before| + |wanted - before| - |before - wanted|
  {
    assert wanted == (wanted * before) + (wanted - before);
    assert before == (wanted * before) + (before - wanted);
  }

  /** Deletes what is not wanted, then inserts or overwrites row by row. */
  method ReplaceScoped<V>(table: map<Scoped, V>, wiki: string, existing: set<int>, wanted: map<int, V>)
    returns (after: map<Scoped, V>, added: nat, removed: nat)
    requires forall id :: id in existing <==> Scoped(wiki, id) in table
    ensures Replaces(table, after, wiki, wanted)
    ensures added == |wanted.Keys - existing|
    ensures removed == |existing - wanted.Keys|
    ensures |wanted| == |existing| + added - removed
  {
    removed := |existing - wanted.Keys|;
    after := map key | key in table && (key.wiki == wiki ==> key.id in wanted) :: table[key];
    added := 0;
    var todo := wanted.Keys;
    while exists id :: id in todo
      invariant todo <= wanted.Keys
      invariant Halfway(table, after, wiki, wanted, todo)
      invariant added + |todo - existing| == |wanted.Keys - existing|
      decreases |todo|
    {
      var id :| id in todo;
      OneLessToDo(todo, existing, id);
      WriteOneRow(table, after, wiki, wanted, todo, id);
      if Scoped(wiki, id) !in after {
        added := added + 1;
      }
      after := after[Scoped(wiki, id) := wanted[id]];
      todo := todo - {id};
    }
    AllRowsWritten(table, after, wiki, wanted);
    ReplacementCount(existing, wanted.Keys);
  }
}
