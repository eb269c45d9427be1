/** The two page endpoints (app.py): what they answer, and what they leave in the queue. */
module Endpoints {
  import opened Options
  import opened Policy
  import opened WorkQueue
  import opened Draining
  import opened Repository
  import opened Presentation

  const READER_PRIORITY := 100

  datatype ApiSettings = ApiSettings(algorithm: string, deadRetry: int, freshness: int, hide: bool,
                                     maxVisibleBlock: string -> int, wording: Wording)

  datatype Response =
    | NotServed
    | Invalid
    | Ready(row: ResultRow, fields: Fields, isFresh: bool, refreshing: bool)
    | Pending202
    | Unavailable503(errorCode: Option<string>)

  // ---- The queue half ---------------------------------------------------------------

  /** A dead row that may be tried again. */
  predicate Ripe(row: WorkRow, now: int, deadRetry: int) {
    row.state.Dead? && !row.isPermanent && row.updatedAt + deadRetry <= now
  }

  /** Some dead row of the key is permanent or not ripe yet. */
  predicate Refuses(db: Db, now: int, key: Key, deadRetry: int) {
    exists id :: id in db.work && db.work[id].key == key && db.work[id].state.Dead?
        && !Ripe(db.work[id], now, deadRetry)
  }

  /** A request is refused exactly for a dead row that failed for good or was touched within the retry time. */
  lemma RefusedRows(db: Db, now: int, key: Key, deadRetry: int)
    ensures Refuses(db, now, key, deadRetry)
            <==> exists id :: id in db.work && db.work[id].key == key && db.work[id].state.Dead?
                              && (db.work[id].isPermanent || now < db.work[id].updatedAt + deadRetry)
  {
    if Refuses(db, now, key, deadRetry) {
      var id :| id in db.work && db.work[id].key == key && db.work[id].state.Dead?
          && !Ripe(db.work[id], now, deadRetry);
      assert db.work[id].isPermanent || now < db.work[id].updatedAt + deadRetry;
    }
    if id :| id in db.work && db.work[id].key == key && db.work[id].state.Dead?
             && (db.work[id].isPermanent || now < db.work[id].updatedAt + deadRetry) {
      assert !Ripe(db.work[id], now, deadRetry);
    }
  }

  predicate RipeRow(db: Db, now: int, key: Key, deadRetry: int, id: nat) {
    id in db.work && db.work[id].key == key && Ripe(db.work[id], now, deadRetry)
  }

  /** From the look at the key's row to the revival that follows if the row is ripe. */
  ghost predicate Looked(before: Db, after: Db, now: int, key: Key, deadRetry: int, moment: Moment) {
    if exists id :: RipeRow(before, now, key, deadRetry, id) then
      exists id :: RipeRow(before, now, key, deadRetry, id)
          && after == ReviveTx(moment.others(before), moment.now, id, READER_PRIORITY)
    else after == before
  }

  predicate SupersededRow(work: map<nat, WorkRow>, key: Key) {
    exists id :: id in work && work[id].key == key && work[id].state.Superseded?
  }

  /** The key's row is dead or superseded. */
  predicate EndedRow(work: map<nat, WorkRow>, key: Key) {
    exists id :: id in work && work[id].key == key && !Active(work[id])
  }

  /**
   * The transaction behind a 202 leaves the reader without a job exactly when it finds the
   * requested row dead or superseded and nothing newer at work; the row then stays ended.
   */
  lemma AskingLeavesNoJobIff(db: Db, now: int, key: Key)
    requires TablesOk(db)
    ensures var after := EnqueueTx(db, now, key, READER_PRIORITY);
            && (!Backed(after.work, key) <==> EndedRow(db.work, key) && !NewerActive(db.work, key))
            && (!Backed(after.work, key) ==> EndedRow(after.work, key))
  {
    EnqueueTxBacks(db, now, key, READER_PRIORITY);
    var after := EnqueueTx(db, now, key, READER_PRIORITY);
    if Backed(db.work, key) && EndedRow(db.work, key) {
      var id :| id in db.work && db.work[id].key.page == key.page && db.work[id].key.revision >= key.revision
          && Active(db.work[id]);
      var ended :| ended in db.work && db.work[ended].key == key && !Active(db.work[ended]);
      assert db.work[id].key != key ==> NewerActive(db.work, key);
    }
    if HasWork(db.work, key) && !EndedRow(db.work, key) {
      var id :| id in db.work && db.work[id].key == key;
      assert Active(db.work[id]);
    }
    if !Backed(after.work, key) {
      var id :| id in db.work && db.work[id].key == key && !Active(db.work[id]);
      assert after.work[id] == db.work[id];
    }
  }

  /**
   * When no other session runs between the transactions of a request that is not refused,
   * a 202 has work behind it, unless the requested row was superseded with nothing newer
   * at work.
   */
  lemma PendingIsBacked(db: Db, looked: Db, now: int, key: Key, deadRetry: int)
    requires TablesOk(db) && !Refuses(db, now, key, deadRetry)
             && Looked(db, looked, now, key, deadRetry, Moment(Alone, now))
    ensures !Backed(EnqueueTx(looked, now, key, READER_PRIORITY).work, key)
            <==> SupersededRow(db.work, key) && !NewerActive(db.work, key)
  {
    if exists id :: RipeRow(db, now, key, deadRetry, id) {
      var id :| RipeRow(db, now, key, deadRetry, id) && looked == ReviveTx(Alone(db), now, id, READER_PRIORITY);
      assert Active(looked.work[id]) && looked.work[id].key == key;
      assert TablesOk(looked);
      assert forall other :: other in db.work && db.work[other].key == key ==> other == id;
      assert forall other :: other in looked.work && looked.work[other].key == key ==> other == id;
      assert !EndedRow(looked.work, key) && !SupersededRow(db.work, key);
    } else {
      forall id | id in db.work && db.work[id].key == key && !Active(db.work[id])
        ensures db.work[id].state.Superseded?
      {
        assert !RipeRow(db, now, key, deadRetry, id);
      }
      assert EndedRow(db.work, key) <==> SupersededRow(db.work, key);
    }
    AskingLeavesNoJobIff(looked, now, key);
  }

  /** A ripe dead row is at work once it was looked at and the queue was asked, with nobody in between. */
  lemma RetriedRowIsActive(db: Db, looked: Db, now: int, key: Key, deadRetry: int, freshness: int, id: nat)
    requires TablesOk(db) && id in db.work && db.work[id].key == key && db.work[id].state.Dead?
    requires !db.work[id].isPermanent && db.work[id].updatedAt + deadRetry <= now
    requires Looked(db, looked, now, key, deadRetry, Moment(Alone, now))
    ensures ActiveWork(EnqueueIfStaleAmid(looked, now, key, READER_PRIORITY, freshness, Moment(Alone, now)).work, key)
  {
    assert RipeRow(db, now, key, deadRetry, id);
    var ripe :| RipeRow(db, now, key, deadRetry, ripe) && looked == ReviveTx(Alone(db), now, ripe, READER_PRIORITY);
    assert Active(looked.work[ripe]) && looked.work[ripe].key == key;
    var asked := EnqueueIfStaleAmid(looked, now, key, READER_PRIORITY, freshness, Moment(Alone, now));
    assert Active(asked.work[ripe]) && asked.work[ripe].key == key;
  }

  /**
   * What a ready answer shows, from the stored tables: nobody if the article is opted out,
   * and otherwise the stored contributors whose row, if they have one, does not withhold them.
   */
  lemma FieldsFollowTheTables(api: Api, row: ResultRow, now: int)
    ensures var wiki, pageId, fields := row.key.page.wiki, row.key.page.pageId, api.FieldsOf(row, now);
            && (fields.optedOut <==> Scoped(wiki, pageId) in api.repository.optout)
            && (fields.optedOut ==> fields.contributors == [])
            && fields.distinct == row.answer.distinct
            && fields.other == Max(0, fields.distinct - |fields.contributors|)
            && forall c: Contributor :: c in fields.contributors <==>
                 && c in row.answer.contributors && Scoped(wiki, pageId) !in api.repository.optout
                 && (api.settings.hide && Scoped(wiki, c.userId) in api.repository.standing ==>
                       IsNameable(Some(api.repository.standing[Scoped(wiki, c.userId)].record.standing),
                                  api.settings.maxVisibleBlock(wiki), now, api.settings.wording))
  {
    var wiki := row.key.page.wiki;
    var rule := Rule(api.settings.hide, api.settings.maxVisibleBlock(wiki), now, api.settings.wording);
    forall c: Contributor
      ensures c in Showable(row.answer.contributors, api.StandingsOf(wiki), rule)
              <==> c in row.answer.contributors && MayShow(c, api.StandingsOf(wiki), rule)
    {
      ShowableMembers(row.answer.contributors, api.StandingsOf(wiki), rule, c);
    }
  }

  /** With nobody else there, a ripe dead row of the requested revision is retried behind a stale answer. */
  lemma StaleAnswersRetryDeadRows(api: Api, before: Db, after: Db, response: Response, key: Key, now: int)
    requires TablesOk(before) && api.ServedByFreshness(before, after, response, key, now, Quietly(now))
    requires !response.isFresh && !response.refreshing
    ensures api.NothingToRetry(before, key, now)
  {
    var looked, asked, ended :| Looked(before, looked, now, key, api.settings.deadRetry, Moment(Alone, now))
        && api.AskedIfStale(looked, asked, ended, key, Quietly(now)) && after == ended;
    forall id | id in before.work && before.work[id].key == key && before.work[id].state.Dead?
                && !before.work[id].isPermanent && before.work[id].updatedAt + api.settings.deadRetry <= now
      ensures false
    {
      RetriedRowIsActive(before, looked, now, key, api.settings.deadRetry, api.settings.freshness, id);
    }
  }

  class Api {
    const repository: Repository
    const settings: ApiSettings

    constructor (repository: Repository, settings: ApiSettings)
      ensures this.repository == repository && this.settings == settings
    {
      this.repository, this.settings := repository, settings;
    }

    /** What is known about the accounts a response would name. */
    function StandingsOf(wiki: string): int -> Option<AccountStanding>
      reads repository
    {
      var table := repository.standing;
      id => if Scoped(wiki, id) in table then Some(RecordOf(id, table[Scoped(wiki, id)]).standing) else None
    }

    /** The fields of a ready answer under the policy in force. */
    function FieldsOf(row: ResultRow, now: int): Fields
      reads repository
    {
      var page := row.key.page;
      AttributionFields(row.answer, repository.IsOptedOut(page.wiki, page.pageId), StandingsOf(page.wiki),
                        Rule(settings.hide, settings.maxVisibleBlock(page.wiki), now, settings.wording))
    }

    /** Revive the row of the key if it is dead and ripe; refuse if it is dead and must stay so. */
    method ReviveOrRefuse(now: int, key: Key, moment: Moment) returns (refused: bool, errorCode: Option<string>)
      requires repository.Valid() && Sound(moment.others)
      modifies repository`work, repository`nextWork, repository`results, repository`nextResult
      ensures repository.Valid()
      ensures refused <==> Refuses(old(repository.Tables()), now, key, settings.deadRetry)
      ensures refused <==>
                exists id :: id in old(repository.work) && old(repository.work)[id].key == key
                  && old(repository.work)[id].state.Dead?
                  && (old(repository.work)[id].isPermanent
                      || now < old(repository.work)[id].updatedAt + settings.deadRetry)
      ensures Looked(old(repository.Tables()), repository.Tables(), now, key, settings.deadRetry, moment)
      ensures refused ==> repository.Tables() == old(repository.Tables())
      ensures refused ==> exists id ::
              id in repository.work && repository.work[id].key == key && repository.work[id].errorCode == errorCode
    {
      RefusedRows(repository.Tables(), now, key, settings.deadRetry);
      refused, errorCode := false, None;
      var id := repository.GetWork(key);
      if id.None? {
        return;
      }
      var row := repository.work[id.value];
      if row.state.Dead? {
        var retryAt := row.updatedAt + settings.deadRetry;
        if !row.isPermanent && retryAt <= now {
          assert RipeRow(repository.Tables(), now, key, settings.deadRetry, id.value);
          repository.Yield(moment.others);
          repository.Revive(moment.now, id.value, READER_PRIORITY);
        } else {
          return true, row.errorCode;
        }
      }
    }

    /** What a v1 request that is not refused leaves once it has looked. */
    ghost predicate AskedExactly(looked: Db, after: Db, key: Key, pace: Pace) {
      && after == EnqueueAmid(pace(2).others(looked), pace(2).now, key, READER_PRIORITY, false, pace(3).others)
      && (Backed(after.work, key) || EndedRow(after.work, key) || HasResult(after.results, key))
    }

    /**
     * GET /v1: the answer of exactly this revision. `pace(i)` is what happens before the
     * request's next transaction: the look at the row, the revival, the look for an answer
     * that came in, the queue.
     */
    method PageAttribution(served: bool, wiki: string, pageId: int, revision: int, now: int, pace: Pace)
      returns (response: Response)
      requires repository.Valid() && SoundPace(pace)
      modifies repository`work, repository`nextWork, repository`results, repository`nextResult
      ensures repository.Valid()
      ensures response.Ready? ==>
                && (response.fields.optedOut <==> Scoped(wiki, pageId) in repository.optout)
                && (response.fields.optedOut ==> response.fields.contributors == [])
                && response.fields.distinct == response.row.answer.distinct
                && response.fields.other == Max(0, response.fields.distinct - |response.fields.contributors|)
                && forall c: Contributor :: c in response.fields.contributors <==>
                     && c in response.row.answer.contributors && Scoped(wiki, pageId) !in repository.optout
                     && (settings.hide && Scoped(wiki, c.userId) in repository.standing ==>
                           IsNameable(Some(repository.standing[Scoped(wiki, c.userId)].record.standing),
                                      settings.maxVisibleBlock(wiki), now, settings.wording))
      ensures response.Ready? && settings.hide ==>
                forall c: Contributor ::
                  (c in response.fields.contributors && Scoped(wiki, c.userId) in repository.standing) ==>
                  var account := repository.standing[Scoped(wiki, c.userId)].record.standing;
                  !(account.globallyLocked && account.lockReason.Some? && account.lockReason.value != ""
                    && settings.wording.lockSanction(account.lockReason.value))
      ensures response.Ready? ==>
                && response.row.key == Key(PageRef(wiki, pageId, settings.algorithm), revision)
                && exists id :: id in repository.results && repository.results[id] == response.row
      ensures var key := Key(PageRef(wiki, pageId, settings.algorithm), revision);
              var before, after := old(repository.Tables()), repository.Tables();
              var looking := pace(0).others(before);
              if revision <= 0 then response == Invalid && after == before
              else if !served then response == NotServed && after == before
              else if pageId <= 0 then response == Invalid && after == before
              else if HasResult(before.results, key) then
                response.Ready? && after == before && response.row.key == key
                    && response.fields == FieldsOf(response.row, now)
              else if Refuses(looking, pace(0).now, key, settings.deadRetry) then response.Unavailable503?
                  && after == looking
              else
                && response == Pending202
                && exists looked ::
                     && Looked(looking, looked, pace(0).now, key, settings.deadRetry, pace(1))
                     && AskedExactly(looked, after, key, pace)
    {
      if revision <= 0 {
        return Invalid;
      }
      if !served {
        return NotServed;
      }
      if pageId <= 0 {
        return Invalid;
      }
      var key := Key(PageRef(wiki, pageId, settings.algorithm), revision);
      var result := repository.GetResult(key);
      if result.Some? {
        FieldsFollowTheTables(this, result.value, now);
        return Ready(result.value, FieldsOf(result.value, now), true, false);
      }
      repository.Yield(pace(0).others);
      var refused, errorCode := ReviveOrRefuse(pace(0).now, key, pace(1));
      if refused {
        return Unavailable503(errorCode);
      }
      AskExactly(key, pace);
      return Pending202;
    }

    /** The call of `enqueue` at the end of a v1 request. */
    method AskExactly(key: Key, pace: Pace)
      requires repository.Valid() && SoundPace(pace)
      modifies repository`work, repository`nextWork, repository`results, repository`nextResult
      ensures repository.Valid() && AskedExactly(old(repository.Tables()), repository.Tables(), key, pace)
    {
      repository.Yield(pace(2).others);
      ghost var checking := repository.Tables();
      repository.Enqueue(pace(2).now, key, READER_PRIORITY, false, pace(3).others);
      if !HasResult(checking.results, key) {
        AskingLeavesNoJobIff(pace(3).others(checking), pace(2).now, key);
      }
    }

    /** What a v2 request leaves at its enqueue; the others run once more before it ends. */
    ghost predicate AskedIfStale(looked: Db, asked: Db, after: Db, key: Key, pace: Pace) {
      var checking := pace(2).others(looked);
      && asked == EnqueueIfStaleAmid(checking, pace(2).now, key, READER_PRIORITY, settings.freshness, pace(3))
      && after == (if FreshSince(checking.results, key.page, pace(2).now - settings.freshness) then asked
                   else pace(4).others(asked))
      && (Backed(asked.work, key) || EndedRow(asked.work, key)
          || FreshSince(asked.results, key.page, pace(2).now - settings.freshness))
    }

    /** The call of `enqueue_if_stale` in a v2 request. */
    method AskIfStale(key: Key, pace: Pace) returns (ghost asked: Db)
      requires repository.Valid() && SoundPace(pace)
      modifies repository`work, repository`nextWork, repository`results, repository`nextResult
      ensures repository.Valid() && AskedIfStale(old(repository.Tables()), asked, repository.Tables(), key, pace)
    {
      repository.Yield(pace(2).others);
      ghost var checking := repository.Tables();
      asked := EnqueueIfStaleAmid(checking, pace(2).now, key, READER_PRIORITY, settings.freshness, pace(3));
      var _ := repository.EnqueueIfStale(pace(2).now, key, READER_PRIORITY, settings.freshness, pace(3),
                                         pace(4).others);
      if !FreshSince(checking.results, key.page, pace(2).now - settings.freshness) {
        AskingLeavesNoJobIff(pace(3).others(checking), pace(3).now, key);
      }
    }

    /** GET /v2 for a page with an answer: refreshed behind the reader's back when stale. */
    ghost predicate ServedByFreshness(before: Db, after: Db, response: Response, key: Key, now: int, pace: Pace)
      reads repository
    {
      && response.Ready?
      && (exists id :: IsLatest(before.results, key.page, id) && before.results[id] == response.row)
      && response.fields == FieldsOf(response.row, now)
      && (response.isFresh <==> response.row.computedAt + settings.freshness > now)
      && (if response.isFresh then !response.refreshing && after == before
          else
            && (response.refreshing <==> ActiveWork(after.work, key))
            && exists looked, asked, ended ::
                 && Looked(pace(0).others(before), looked, now, key, settings.deadRetry, pace(1))
                 && AskedIfStale(looked, asked, ended, key, pace) && after == pace(5).others(ended))
    }

    /** No row of the key is dead, not for good, and past its retry time. */
    ghost predicate NothingToRetry(db: Db, key: Key, now: int) {
      forall id :: id in db.work && db.work[id].key == key && db.work[id].state.Dead? && !db.work[id].isPermanent ==>
        now < db.work[id].updatedAt + settings.deadRetry
    }

    /** The refresh of a stale answer. */
    method Refresh(key: Key, now: int, pace: Pace)
      returns (refreshing: bool, ghost looked: Db, ghost asked: Db, ghost ended: Db)
      requires repository.Valid() && SoundPace(pace)
      modifies repository`work, repository`nextWork, repository`results, repository`nextResult
      ensures repository.Valid() && (refreshing <==> ActiveWork(repository.work, key))
      ensures Looked(pace(0).others(old(repository.Tables())), looked, now, key, settings.deadRetry, pace(1))
      ensures AskedIfStale(looked, asked, ended, key, pace) && repository.Tables() == pace(5).others(ended)
    {
      repository.Yield(pace(0).others);
      var _, _ := ReviveOrRefuse(now, key, pace(1));
      looked := repository.Tables();
      asked := AskIfStale(key, pace);
      ended := repository.Tables();
      repository.Yield(pace(5).others);
      var id := repository.GetWork(key);
      refreshing := id.Some? && Active(repository.work[id.value]);
    }

    /** A page with an answer: serve it, refreshed if stale. */
    method ServeByFreshness(row: ResultRow, key: Key, now: int, pace: Pace) returns (response: Response)
      requires repository.Valid() && SoundPace(pace)
      requires exists id :: IsLatest(repository.results, key.page, id) && repository.results[id] == row
      modifies repository`work, repository`nextWork, repository`results, repository`nextResult
      ensures repository.Valid() && response.Ready? && response.row == row && response.fields == FieldsOf(row, now)
      ensures ServedByFreshness(old(repository.Tables()), repository.Tables(), response, key, now, pace)
      ensures !response.isFresh && !response.refreshing && pace == Quietly(now) ==>
                NothingToRetry(old(repository.Tables()), key, now)
    {
      ghost var before := repository.Tables();
      var isFresh := row.computedAt + settings.freshness > now;
      var refreshing := false;
      if !isFresh {
        ghost var looked, asked, ended;
        refreshing, looked, asked, ended := Refresh(key, now, pace);
      }
      response := Ready(row, FieldsOf(row, now), isFresh, refreshing);
      if !isFresh && !refreshing && pace == Quietly(now) {
        StaleAnswersRetryDeadRows(this, before, repository.Tables(), response, key, now);
      }
    }

    /** GET /v2: the newest answer of the page, whatever its revision; `pace` as in v1. */
    method PageAttributionByFreshness(served: bool, wiki: string, pageId: int, revision: int, now: int, pace: Pace)
      returns (response: Response)
      requires repository.Valid() && SoundPace(pace)
      modifies repository`work, repository`nextWork, repository`results, repository`nextResult
      ensures repository.Valid()
      ensures response.Ready? ==>
                && (response.fields.optedOut <==> Scoped(wiki, pageId) in repository.optout)
                && (response.fields.optedOut ==> response.fields.contributors == [])
                && response.fields.distinct == response.row.answer.distinct
                && response.fields.other == Max(0, response.fields.distinct - |response.fields.contributors|)
                && forall c: Contributor :: c in response.fields.contributors <==>
                     && c in response.row.answer.contributors && Scoped(wiki, pageId) !in repository.optout
                     && (settings.hide && Scoped(wiki, c.userId) in repository.standing ==>
                           IsNameable(Some(repository.standing[Scoped(wiki, c.userId)].record.standing),
                                      settings.maxVisibleBlock(wiki), now, settings.wording))
      ensures response.Ready? && settings.hide ==>
                forall c: Contributor ::
                  (c in response.fields.contributors && Scoped(wiki, c.userId) in repository.standing) ==>
                  var account := repository.standing[Scoped(wiki, c.userId)].record.standing;
                  !(account.globallyLocked && account.lockReason.Some? && account.lockReason.value != ""
                    && settings.wording.lockSanction(account.lockReason.value))
      ensures response.Ready? ==>
                && (response.isFresh <==> now < response.row.computedAt + settings.freshness)
                && (response.isFresh ==> !response.refreshing && repository.Tables() == old(repository.Tables()))
                && (response.refreshing ==>
                      exists id :: id in repository.work && (repository.work[id].state.Pending?
                                                             || repository.work[id].state.Leased?)
                                   && repository.work[id].key
                                      == Key(PageRef(wiki, pageId, settings.algorithm), revision))
      ensures response.Ready? && !response.isFresh && !response.refreshing && pace == Quietly(now) ==>
                NothingToRetry(old(repository.Tables()), Key(PageRef(wiki, pageId, settings.algorithm), revision), now)
      ensures response.Ready? ==>
                && response.row.key.page == PageRef(wiki, pageId, settings.algorithm)
                && exists id :: id in old(repository.results) && old(repository.results)[id] == response.row
      ensures var key := Key(PageRef(wiki, pageId, settings.algorithm), revision);
              var before, after := old(repository.Tables()), repository.Tables();
              var looking := pace(0).others(before);
              if revision <= 0 then response == Invalid && after == before
              else if !served then response == NotServed && after == before
              else if pageId <= 0 then response == Invalid && after == before
              else if PageHasResult(before.results, key.page)
                  then ServedByFreshness(before, after, response, key, now, pace)
              else if Refuses(looking, pace(0).now, key, settings.deadRetry) then response.Unavailable503?
                  && after == looking
              else
                && response == Pending202
                && exists looked, asked ::
                     Looked(looking, looked, pace(0).now, key, settings.deadRetry, pace(1))
                         && AskedIfStale(looked, asked, after, key, pace)
    {
      if revision <= 0 {
        return Invalid;
      }
      if !served {
        return NotServed;
      }
      if pageId <= 0 {
        return Invalid;
      }
      var key := Key(PageRef(wiki, pageId, settings.algorithm), revision);
      var result := repository.GetLatestResult(key.page);
      if result.Some? {
        response := ServeByFreshness(result.value, key, now, pace);
        FieldsFollowTheTables(this, result.value, now);
        return;
      }
      repository.Yield(pace(0).others);
      var refused, errorCode := ReviveOrRefuse(pace(0).now, key, pace(1));
      if refused {
        return Unavailable503(errorCode);
      }
      ghost var asked := AskIfStale(key, pace);
      return Pending202;
    }
  }

  /**
   * A stale answer is queued for refresh exactly when it is older than the freshness
   * window: at the very end of the window it is already served as stale, but the queue
   * still takes it for fresh and adds nothing.
   */
  lemma StaleIsQueuedStrictlyLater(db: Db, now: int, key: Key, priority: int, freshness: int, id: nat)
    requires TablesOk(db) && IsLatest(db.results, key.page, id)
    ensures db.results[id].computedAt >= now - freshness ==> EnqueueIfStale(db, now, key, priority, freshness) == db
    ensures db.results[id].computedAt < now - freshness ==>
              (Backed(EnqueueIfStale(db, now, key, priority, freshness).work, key)
               <==> Backed(db.work, key) || !HasWork(db.work, key))
    ensures db.results[id].computedAt == now - freshness ==>
              !(db.results[id].computedAt + freshness > now) && EnqueueIfStale(db, now, key, priority, freshness) == db
  {
    if FreshSince(db.results, key.page, now - freshness) {
      var recent :| recent in db.results && db.results[recent].key.page == key.page
          && db.results[recent].computedAt >= now - freshness;
      assert recent != id ==> ServedBefore(db.results, id, recent);
    }
    EnqueueBacks(db, now, key, priority, true);
  }
}
