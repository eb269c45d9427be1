/** Handing batches of articles to the queue (backfill.py), the first time and again. */
module Offering {
  import opened Options
  import opened WorkQueue
  import opened QueueRuns
  import opened Repository
  import opened Replica
  import opened Walk

  const BACKFILL_PRIORITY := 10

  datatype Feed = Feed(wiki: string, algorithm: string, freshness: int)

  function KeyOf(feed: Feed, page: ReplicaPage): Key {
    Key(PageRef(feed.wiki, page.pageId, feed.algorithm), page.revision)
  }

  function Offer(db: Db, now: int, feed: Feed, page: ReplicaPage): Db {
    EnqueueIfStale(db, now, KeyOf(feed, page), BACKFILL_PRIORITY, feed.freshness)
  }

  /** The pages offered in order, each at its own time; nobody else touches the queue meanwhile. */
  function OfferAll(db: Db, clock: Clock, feed: Feed, pages: seq<ReplicaPage>): Db {
    if pages == [] then db
    else
      var n := |pages| - 1;
      Offer(OfferAll(db, clock, feed, pages[..n]), clock(n), feed, pages[n])
  }

  /**
   * The same with other sessions at work: before the offer of a page, between its look for a
   * fresh answer and its enqueue, and before the last look at the row.
   */
  function OfferAmid(db: Db, pace: Pace, feed: Feed, page: ReplicaPage): Db {
    var found := pace(0).others(db);
    var asked := EnqueueIfStaleAmid(found, pace(0).now, KeyOf(feed, page), BACKFILL_PRIORITY, feed.freshness, pace(1));
    if FreshSince(found.results, KeyOf(feed, page).page, pace(0).now - feed.freshness) then asked
        else pace(2).others(asked)
  }

  function OfferAllAmid(db: Db, paces: nat -> Pace, feed: Feed, pages: seq<ReplicaPage>): Db {
    if pages == [] then db
    else
      var n := |pages| - 1;
      OfferAmid(OfferAllAmid(db, paces, feed, pages[..n]), paces(n), feed, pages[n])
  }

  /** How many of the offers report a queued page. */
  function QueuedOf(db: Db, paces: nat -> Pace, feed: Feed, pages: seq<ReplicaPage>): nat {
    if pages == [] then 0
    else
      var n := |pages| - 1;
      var before := OfferAllAmid(db, paces, feed, pages[..n]);
      var found, after := paces(n)(0).others(before), OfferAmid(before, paces(n), feed, pages[n]);
      QueuedOf(db, paces, feed, pages[..n]) +
      if Queued(found, after, paces(n)(0).now, KeyOf(feed, pages[n]), feed.freshness) then 1 else 0
  }

  /** The offer of page `i` finds no answer within the window, and an active row of its key when it looks again. */
  predicate Reported(db: Db, paces: nat -> Pace, feed: Feed, pages: seq<ReplicaPage>, i: nat)
    requires i < |pages|
  {
    var before, key := OfferAllAmid(db, paces, feed, pages[..i]), KeyOf(feed, pages[i]);
    var found, after := paces(i)(0).others(before).results, OfferAllAmid(db, paces, feed, pages[..i + 1]).work;
    && (forall id :: id in found && found[id].key.page == key.page ==>
                       found[id].computedAt + feed.freshness < paces(i)(0).now)
    && exists id :: id in after && after[id].key == key && (after[id].state.Pending? || after[id].state.Leased?)
  }

  lemma ReportedMeansQueued(db: Db, paces: nat -> Pace, feed: Feed, pages: seq<ReplicaPage>, i: nat)
    requires i < |pages|
    ensures var before := OfferAllAmid(db, paces, feed, pages[..i]);
            var found, after := paces(i)(0).others(before), OfferAmid(before, paces(i), feed, pages[i]);
            Reported(db, paces, feed, pages, i)
            <==> Queued(found, after, paces(i)(0).now, KeyOf(feed, pages[i]), feed.freshness)
  {
    assert pages[..i + 1][..i] == pages[..i];
    var before := OfferAllAmid(db, paces, feed, pages[..i]);
    var found, after := paces(i)(0).others(before), OfferAmid(before, paces(i), feed, pages[i]);
    assert after == OfferAllAmid(db, paces, feed, pages[..i + 1]);
    var key := KeyOf(feed, pages[i]);
    if id :| id in after.work && after.work[id].key == key
             && (after.work[id].state.Pending? || after.work[id].state.Leased?) {
      assert Active(after.work[id]);
    }
  }

  function ReportedPlaces(db: Db, paces: nat -> Pace, feed: Feed, pages: seq<ReplicaPage>): set<nat> {
    set i: nat | i < |pages| && Reported(db, paces, feed, pages, i)
  }

  lemma ReportedBefore(db: Db, paces: nat -> Pace, feed: Feed, pages: seq<ReplicaPage>, n: nat, i: nat)
    requires i < n <= |pages|
    ensures Reported(db, paces, feed, pages[..n], i) <==> Reported(db, paces, feed, pages, i)
  {
    assert pages[..n][..i] == pages[..i] && pages[..n][..i + 1] == pages[..i + 1] && pages[..n][i] == pages[i];
  }

  lemma ReportedPlacesGrow(db: Db, paces: nat -> Pace, feed: Feed, pages: seq<ReplicaPage>)
    requires pages != []
    ensures var n := |pages| - 1;
            ReportedPlaces(db, paces, feed, pages)
            == ReportedPlaces(db, paces, feed, pages[..n]) + if Reported(db, paces, feed, pages, n) then {n} else {}
  {
    var n := |pages| - 1;
    forall i: nat
      ensures i in ReportedPlaces(db, paces, feed, pages[..n])
              <==> i in ReportedPlaces(db, paces, feed, pages) && i != n
    {
      if i < n { ReportedBefore(db, paces, feed, pages, n, i); }
    }
  }

  /** The count is that of the pages whose offer reports them queued. */
  lemma {:induction false} QueuedAreCounted(db: Db, paces: nat -> Pace, feed: Feed, pages: seq<ReplicaPage>)
    ensures QueuedOf(db, paces, feed, pages) == |ReportedPlaces(db, paces, feed, pages)|
  {
    if pages == [] {
      assert ReportedPlaces(db, paces, feed, pages) == {};
    } else {
      var n := |pages| - 1;
      QueuedAreCounted(db, paces, feed, pages[..n]);
      ReportedMeansQueued(db, paces, feed, pages, n);
      ReportedPlacesGrow(db, paces, feed, pages);
    }
  }

  ghost predicate SoundPaces(paces: nat -> Pace) {
    forall i: nat :: SoundPace(paces(i))
  }

  method EnqueuePages(repository: Repository, paces: nat -> Pace, feed: Feed, pages: seq<ReplicaPage>)
    returns (queued: nat)
    requires repository.Valid() && SoundPaces(paces)
    modifies repository`work, repository`nextWork, repository`results, repository`nextResult
    ensures repository.Valid() && repository.Tables() == OfferAllAmid(old(repository.Tables()), paces, feed, pages)
    ensures queued == QueuedOf(old(repository.Tables()), paces, feed, pages)
  {
    queued := 0;
    for i := 0 to |pages|
      invariant repository.Valid()
      invariant repository.Tables() == OfferAllAmid(old(repository.Tables()), paces, feed, pages[..i])
      invariant queued == QueuedOf(old(repository.Tables()), paces, feed, pages[..i])
    {
      assert pages[..i + 1][..i] == pages[..i];
      var pace := paces(i);
      repository.Yield(pace(0).others);
      var wasQueued := repository.EnqueueIfStale(pace(0).now, KeyOf(feed, pages[i]), BACKFILL_PRIORITY, feed.freshness,
                                                 pace(1), pace(2).others);
      if wasQueued {
        queued := queued + 1;
      }
    }
    assert pages[..|pages|] == pages;
  }

  /** With nobody else there the two are one. */
  lemma {:induction false} NobodyElseOffers(db: Db, clock: Clock, feed: Feed, pages: seq<ReplicaPage>)
    ensures OfferAllAmid(db, i => Quietly(clock(i)), feed, pages) == OfferAll(db, clock, feed, pages)
  {
    if pages != [] {
      NobodyElseOffers(db, clock, feed, pages[..|pages| - 1]);
    }
  }

  /** Offering this key now would add nothing. */
  predicate Handled(db: Db, now: int, freshness: int, key: Key) {
    FreshSince(db.results, key.page, now - freshness) || HasWork(db.work, key) || NewerActive(db.work, key)
  }

  lemma OfferHandles(db: Db, now: int, feed: Feed, page: ReplicaPage)
    requires TablesOk(db)
    ensures TablesOk(Offer(db, now, feed, page))
    ensures Handled(Offer(db, now, feed, page), now, feed.freshness, KeyOf(feed, page))
    ensures Handled(db, now, feed.freshness, KeyOf(feed, page)) ==> Offer(db, now, feed, page).work.Keys == db.work.Keys
  {
    var after, mine := Offer(db, now, feed, page), KeyOf(feed, page);
    EnqueueKeepsTables(db, now, mine, BACKFILL_PRIORITY);
    if HasWork(db.work, mine) {
      var id :| id in db.work && db.work[id].key == mine;
      assert after.work[id].key == mine;
    } else if !Handled(db, now, feed.freshness, mine) {
      assert after.work[db.nextWork] == FreshRow(mine, BACKFILL_PRIORITY, now);
    }
  }

  /** An offer leaves every other page as it was, whenever one looks. */
  lemma OfferLeavesOthers(db: Db, now: int, feed: Feed, page: ReplicaPage, key: Key, later: int)
    requires TablesOk(db) && key.page != KeyOf(feed, page).page
    ensures Handled(Offer(db, now, feed, page), later, feed.freshness, key) <==> Handled(db, later, feed.freshness, key)
    ensures AddsRow(db, Offer(db, now, feed, page), key) <==> false
  {
    var after := Offer(db, now, feed, page);
    assert forall id :: id in after.work && after.work[id].key.page == key.page ==>
        id in db.work && after.work[id] == db.work[id];
    assert forall id :: id in db.work && db.work[id].key.page == key.page ==>
        id in after.work && after.work[id] == db.work[id];
    assert HasWork(after.work, key) <==> HasWork(db.work, key);
    assert NewerActive(after.work, key) <==> NewerActive(db.work, key);
  }

  predicate DistinctPages(pages: seq<ReplicaPage>) {
    forall i, j :: 0 <= i < j < |pages| ==> pages[i].pageId != pages[j].pageId
  }

  /** Each page would add nothing at the time it was offered. */
  ghost predicate AllHandled(db: Db, clock: Clock, feed: Feed, pages: seq<ReplicaPage>) {
    forall i :: 0 <= i < |pages| ==> Handled(db, clock(i), feed.freshness, KeyOf(feed, pages[i]))
  }

  lemma {:induction false} OffersKeepTables(db: Db, clock: Clock, feed: Feed, pages: seq<ReplicaPage>)
    requires TablesOk(db)
    ensures TablesOk(OfferAll(db, clock, feed, pages))
  {
    if pages != [] {
      OffersKeepTables(db, clock, feed, pages[..|pages| - 1]);
      OfferHandles(OfferAll(db, clock, feed, pages[..|pages| - 1]), clock(|pages| - 1), feed, pages[|pages| - 1]);
    }
  }

  lemma {:induction false} OfferHandlesEach(db: Db, clock: Clock, feed: Feed, pages: seq<ReplicaPage>, i: nat)
    requires TablesOk(db) && DistinctPages(pages) && i < |pages|
    ensures TablesOk(OfferAll(db, clock, feed, pages))
    ensures Handled(OfferAll(db, clock, feed, pages), clock(i), feed.freshness, KeyOf(feed, pages[i]))
  {
    var n := |pages| - 1;
    var mid := OfferAll(db, clock, feed, pages[..n]);
    OffersKeepTables(db, clock, feed, pages[..n]);
    OfferHandles(mid, clock(n), feed, pages[n]);
    if i < n {
      OfferHandlesEach(db, clock, feed, pages[..n], i);
      OfferLeavesOthers(mid, clock(n), feed, pages[n], KeyOf(feed, pages[i]), clock(i));
    }
  }

  /** After a batch every page of it is fresh, queued, or behind newer work. */
  lemma OfferAllHandles(db: Db, clock: Clock, feed: Feed, pages: seq<ReplicaPage>)
    requires TablesOk(db) && DistinctPages(pages)
    ensures TablesOk(OfferAll(db, clock, feed, pages))
            && AllHandled(OfferAll(db, clock, feed, pages), clock, feed, pages)
  {
    OffersKeepTables(db, clock, feed, pages);
    forall i | 0 <= i < |pages|
      ensures Handled(OfferAll(db, clock, feed, pages), clock(i), feed.freshness, KeyOf(feed, pages[i]))
    {
      OfferHandlesEach(db, clock, feed, pages, i);
    }
  }

  // ---- Offering again ---------------------------------------------------------------

  /** The queue gained a row of this key. */
  predicate AddsRow(before: Db, after: Db, key: Key) {
    exists id :: id in after.work && id !in before.work && after.work[id].key == key
  }

  lemma OfferAddsIff(db: Db, now: int, feed: Feed, page: ReplicaPage)
    requires TablesOk(db)
    ensures AddsRow(db, Offer(db, now, feed, page), KeyOf(feed, page))
            <==> !Handled(db, now, feed.freshness, KeyOf(feed, page))
    ensures forall id :: id in db.work ==> id in Offer(db, now, feed, page).work
    ensures forall id :: id in Offer(db, now, feed, page).work && id !in db.work ==>
            Offer(db, now, feed, page).work[id].key == KeyOf(feed, page)
  {
    OfferHandles(db, now, feed, page);
    var after, key := Offer(db, now, feed, page), KeyOf(feed, page);
    EnqueueKeepsTables(db, now, key, BACKFILL_PRIORITY);
    if !Handled(db, now, feed.freshness, key) {
      assert after.work[db.nextWork] == FreshRow(key, BACKFILL_PRIORITY, now);
    }
  }

  /** Every new row is for a page of the batch, and no row is lost. */
  ghost predicate AddsOnly(before: Db, after: Db, feed: Feed, pages: seq<ReplicaPage>) {
    && (forall id :: id in before.work ==> id in after.work)
    && (forall id :: id in after.work && id !in before.work ==>
        exists i :: 0 <= i < |pages| && after.work[id].key == KeyOf(feed, pages[i]))
  }

  lemma OneMoreOffer(db: Db, mid: Db, after: Db, feed: Feed, pages: seq<ReplicaPage>, key: Key)
    requires pages != []
    requires AddsOnly(db, mid, feed, pages[..|pages| - 1])
    requires KeepsRows(mid.work, after.work)
    requires forall id :: id in after.work && id !in mid.work ==> after.work[id].key == KeyOf(feed, pages[|pages| - 1])
    ensures AddsOnly(db, after, feed, pages)
    ensures AddsRow(db, after, key) <==> AddsRow(db, mid, key) || AddsRow(mid, after, key)
  {
    var n := |pages| - 1;
    forall id | id in after.work && id !in db.work
      ensures exists i :: 0 <= i < |pages| && after.work[id].key == KeyOf(feed, pages[i])
    {
      if id in mid.work {
        var i :| 0 <= i < n && mid.work[id].key == KeyOf(feed, pages[..n][i]);
        assert after.work[id].key == KeyOf(feed, pages[i]);
      }
    }
    if AddsRow(db, mid, key) {
      var id :| id in mid.work && id !in db.work && mid.work[id].key == key;
      assert after.work[id].key == key;
    }
    if AddsRow(mid, after, key) {
      var id :| id in after.work && id !in mid.work && after.work[id].key == key;
      assert id !in db.work;
    }
  }

  lemma OfferKeepsRows(db: Db, now: int, feed: Feed, page: ReplicaPage)
    requires TablesOk(db)
    ensures KeepsRows(db.work, Offer(db, now, feed, page).work)
  {
    EnqueueKeepsTables(db, now, KeyOf(feed, page), BACKFILL_PRIORITY);
  }

  lemma {:induction false} OffersAddOnly(db: Db, clock: Clock, feed: Feed, pages: seq<ReplicaPage>)
    requires TablesOk(db)
    ensures TablesOk(OfferAll(db, clock, feed, pages)) && AddsOnly(db, OfferAll(db, clock, feed, pages), feed, pages)
  {
    if pages != [] {
      var n := |pages| - 1;
      OffersAddOnly(db, clock, feed, pages[..n]);
      var mid := OfferAll(db, clock, feed, pages[..n]);
      OfferHandles(mid, clock(n), feed, pages[n]);
      OfferAddsIff(mid, clock(n), feed, pages[n]);
      OfferKeepsRows(mid, clock(n), feed, pages[n]);
      OneMoreOffer(db, mid, OfferAll(db, clock, feed, pages), feed, pages, KeyOf(feed, pages[n]));
    }
  }

  lemma {:induction false} OffersLeaveOthers(db: Db, clock: Clock, feed: Feed, pages: seq<ReplicaPage>, key: Key,
                                             later: int)
    requires TablesOk(db) && forall i :: 0 <= i < |pages| ==> key.page != KeyOf(feed, pages[i]).page
    ensures Handled(OfferAll(db, clock, feed, pages), later, feed.freshness, key)
            <==> Handled(db, later, feed.freshness, key)
  {
    if pages != [] {
      var n := |pages| - 1;
      OffersAddOnly(db, clock, feed, pages[..n]);
      OffersLeaveOthers(db, clock, feed, pages[..n], key, later);
      OfferLeavesOthers(OfferAll(db, clock, feed, pages[..n]), clock(n), feed, pages[n], key, later);
    }
  }

  /** One more page adds a row for itself only. */
  lemma OneMorePage(db: Db, mid: Db, now: int, feed: Feed, pages: seq<ReplicaPage>, key: Key)
    requires TablesOk(mid) && pages != [] && AddsOnly(db, mid, feed, pages[..|pages| - 1])
    requires key == KeyOf(feed, pages[|pages| - 1]) || key.page != KeyOf(feed, pages[|pages| - 1]).page
    ensures var after, mine := Offer(mid, now, feed, pages[|pages| - 1]), KeyOf(feed, pages[|pages| - 1]);
            AddsRow(db, after, key)
            <==> AddsRow(db, mid, key) || (key == mine && !Handled(mid, now, feed.freshness, key))
  {
    var page := pages[|pages| - 1];
    OfferAddsIff(mid, now, feed, page);
    OfferKeepsRows(mid, now, feed, page);
    OneMoreOffer(db, mid, Offer(mid, now, feed, page), feed, pages, key);
    if key != KeyOf(feed, page) {
      OfferLeavesOthers(mid, now, feed, page, key, now);
    }
  }

  lemma NotYetAdded(db: Db, mid: Db, feed: Feed, pages: seq<ReplicaPage>, key: Key)
    requires AddsOnly(db, mid, feed, pages) && forall i :: 0 <= i < |pages| ==> key.page != KeyOf(feed, pages[i]).page
    ensures !AddsRow(db, mid, key)
  {}

  lemma {:induction false} OffersAddIff(db: Db, clock: Clock, feed: Feed, pages: seq<ReplicaPage>, i: nat)
    requires TablesOk(db) && DistinctPages(pages) && i < |pages|
    ensures AddsRow(db, OfferAll(db, clock, feed, pages), KeyOf(feed, pages[i]))
            <==> !Handled(db, clock(i), feed.freshness, KeyOf(feed, pages[i]))
  {
    var n, key := |pages| - 1, KeyOf(feed, pages[i]);
    var mid := OfferAll(db, clock, feed, pages[..n]);
    OffersAddOnly(db, clock, feed, pages[..n]);
    OneMorePage(db, mid, clock(n), feed, pages, key);
    if i < n {
      OffersAddIff(db, clock, feed, pages[..n], i);
    } else {
      NotYetAdded(db, mid, feed, pages[..n], key);
      OffersLeaveOthers(db, clock, feed, pages[..n], key, clock(n));
    }
  }

  /**
   * Whatever the queue has become, offering a batch adds a row for a page exactly when the
   * page is not handled then, at its own time; rows for nothing else, and never two rows of
   * one key.
   */
  lemma OffersAddExactlyTheUnhandled(db: Db, clock: Clock, feed: Feed, pages: seq<ReplicaPage>)
    requires TablesOk(db) && DistinctPages(pages)
    ensures var after := OfferAll(db, clock, feed, pages);
            && TablesOk(after) && AddsOnly(db, after, feed, pages)
            && (forall i :: 0 <= i < |pages| ==>
                  (AddsRow(db, after, KeyOf(feed, pages[i]))
                   <==> !Handled(db, clock(i), feed.freshness, KeyOf(feed, pages[i]))))
  {
    OffersAddOnly(db, clock, feed, pages);
    forall i | 0 <= i < |pages|
      ensures AddsRow(db, OfferAll(db, clock, feed, pages), KeyOf(feed, pages[i]))
              <==> !Handled(db, clock(i), feed.freshness, KeyOf(feed, pages[i]))
    {
      OffersAddIff(db, clock, feed, pages, i);
    }
  }

  lemma BatchHasDistinctPages(table: PageTable, cursor: Option<LengthCursor>, limit: nat, done: nat)
    requires done <= |Batch(table, cursor, limit)|
    ensures DistinctPages(Batch(table, cursor, limit)[..done])
  {
    var pages := Batch(table, cursor, limit);
    BatchDescends(table, cursor, limit);
    forall i, j | 0 <= i < j < |pages|
      ensures pages[i].pageId != pages[j].pageId
    {
      assert Under(pages[j].length, pages[j].pageId, Some(CursorAt(pages[i])));
    }
  }

  /**
   * A batch, or the part of it a crash left offered, is offered again later in any run of
   * the queue: a row is added exactly for the pages that are by then neither fresh, nor
   * queued, nor behind newer work, and never a second row of one key.
   */
  lemma ReplayAddsExactlyTheUnhandled(states: seq<Sys>, steps: seq<Step>, n: nat, clock: Clock, feed: Feed,
                                      table: PageTable, cursor: Option<LengthCursor>, limit: nat, done: nat)
    requires IsRun(states, steps) && Initial(states[0]) && n < |states| && done <= |Batch(table, cursor, limit)|
    ensures var db, pages := states[n].db, Batch(table, cursor, limit)[..done];
            var after := OfferAll(db, clock, feed, pages);
            && TablesOk(after) && AddsOnly(db, after, feed, pages)
            && forall i :: 0 <= i < |pages| ==>
                 (AddsRow(db, after, KeyOf(feed, pages[i]))
                  <==> !Handled(db, clock(i), feed.freshness, KeyOf(feed, pages[i])))
  {
    RunsKeepInv(states, steps, n);
    BatchHasDistinctPages(table, cursor, limit, done);
    OffersAddExactlyTheUnhandled(states[n].db, clock, feed, Batch(table, cursor, limit)[..done]);
  }

  /** So a replay before anything else happens, at the times of the first offer, adds nothing. */
  lemma ReplayAtOnceAddsNoRow(db: Db, clock: Clock, feed: Feed, table: PageTable, cursor: Option<LengthCursor>,
                              limit: nat, done: nat)
    requires TablesOk(db) && done <= |Batch(table, cursor, limit)|
    ensures var offered := Batch(table, cursor, limit)[..done];
            OfferAll(OfferAll(db, clock, feed, offered), clock, feed, offered).work.Keys
                == OfferAll(db, clock, feed, offered).work.Keys
  {
    var pages := Batch(table, cursor, limit)[..done];
    BatchHasDistinctPages(table, cursor, limit, done);
    OfferAllHandles(db, clock, feed, pages);
    var first := OfferAll(db, clock, feed, pages);
    OffersAddExactlyTheUnhandled(first, clock, feed, pages);
    var again := OfferAll(first, clock, feed, pages);
    forall id | id in again.work
      ensures id in first.work
    {
      assert forall i :: 0 <= i < |pages| ==> !AddsRow(first, again, KeyOf(feed, pages[i]));
    }
  }

  /** A second later it may: an answer at the very end of its freshness is fresh at 100 and stale at 101. */
  lemma ReplayASecondLaterCanAddARow(feed: Feed, page: ReplicaPage, answer: Answer)
    ensures var db := Db(map[], 0, map[0 := ResultRow(KeyOf(feed, page), answer, 100 - feed.freshness)], 1);
            && TablesOk(db)
            && OfferAll(db, _ => 100, feed, [page]) == db
            && AddsRow(db, OfferAll(db, _ => 101, feed, [page]), KeyOf(feed, page))
  {
    var db := Db(map[], 0, map[0 := ResultRow(KeyOf(feed, page), answer, 100 - feed.freshness)], 1);
    assert [page][..0] == [];
    assert db.results[0].computedAt >= 100 - feed.freshness;
    assert !FreshSince(db.results, KeyOf(feed, page).page, 101 - feed.freshness);
    assert OfferAll(db, _ => 101, feed, [page]) == Offer(db, 101, feed, page);
    assert !Handled(db, 101, feed.freshness, KeyOf(feed, page));
    OfferAddsIff(db, 101, feed, page);
  }
}
