/**
 * The backfill beside everybody else (backfill.py, enqueue_if_stale in repository.py): every
 * offer is a look for a fresh answer and, if there is none, an enqueue, and readers, workers,
 * cleanups and crashes come between any two transactions.
 */
module Feeding {
  import opened Options
  import opened WorkQueue
  import opened QueueRuns
  import opened Replica
  import opened Walk
  import opened Offering
  import opened Backfill
  import opened Resumption

  /** `asking`: the first page of the batch in hand has no fresh answer and is enqueued next. */
  datatype Farm = Farm(sys: Sys, job: Job, asking: bool)

  datatype Deed =
    | Other(step: Step)      // anybody else's transaction
    | Move(event: Event)     // the job begins, fetches, saves, ends, crashes, restarts
    | SeeFresh               // the page has a fresh answer
    | SeeStale
    | Enqueue

  predicate IsOffer(deed: Deed) {
    deed.SeeFresh? || deed.Enqueue?
  }

  predicate HasNext(f: Farm) {
    f.job.phase.Offering? && f.job.phase.todo != []
  }

  function NextKey(f: Farm, feed: Feed): Key
    requires HasNext(f)
  {
    KeyOf(feed, f.job.phase.todo[0])
  }

  predicate NextIsFresh(f: Farm, feed: Feed)
    requires HasNext(f)
  {
    FreshSince(f.sys.db.results, NextKey(f, feed).page, f.sys.now - feed.freshness)
  }

  ghost predicate CanDo(f: Farm, deed: Deed, feed: Feed) {
    match deed
    case Other(step) => Enabled(f.sys, step)
    case Move(event) => !event.OfferNext? && Possible(f.job, event)
    case SeeFresh => HasNext(f) && !f.asking && NextIsFresh(f, feed)
    case SeeStale => HasNext(f) && !f.asking && !NextIsFresh(f, feed)
    case Enqueue => HasNext(f) && f.asking
  }

  function Did(f: Farm, deed: Deed, feed: Feed): Farm
    requires CanDo(f, deed, feed)
  {
    match deed
    case Other(step) => f.(sys := Apply(f.sys, step))
    case Move(event) => f.(job := Happen(f.job, event), asking := false)
    case SeeFresh => f.(job := Happen(f.job, OfferNext))
    case SeeStale => f.(asking := true)
    case Enqueue =>
      f.(sys := Apply(f.sys, Ask(NextKey(f, feed), BACKFILL_PRIORITY)), job := Happen(f.job, OfferNext),
         asking := false)
  }

  ghost predicate Done(farms: seq<Farm>, deeds: seq<Deed>, feed: Feed, i: nat)
    requires |farms| == |deeds| + 1 && i < |deeds|
  {
    CanDo(farms[i], deeds[i], feed) && farms[i + 1] == Did(farms[i], deeds[i], feed)
  }

  ghost predicate IsSeason(farms: seq<Farm>, deeds: seq<Deed>, feed: Feed) {
    && |farms| == |deeds| + 1
    && Initial(farms[0].sys) && farms[0].job == Job(None, Idle, []) && !farms[0].asking
    && forall i :: 0 <= i < |deeds| ==> Done(farms, deeds, feed, i)
  }

  lemma {:induction false} SeasonsKeepInv(farms: seq<Farm>, deeds: seq<Deed>, feed: Feed, n: nat)
    requires IsSeason(farms, deeds, feed) && n < |farms|
    ensures Inv(farms[n].sys)
  {
    if n > 0 {
      SeasonsKeepInv(farms, deeds, feed, n - 1);
      assert Done(farms, deeds, feed, n - 1);
      var f, deed := farms[n - 1], deeds[n - 1];
      if deed.Other? {
        StepKeepsInv(f.sys, deed.step);
      } else if deed.Enqueue? {
        StepKeepsInv(f.sys, Ask(NextKey(f, feed), BACKFILL_PRIORITY));
      }
    }
  }

  // ---- One offer ---------------------------------------------------------------------------

  /** The page has a fresh answer, a row, or newer work. */
  predicate IsHandled(f: Farm, feed: Feed, page: ReplicaPage) {
    Handled(f.sys.db, f.sys.now, feed.freshness, KeyOf(feed, page))
  }

  lemma EnqueueLeavesWork(db: Db, now: int, key: Key)
    ensures var after := EnqueueTx(db, now, key, BACKFILL_PRIORITY);
            HasWork(after.work, key) || NewerActive(after.work, key)
  {
    var after := EnqueueTx(db, now, key, BACKFILL_PRIORITY);
    if HasWork(db.work, key) {
      var id :| id in db.work && db.work[id].key == key;
      assert after.work[id].key == key;
    } else if !NewerActive(db.work, key) {
      assert after.work[db.nextWork] == FreshRow(key, BACKFILL_PRIORITY, now);
    }
  }

  lemma OfferLeavesHandled(f: Farm, deed: Deed, feed: Feed)
    requires Inv(f.sys) && CanDo(f, deed, feed) && IsOffer(deed)
    ensures IsHandled(Did(f, deed, feed), feed, f.job.phase.todo[0])
  {
    if deed.Enqueue? {
      EnqueueLeavesWork(f.sys.db, f.sys.now, NextKey(f, feed));
    }
  }

  lemma EnqueueAddsIff(db: Db, now: int, asked: Key, key: Key)
    requires TablesOk(db)
    ensures AddsRow(db, EnqueueTx(db, now, asked, BACKFILL_PRIORITY), key)
            <==> key == asked && !HasWork(db.work, key) && !NewerActive(db.work, key)
  {
    var after := EnqueueTx(db, now, asked, BACKFILL_PRIORITY);
    if !HasWork(db.work, asked) && !NewerActive(db.work, asked) {
      assert after.work[db.nextWork] == FreshRow(asked, BACKFILL_PRIORITY, now);
    }
  }

  /**
   * In every run, the job adds a row only when it enqueues a page it found without a fresh
   * answer, for that page's key, and exactly when no row of the key and no newer work is
   * there by then; so a batch offered again after a crash adds no row for a page that is
   * still queued, and never a second row of one key.
   */
  lemma JobAddsRowIff(farms: seq<Farm>, deeds: seq<Deed>, feed: Feed, n: nat, key: Key)
    requires IsSeason(farms, deeds, feed) && n < |deeds| && !deeds[n].Other?
    ensures var before, after := farms[n].sys.db, farms[n + 1].sys.db;
            && TablesOk(after)
            && (AddsRow(before, after, key)
                <==> && deeds[n].Enqueue? && HasNext(farms[n]) && key == NextKey(farms[n], feed)
                     && !HasWork(before.work, key) && !NewerActive(before.work, key))
  {
    SeasonsKeepInv(farms, deeds, feed, n);
    SeasonsKeepInv(farms, deeds, feed, n + 1);
    assert Done(farms, deeds, feed, n);
    if deeds[n].Enqueue? {
      EnqueueAddsIff(farms[n].sys.db, farms[n].sys.now, NextKey(farms[n], feed), key);
    }
  }

  // ---- Whole seasons -------------------------------------------------------------------------

  /** At deed `k` the page was offered, and the queue took care of it. */
  ghost predicate OfferedAt(farms: seq<Farm>, deeds: seq<Deed>, feed: Feed, k: nat, page: ReplicaPage)
    requires |farms| == |deeds| + 1 && k < |deeds|
  {
    && IsOffer(deeds[k]) && HasNext(farms[k]) && farms[k].job.phase.todo[0] == page
    && IsHandled(farms[k + 1], feed, page)
  }

  lemma {:induction false} OfferedMeansHandled(farms: seq<Farm>, deeds: seq<Deed>, feed: Feed, n: nat, i: nat)
    returns (k: nat)
    requires IsSeason(farms, deeds, feed) && n < |farms| && i < |farms[n].job.offered|
    ensures k < n && OfferedAt(farms, deeds, feed, k, farms[n].job.offered[i])
  {
    assert n > 0;
    assert Done(farms, deeds, feed, n - 1);
    if i < |farms[n - 1].job.offered| {
      assert farms[n].job.offered[i] == farms[n - 1].job.offered[i];
      k := OfferedMeansHandled(farms, deeds, feed, n - 1, i);
    } else {
      SeasonsKeepInv(farms, deeds, feed, n - 1);
      OfferLeavesHandled(farms[n - 1], deeds[n - 1], feed);
      k := n - 1;
    }
  }

  /** Every table fetched holds the article, as an article of this length. */
  predicate DeedKeepsArticle(deed: Deed, id: nat, length: nat) {
    deed.Move? ==> KeepsArticle(deed.event, id, length)
  }

  /** What a deed is to the job. */
  function EventOf(deed: Deed): Option<Event> {
    if deed.Move? then Some(deed.event) else if IsOffer(deed) then Some(OfferNext) else None
  }

  function InterruptionsOf(deeds: seq<Deed>): nat {
    if deeds == [] then 0
    else
      var last := deeds[|deeds| - 1];
      InterruptionsOf(deeds[..|deeds| - 1]) + if last.Move? && (last.event.Crash? || last.event.Restart?) then 1 else 0
  }

  lemma {:induction false} SeasonsCover(farms: seq<Farm>, deeds: seq<Deed>, feed: Feed, n: nat, id: nat, length: nat)
    requires IsSeason(farms, deeds, feed) && n < |farms|
    requires forall i :: 0 <= i < |deeds| ==> DeedKeepsArticle(deeds[i], id, length)
    ensures Covers(farms[n].job, id, length)
    ensures OfferedOnce(farms[n].job, id, length, InterruptionsOf(deeds[..n]))
  {
    if n > 0 {
      SeasonsCover(farms, deeds, feed, n - 1, id, length);
      assert Done(farms, deeds, feed, n - 1) && DeedKeepsArticle(deeds[n - 1], id, length);
      assert deeds[..n][..n - 1] == deeds[..n - 1];
      var event := EventOf(deeds[n - 1]);
      if event.Some? {
        EventKeepsCover(farms[n - 1].job, event.value, id, length);
        EventOffersOnce(farms[n - 1].job, event.value, id, length, InterruptionsOf(deeds[..n - 1]));
      }
    }
  }

  lemma {:induction false} ListedOccurs(pages: seq<ReplicaPage>, i: nat, id: nat)
    requires i < |pages| && pages[i].pageId == id
    ensures Occurrences(pages, id) >= 1
  {
    if i < |pages| - 1 {
      ListedOccurs(pages[..|pages| - 1], i, id);
    }
  }

  /**
   * In every run of the backfill beside everybody else, over tables that change in any way
   * that leaves one article in place: if the saved cursor is at or past its place, or says
   * complete, then the article was offered, and at that moment it had a fresh answer, a row
   * or newer work; and it was offered at most once more for each crash or restart.
   */
  lemma PassedMeansHandled(farms: seq<Farm>, deeds: seq<Deed>, feed: Feed, n: nat, id: nat, length: nat)
    returns (k: nat, page: ReplicaPage)
    requires IsSeason(farms, deeds, feed) && n < |farms|
    requires forall i :: 0 <= i < |deeds| ==> DeedKeepsArticle(deeds[i], id, length)
    requires Passed(PositionOf(farms[n].job.saved), length, id)
    ensures k < n && page.pageId == id && OfferedAt(farms, deeds, feed, k, page)
    ensures 1 <= Occurrences(farms[n].job.offered, id) <= 1 + InterruptionsOf(deeds[..n])
  {
    SeasonsCover(farms, deeds, feed, n, id, length);
    var offered := farms[n].job.offered;
    var i: nat :| i < |offered| && offered[i].pageId == id;
    k := OfferedMeansHandled(farms, deeds, feed, n, i);
    page := offered[i];
    ListedOccurs(offered, i, id);
  }

  // ---- What the rows stand for ---------------------------------------------------------------

  /** The page is what one of the tables fetched so far holds for its id. */
  ghost predicate FetchedBy(deeds: seq<Deed>, page: ReplicaPage) {
    exists k :: 0 <= k < |deeds| && deeds[k].Move? && deeds[k].event.Fetch?
                && page.pageId in deeds[k].event.table
                && page.revision == deeds[k].event.table[page.pageId].latest
                && page.length == deeds[k].event.table[page.pageId].length
                && deeds[k].event.table[page.pageId].namespace == 0 && !deeds[k].event.table[page.pageId].isRedirect
  }

  ghost predicate TodoFetched(f: Farm, deeds: seq<Deed>) {
    f.job.phase.Offering? ==> forall i :: 0 <= i < |f.job.phase.todo| ==> FetchedBy(deeds, f.job.phase.todo[i])
  }

  lemma FetchedStays(deeds: seq<Deed>, n: nat, page: ReplicaPage)
    requires n <= |deeds| && FetchedBy(deeds[..n], page)
    ensures FetchedBy(deeds, page)
  {
    var k :| 0 <= k < n && deeds[..n][k].Move? && deeds[..n][k].event.Fetch?
             && page.pageId in deeds[..n][k].event.table
             && page.revision == deeds[..n][k].event.table[page.pageId].latest
             && page.length == deeds[..n][k].event.table[page.pageId].length
             && deeds[..n][k].event.table[page.pageId].namespace == 0
                && !deeds[..n][k].event.table[page.pageId].isRedirect;
    assert deeds[k] == deeds[..n][k];
  }

  lemma {:induction false} TodoIsFetched(farms: seq<Farm>, deeds: seq<Deed>, feed: Feed, n: nat)
    requires IsSeason(farms, deeds, feed) && n < |farms|
    ensures TodoFetched(farms[n], deeds[..n])
  {
    if n > 0 {
      TodoIsFetched(farms, deeds, feed, n - 1);
      assert Done(farms, deeds, feed, n - 1);
      assert deeds[..n][..n - 1] == deeds[..n - 1];
      var deed, job := deeds[n - 1], farms[n].job;
      assert deeds[..n][n - 1] == deed;
      if job.phase.Offering? {
        forall i | 0 <= i < |job.phase.todo|
          ensures FetchedBy(deeds[..n], job.phase.todo[i])
        {
          if deed.Move? && deed.event.Fetch? {
            BatchIsExact(deed.event.table, farms[n - 1].job.phase.cursor, deed.event.limit);
          } else {
            var old' := farms[n - 1].job.phase.todo;
            assert job.phase.todo[i] == if IsOffer(deed) then old'[i + 1] else old'[i];
            FetchedStays(deeds[..n], n - 1, job.phase.todo[i]);
          }
        }
      }
    }
  }

  /**
   * In every run, a row the job adds is for the wiki and the algorithm it feeds, for an
   * article of a table it fetched, at the revision that table holds as the latest, and at
   * the backfill's priority.
   */
  lemma AddedRowsAreLatestRevisions(farms: seq<Farm>, deeds: seq<Deed>, feed: Feed, n: nat, id: nat)
    returns (page: ReplicaPage)
    requires IsSeason(farms, deeds, feed) && n < |deeds| && !deeds[n].Other?
    requires id in farms[n + 1].sys.db.work && id !in farms[n].sys.db.work
    ensures FetchedBy(deeds[..n], page)
    ensures var row := farms[n + 1].sys.db.work[id];
            && row.key.page.wiki == feed.wiki && row.key.page.algorithm == feed.algorithm
            && row.key.page.pageId == page.pageId && row.key.revision == page.revision
            && row.state.Pending? && row.priority == 10 && row.attempts == 0
  {
    TodoIsFetched(farms, deeds, feed, n);
    assert Done(farms, deeds, feed, n);
    page := farms[n].job.phase.todo[0];
  }
}
