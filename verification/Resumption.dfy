/**
 * Many runs of the backfill with crashes and restarts between any two transactions: no
 * article is skipped, and none is offered twice without cause.
 */
module Resumption {
  import opened Options
  import opened Replica
  import opened Walk
  import opened Backfill

  /** What the process is in the middle of. */
  datatype Phase = Idle | Fetching(cursor: Option<LengthCursor>)
      | Offering(todo: seq<ReplicaPage>, next: Option<LengthCursor>)

  /** The saved cursor, the process, and every page ever handed to the queue. */
  datatype Job = Job(saved: Option<string>, phase: Phase, offered: seq<ReplicaPage>)

  datatype Event =
    | Begin                                  // a run starts and reads the cursor
    | Fetch(table: PageTable, limit: nat)
    | OfferNext
    | SaveCursor
    | End                                    // the run's batches are used up
    | Crash
    | Restart                                // --restart empties the cursor

  predicate Possible(job: Job, event: Event) {
    match event
    case Begin => job.phase.Idle? && job.saved != Some(COMPLETE)
    case Fetch(_, limit) => job.phase.Fetching? && limit >= 1
    case OfferNext => job.phase.Offering? && job.phase.todo != []
    case SaveCursor => job.phase.Offering? && job.phase.todo == []
    case End => job.phase.Fetching?
    case Crash => true
    case Restart => job.phase.Idle?
  }

  function Happen(job: Job, event: Event): Job
    requires Possible(job, event)
  {
    match event
    case Begin => job.(phase := Fetching(DecodeCursor(job.saved)))
    case Fetch(table, limit) =>
      var pages := Batch(table, job.phase.cursor, limit);
      job.(phase := Offering(pages, if |pages| < limit then None else Some(CursorAt(pages[|pages| - 1]))))
    case OfferNext =>
      job.(phase := job.phase.(todo := job.phase.todo[1..]), offered := job.offered + [job.phase.todo[0]])
    case SaveCursor =>
      job.(saved := Some(TextOf(job.phase.next)), phase := if job.phase.next.Some? then Fetching(job.phase.next)
           else Idle)
    case End => job.(phase := Idle)
    case Crash => job.(phase := Idle)
    case Restart => job.(saved := Some(""))
  }

  /** Every table fetched holds the article, as an article of this length. */
  predicate KeepsArticle(event: Event, id: nat, length: nat) {
    event.Fetch? ==> Article(event.table, id) && event.table[id].length == length
  }

  /** Where the next batch starts from, agreeing with the saved text; what is next covered is offered or about to be. */
  ghost predicate Covers(job: Job, id: nat, length: nat) {
    && (Passed(PositionOf(job.saved), length, id) ==> Lists(job.offered, id))
    && (job.phase.Fetching? ==> PositionOf(job.saved) == Resume(job.phase.cursor))
    && (job.phase.Offering? && Passed(At(job.phase.next), length, id) ==>
          Lists(job.offered, id) || Lists(job.phase.todo, id))
  }

  lemma EventKeepsCover(job: Job, event: Event, id: nat, length: nat)
    requires Possible(job, event) && KeepsArticle(event, id, length) && Covers(job, id, length)
    ensures Covers(Happen(job, event), id, length)
  {
    var after := Happen(job, event);
    match event
    case Fetch(table, limit) =>
      var cursor := job.phase.cursor;
      BatchIsExact(table, cursor, limit);
      if !Passed(Resume(cursor), length, id) {
        assert Listable(table, cursor, id);
      }
    case OfferNext =>
      var first, offered := job.phase.todo[0], job.offered;
      if Lists(offered, id) {
        var i :| 0 <= i < |offered| && offered[i].pageId == id;
        assert after.offered[i].pageId == id;
      } else if Lists(job.phase.todo, id) {
        var i :| 0 <= i < |job.phase.todo| && job.phase.todo[i].pageId == id;
        if i == 0 {
          assert after.offered[|offered|].pageId == id;
        } else {
          assert after.phase.todo[i - 1].pageId == id;
        }
      }
    case SaveCursor => SavedTextIsThePosition(job.phase.next);
    case _ =>
  }

  ghost predicate IsHistory(jobs: seq<Job>, events: seq<Event>) {
    && |jobs| == |events| + 1
    && jobs[0] == Job(None, Idle, [])
    && forall i :: 0 <= i < |events| ==> Possible(jobs[i], events[i]) && jobs[i + 1] == Happen(jobs[i], events[i])
  }

  /**
   * At every point of every history of runs, crashes and restarts, over tables that change
   * in any way that leaves one article in place, that article has been offered to the queue
   * if the saved cursor is at or past its place, or says the walk is complete.
   */
  lemma {:induction false} SavedCursorNeverSkips(jobs: seq<Job>, events: seq<Event>, n: nat, id: nat, length: nat)
    requires IsHistory(jobs, events) && n < |jobs|
    requires forall i :: 0 <= i < |events| ==> KeepsArticle(events[i], id, length)
    ensures Passed(PositionOf(jobs[n].saved), length, id) ==> Lists(jobs[n].offered, id)
    ensures Covers(jobs[n], id, length)
  {
    if n > 0 {
      SavedCursorNeverSkips(jobs, events, n - 1, id, length);
      EventKeepsCover(jobs[n - 1], events[n - 1], id, length);
    }
  }

  // ---- How often an article is offered ----------------------------------------------------

  /** Where the walk stands, in the process or in the saved text. */
  function PlaceNow(job: Job): Position {
    match job.phase
    case Idle => PositionOf(job.saved)
    case Fetching(cursor) => Resume(cursor)
    case Offering(_, next) => At(next)
  }

  /** Offers made, and offers the batch in hand still holds. */
  function Offers(job: Job, id: nat): nat {
    Occurrences(job.offered, id) + if job.phase.Offering? then Occurrences(job.phase.todo, id) else 0
  }

  /** Crashes and restarts. */
  function Interruptions(events: seq<Event>): nat {
    if events == [] then 0
    else
      var last := events[|events| - 1];
      Interruptions(events[..|events| - 1]) + if last.Crash? || last.Restart? then 1 else 0
  }

  /** One offer once the walk is past the article, and at most one more for each interruption. */
  ghost predicate OfferedOnce(job: Job, id: nat, length: nat, interruptions: nat) {
    var due := if Passed(PlaceNow(job), length, id) then 1 else 0;
    && (job.phase.Fetching? ==> PositionOf(job.saved) == Resume(job.phase.cursor))
    && Offers(job, id) <= due + interruptions
    && (interruptions == 0 ==> Offers(job, id) == due)
  }

  lemma OffersMove(offered: seq<ReplicaPage>, todo: seq<ReplicaPage>, id: nat)
    requires todo != []
    ensures Occurrences(offered + [todo[0]], id) + Occurrences(todo[1..], id)
            == Occurrences(offered, id) + Occurrences(todo, id)
  {
    OccurrencesAdd(offered, [todo[0]], id);
    OccurrencesAdd([todo[0]], todo[1..], id);
    assert todo == [todo[0]] + todo[1..];
  }

  lemma EventOffersOnce(job: Job, event: Event, id: nat, length: nat, interruptions: nat)
    requires Possible(job, event) && KeepsArticle(event, id, length) && OfferedOnce(job, id, length, interruptions)
    ensures OfferedOnce(Happen(job, event), id, length, interruptions + if event.Crash? || event.Restart? then 1 else 0)
  {
    match event
    case Fetch(table, limit) =>
      BatchListsBetween(table, job.phase.cursor, limit, id);
      BatchIsExact(table, job.phase.cursor, limit);
    case OfferNext => OffersMove(job.offered, job.phase.todo, id);
    case SaveCursor => SavedTextIsThePosition(job.phase.next);
    case _ =>
  }

  /**
   * Over every history of runs, crashes and restarts: an article that stays put has been
   * offered at most once when the walk has passed it, and not before, plus at most once
   * for each interruption; without interruptions exactly once, however the walk is split
   * into runs and batches.
   */
  lemma {:induction false} SteadyArticleOfferedOnce(jobs: seq<Job>, events: seq<Event>, n: nat, id: nat, length: nat)
    requires IsHistory(jobs, events) && n < |jobs|
    requires forall i :: 0 <= i < |events| ==> KeepsArticle(events[i], id, length)
    ensures OfferedOnce(jobs[n], id, length, Interruptions(events[..n]))
  {
    if n > 0 {
      SteadyArticleOfferedOnce(jobs, events, n - 1, id, length);
      assert events[..n][..n - 1] == events[..n - 1];
      EventOffersOnce(jobs[n - 1], events[n - 1], id, length, Interruptions(events[..n - 1]));
    }
  }

  /** A finished uninterrupted backfill has offered every steady article exactly once. */
  lemma CompleteMeansOnce(jobs: seq<Job>, events: seq<Event>, n: nat, id: nat, length: nat)
    requires IsHistory(jobs, events) && n < |jobs| && Interruptions(events[..n]) == 0
    requires forall i :: 0 <= i < |events| ==> KeepsArticle(events[i], id, length)
    requires jobs[n].saved == Some(COMPLETE) && jobs[n].phase.Idle?
    ensures Occurrences(jobs[n].offered, id) == 1
  {
    SteadyArticleOfferedOnce(jobs, events, n, id, length);
  }
}
