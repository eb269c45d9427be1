/**
 * One run of the backfill (backfill.py): batches of the walk are offered to the queue and
 * the cursor is saved as text after each.
 */
module Backfill {
  import Arithmetic
  import opened Options
  import opened WorkQueue
  import opened Repository
  import opened Replica
  import opened Walk
  import opened Offering

  /** What the saved text says about where to go on. */
  function PositionOf(saved: Option<string>): Position {
    if saved == Some(COMPLETE) then Complete else Resume(DecodeCursor(saved))
  }

  /** The text saved for a position that a batch led to. */
  function TextOf(next: Option<LengthCursor>): string {
    if next.Some? then EncodeCursor(next.value) else COMPLETE
  }

  lemma SavedTextIsThePosition(next: Option<LengthCursor>)
    ensures PositionOf(Some(TextOf(next))) == At(next)
  {
    if next.Some? { CursorRoundTrip(next.value); }
  }

  /** The queue after the batches of a walk have been offered. */
  function Backfilled(db: Db, feed: Feed, queries: seq<Query>, from: Position): Db
    requires forall i :: 0 <= i < |queries| ==> queries[i].limit >= 1
  {
    if queries == [] then db
    else
      var n := |queries| - 1;
      var before, position := Backfilled(db, feed, queries[..n], from), WalkFrom(queries[..n], from).position;
      if position.Complete? then before
      else OfferAllAmid(before, queries[n].paces, feed, Batch(queries[n].table, position.cursor, queries[n].limit))
  }

  /** How many pages a run reports as queued. */
  function QueuedBy(db: Db, feed: Feed, queries: seq<Query>, from: Position): nat
    requires forall i :: 0 <= i < |queries| ==> queries[i].limit >= 1
  {
    if queries == [] then 0
    else
      var n := |queries| - 1;
      var before, position := Backfilled(db, feed, queries[..n], from), WalkFrom(queries[..n], from).position;
      QueuedBy(db, feed, queries[..n], from) +
      if position.Complete? then 0
      else QueuedOf(before, queries[n].paces, feed, Batch(queries[n].table, position.cursor, queries[n].limit))
  }

  lemma {:induction false} WalkStops(queries: seq<Query>, from: Position, i: nat)
    requires forall k :: 0 <= k < |queries| ==> queries[k].limit >= 1
    requires i <= |queries| && WalkFrom(queries[..i], from).position.Complete?
    ensures WalkFrom(queries, from) == WalkFrom(queries[..i], from)
    decreases |queries|
  {
    if i == |queries| {
      assert queries[..i] == queries;
    } else {
      assert queries[..|queries| - 1][..i] == queries[..i];
      WalkStops(queries[..|queries| - 1], from, i);
    }
  }

  lemma CompleteAddsNothing(db: Db, feed: Feed, queries: seq<Query>, from: Position)
    requires queries != [] && forall k :: 0 <= k < |queries| ==> queries[k].limit >= 1
    requires WalkFrom(queries[..|queries| - 1], from).position.Complete?
    ensures Backfilled(db, feed, queries, from) == Backfilled(db, feed, queries[..|queries| - 1], from)
    ensures QueuedBy(db, feed, queries, from) == QueuedBy(db, feed, queries[..|queries| - 1], from)
  {}

  lemma {:induction false} BackfilledStops(db: Db, feed: Feed, queries: seq<Query>, from: Position, i: nat)
    requires forall k :: 0 <= k < |queries| ==> queries[k].limit >= 1
    requires i <= |queries| && WalkFrom(queries[..i], from).position.Complete?
    ensures Backfilled(db, feed, queries, from) == Backfilled(db, feed, queries[..i], from)
    ensures QueuedBy(db, feed, queries, from) == QueuedBy(db, feed, queries[..i], from)
    decreases |queries|
  {
    if i == |queries| {
      assert queries[..i] == queries;
    } else {
      var front := queries[..|queries| - 1];
      assert front[..i] == queries[..i];
      WalkStops(front, from, i);
      BackfilledStops(db, feed, front, from, i);
      CompleteAddsNothing(db, feed, queries, from);
    }
  }

  /** Once complete, further batches of the same run do nothing. */
  lemma CompleteStops(db: Db, feed: Feed, queries: seq<Query>, from: Position, i: nat)
    requires forall k :: 0 <= k < |queries| ==> queries[k].limit >= 1
    requires i <= |queries| && WalkFrom(queries[..i], from).position.Complete?
    ensures WalkFrom(queries, from) == WalkFrom(queries[..i], from)
    ensures Backfilled(db, feed, queries, from) == Backfilled(db, feed, queries[..i], from)
    ensures QueuedBy(db, feed, queries, from) == QueuedBy(db, feed, queries[..i], from)
  {
    WalkStops(queries, from, i);
    BackfilledStops(db, feed, queries, from, i);
  }

  lemma OneMoreQuery(db: Db, feed: Feed, queries: seq<Query>, from: Position, i: nat)
    requires forall k :: 0 <= k < |queries| ==> queries[k].limit >= 1
    requires i < |queries| && WalkFrom(queries[..i], from).position.Resume?
    ensures var cursor, query := WalkFrom(queries[..i], from).position.cursor, queries[i];
            var pages := Batch(query.table, cursor, query.limit);
            && WalkFrom(queries[..i + 1], from)
               == Progress(WalkFrom(queries[..i], from).listed + pages, NextPosition(pages, query.limit))
            && Backfilled(db, feed, queries[..i + 1], from)
               == OfferAllAmid(Backfilled(db, feed, queries[..i], from), query.paces, feed, pages)
            && QueuedBy(db, feed, queries[..i + 1], from)
               == QueuedBy(db, feed, queries[..i], from)
                   + QueuedOf(Backfilled(db, feed, queries[..i], from), query.paces, feed, pages)
  {
    assert queries[..i + 1][..i] == queries[..i];
  }

  /** The places in batch `k` whose offer reports the page queued. */
  function ReportedIn(db: Db, feed: Feed, queries: seq<Query>, from: Position, k: nat): set<nat>
    requires k < |queries| && forall i :: 0 <= i < |queries| ==> queries[i].limit >= 1
  {
    var position := WalkFrom(queries[..k], from).position;
    if position.Complete? then {}
    else ReportedPlaces(Backfilled(db, feed, queries[..k], from), queries[k].paces, feed,
                        Batch(queries[k].table, position.cursor, queries[k].limit))
  }

  /** How many those are, batch by batch. */
  function ReportedCounts(db: Db, feed: Feed, queries: seq<Query>, from: Position): seq<nat>
    requires forall i :: 0 <= i < |queries| ==> queries[i].limit >= 1
  {
    seq(|queries|, k requires 0 <= k < |queries| => |ReportedIn(db, feed, queries, from, k)|)
  }

  lemma ReportedBefore(db: Db, feed: Feed, queries: seq<Query>, from: Position, n: nat, k: nat)
    requires k < n <= |queries| && forall i :: 0 <= i < |queries| ==> queries[i].limit >= 1
    ensures ReportedIn(db, feed, queries[..n], from, k) == ReportedIn(db, feed, queries, from, k)
  {
    assert queries[..n][..k] == queries[..k] && queries[..n][k] == queries[k];
  }

  lemma ReportedCountsGrow(db: Db, feed: Feed, queries: seq<Query>, from: Position, n: nat)
    requires n < |queries| && forall i :: 0 <= i < |queries| ==> queries[i].limit >= 1
    ensures ReportedCounts(db, feed, queries, from)[..n] == ReportedCounts(db, feed, queries[..n], from)
  {
    var counts, before := ReportedCounts(db, feed, queries, from), ReportedCounts(db, feed, queries[..n], from);
    forall k: nat | k < n
      ensures counts[k] == before[k]
    {
      ReportedBefore(db, feed, queries, from, n, k);
    }
  }

  /** A run reports as many pages as there are places in its batches whose offer found a row at work. */
  lemma {:induction false} RunsCountTheQueued(db: Db, feed: Feed, queries: seq<Query>, from: Position)
    requires forall i :: 0 <= i < |queries| ==> queries[i].limit >= 1
    ensures QueuedBy(db, feed, queries, from) == Arithmetic.SumOf(ReportedCounts(db, feed, queries, from))
  {
    if queries != [] {
      var n := |queries| - 1;
      RunsCountTheQueued(db, feed, queries[..n], from);
      ReportedCountsGrow(db, feed, queries, from, n);
      var position := WalkFrom(queries[..n], from).position;
      if position.Resume? {
        QueuedAreCounted(Backfilled(db, feed, queries[..n], from), queries[n].paces, feed,
                         Batch(queries[n].table, position.cursor, queries[n].limit));
      }
    }
  }

  /** The first `i` batches of a walk have been offered, and led to this position. */
  ghost predicate Underway(before: Db, now: Db, feed: Feed, queries: seq<Query>, from: Position, i: nat,
                           position: Position, queued: nat)
    requires i <= |queries| && forall k :: 0 <= k < |queries| ==> queries[k].limit >= 1
  {
    && now == Backfilled(before, feed, queries[..i], from)
    && WalkFrom(queries[..i], from).position == position
    && queued == QueuedBy(before, feed, queries[..i], from)
  }

  lemma UnderwayStep(before: Db, now: Db, feed: Feed, queries: seq<Query>, from: Position, i: nat,
                     cursor: Option<LengthCursor>,
                     queued: nat, added: nat, next: Option<LengthCursor>)
    requires i < |queries| && forall k :: 0 <= k < |queries| ==> queries[k].limit >= 1
    requires Underway(before, now, feed, queries, from, i, Resume(cursor), queued)
    requires added == QueuedOf(now, queries[i].paces, feed, Batch(queries[i].table, cursor, queries[i].limit))
    requires NextPosition(Batch(queries[i].table, cursor, queries[i].limit), queries[i].limit)
             == At(next)
    ensures var after := OfferAllAmid(now, queries[i].paces, feed, Batch(queries[i].table, cursor, queries[i].limit));
            && Underway(before, after, feed, queries, from, i + 1, At(next), queued + added)
            && (next.None? ==> after == Backfilled(before, feed, queries, from)
                               && WalkFrom(queries, from).position == Complete
                                  && queued + added == QueuedBy(before, feed, queries, from))
  {
    OneMoreQuery(before, feed, queries, from, i);
    if next.None? {
      CompleteStops(before, feed, queries, from, i + 1);
    }
  }

  /** Fetch a batch, offer it, save where to go on. */
  method BackfillBatch(repository: Repository, stateKey: string, feed: Feed, query: Query, cursor: Option<LengthCursor>)
    returns (next: Option<LengthCursor>, added: nat)
    requires repository.Valid() && query.limit >= 1 && SoundPaces(query.paces)
    modifies repository`work, repository`nextWork, repository`results, repository`nextResult, repository`state
    ensures repository.Valid()
    ensures var pages := Batch(query.table, cursor, query.limit);
            && repository.Tables() == OfferAllAmid(old(repository.Tables()), query.paces, feed, pages)
            && NextPosition(pages, query.limit) == At(next)
            && added == QueuedOf(old(repository.Tables()), query.paces, feed, pages)
    ensures repository.state == old(repository.state)[stateKey := TextOf(next)]
    ensures OnlyChanges(old(repository.state), repository.state, stateKey)
    ensures PositionOf(repository.GetState(stateKey)) == At(next)
  {
    var pages;
    pages, next := PagesByDescendingLength(query.table, cursor, query.limit);
    added := EnqueuePages(repository, query.paces, feed, pages);
    repository.SetState(stateKey, TextOf(next));
    SavedTextIsThePosition(next);
  }

  ghost predicate SoundThroughout(queries: seq<Query>) {
    forall i :: 0 <= i < |queries| ==> SoundPaces(queries[i].paces)
  }

  /** Two versions of the stored state that differ at most in one key. */
  ghost predicate OnlyChanges(before: map<string, string>, after: map<string, string>, changed: string) {
    forall key :: key != changed ==> (key in before <==> key in after) && (key in after ==> after[key] == before[key])
  }

  /**
   * One run of the backfill: `queries` are the page tables it meets, one per batch it may
   * take. It resumes where the saved text says, offers every batch in order and leaves the
   * text of where it stopped.
   */
  method BackfillByLength(repository: Repository, stateKey: string, feed: Feed, queries: seq<Query>)
    returns (queued: nat)
    requires repository.Valid() && |queries| >= 1
    requires (forall i :: 0 <= i < |queries| ==> queries[i].limit >= 1) && SoundThroughout(queries)
    modifies repository`work, repository`nextWork, repository`results, repository`nextResult, repository`state
    ensures repository.Valid()
    ensures var from := PositionOf(old(repository.GetState(stateKey)));
            if from.Complete? then
              queued == 0 && repository.Tables() == old(repository.Tables())
                  && repository.state == old(repository.state)
            else
              && repository.Tables() == Backfilled(old(repository.Tables()), feed, queries, from)
              && PositionOf(repository.GetState(stateKey)) == WalkFrom(queries, from).position
              && OnlyChanges(old(repository.state), repository.state, stateKey)
              && queued == QueuedBy(old(repository.Tables()), feed, queries, from)
  {
    var raw := repository.GetState(stateKey);
    if raw == Some(COMPLETE) {
      return 0;
    }
    queued := BackfillFrom(repository, stateKey, feed, queries, DecodeCursor(raw));
  }

  /** The batches of a run that resumes at this cursor. */
  method BackfillFrom(repository: Repository, stateKey: string, feed: Feed, queries: seq<Query>,
                      start: Option<LengthCursor>) returns (queued: nat)
    requires repository.Valid() && |queries| >= 1
    requires (forall i :: 0 <= i < |queries| ==> queries[i].limit >= 1) && SoundThroughout(queries)
    requires PositionOf(repository.GetState(stateKey)) == Resume(start)
    modifies repository`work, repository`nextWork, repository`results, repository`nextResult, repository`state
    ensures repository.Valid()
    ensures repository.Tables() == Backfilled(old(repository.Tables()), feed, queries, Resume(start))
    ensures PositionOf(repository.GetState(stateKey)) == WalkFrom(queries, Resume(start)).position
    ensures OnlyChanges(old(repository.state), repository.state, stateKey)
    ensures queued == QueuedBy(old(repository.Tables()), feed, queries, Resume(start))
  {
    var cursor := start;
    ghost var before := repository.Tables();
    queued := 0;
    for i := 0 to |queries|
      invariant repository.Valid()
      invariant Underway(before, repository.Tables(), feed, queries, Resume(start), i, Resume(cursor), queued)
      invariant PositionOf(repository.GetState(stateKey)) == Resume(cursor)
      invariant OnlyChanges(old(repository.state), repository.state, stateKey)
    {
      ghost var was := repository.Tables();
      var next, added := BackfillBatch(repository, stateKey, feed, queries[i], cursor);
      UnderwayStep(before, was, feed, queries, Resume(start), i, cursor, queued, added, next);
      cursor := next;
      queued := queued + added;
      if cursor.None? {
        return;
      }
    }
    assert queries[..|queries|] == queries;
  }
}
