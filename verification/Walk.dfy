/** Whole walks over a page table that may change between batches: each steady article exactly once. */
module Walk {
  import opened Options
  import opened WorkQueue
  import opened Replica
  import Arithmetic

  /** Where a walk stands: at a cursor (none at the start), or at its end. */
  datatype Position = Resume(cursor: Option<LengthCursor>) | Complete

  /** When each of a batch's pages is handed on. */
  type Clock = nat -> int

  /** One query of a walk: the table as it is then, the batch size, and what happens as its pages are handed on. */
  datatype Query = Query(table: PageTable, limit: nat, paces: nat -> Pace)

  function Midnight(i: nat): Pace { Quietly(0) }

  datatype Progress = Progress(listed: seq<ReplicaPage>, position: Position)

  /** Resume at a cursor, or be complete without one. */
  function At(next: Option<LengthCursor>): Position {
    if next.None? then Complete else Resume(next)
  }

  /** A short batch ends the walk; a full one is resumed after its last row. */
  function NextPosition(pages: seq<ReplicaPage>, limit: nat): Position
    requires limit >= 1
  {
    if |pages| < limit then Complete else Resume(Some(CursorAt(pages[|pages| - 1])))
  }

  /** The query, and the cursor that a full batch leads to. */
  method PagesByDescendingLength(table: PageTable, cursor: Option<LengthCursor>, limit: nat)
    returns (pages: seq<ReplicaPage>, next: Option<LengthCursor>)
    requires limit >= 1
    ensures pages == Batch(table, cursor, limit)
    ensures NextPosition(pages, limit) == At(next)
    ensures next.None? <==> |pages| < limit
    ensures forall i :: 0 <= i < |pages| ==>
              && pages[i].pageId in table && pages[i].revision == table[pages[i].pageId].latest
              && pages[i].length == table[pages[i].pageId].length
    ensures next.Some? ==>
              next.value.length == pages[|pages| - 1].length && next.value.pageId == pages[|pages| - 1].pageId
  {
    pages := Batch(table, cursor, limit);
    BatchIsExact(table, cursor, limit);
    if |pages| < limit {
      return pages, None;
    }
    next := Some(CursorAt(pages[|pages| - 1]));
  }

  ghost predicate AllLimited(queries: seq<Query>) {
    forall i :: 0 <= i < |queries| ==> queries[i].limit >= 1
  }

  /** The walk from a position: nothing more once complete. */
  function WalkFrom(queries: seq<Query>, from: Position): Progress
    requires forall i :: 0 <= i < |queries| ==> queries[i].limit >= 1
  {
    if queries == [] then Progress([], from)
    else
      var before, query := WalkFrom(queries[..|queries| - 1], from), queries[|queries| - 1];
      if before.position.Complete? then before
      else
        var pages := Batch(query.table, before.position.cursor, query.limit);
        Progress(before.listed + pages, NextPosition(pages, query.limit))
  }

  /** The walk is at or past the article's place. */
  predicate Passed(position: Position, length: nat, id: nat) {
    position.Complete? || !Under(length, id, position.cursor)
  }

  function Occurrences(pages: seq<ReplicaPage>, id: nat): nat {
    if pages == [] then 0
    else Occurrences(pages[..|pages| - 1], id) + if pages[|pages| - 1].pageId == id then 1 else 0
  }

  lemma {:induction false} OccurrencesAdd(a: seq<ReplicaPage>, b: seq<ReplicaPage>, id: nat)
    ensures Occurrences(a + b, id) == Occurrences(a, id) + Occurrences(b, id)
  {
    if b == [] {
      assert a + b == a;
    } else {
      assert (a + b)[..|a + b| - 1] == a + b[..|b| - 1];
      OccurrencesAdd(a, b[..|b| - 1], id);
    }
  }

  lemma {:induction false} OccursOnceIfDistinct(pages: seq<ReplicaPage>, id: nat)
    requires forall i, j :: 0 <= i < j < |pages| ==> pages[i].pageId != pages[j].pageId
    ensures Occurrences(pages, id) == if Lists(pages, id) then 1 else 0
  {
    if pages != [] {
      var n := |pages| - 1;
      OccursOnceIfDistinct(pages[..n], id);
      if Lists(pages, id) {
        var i :| 0 <= i < |pages| && pages[i].pageId == id;
        if i < n {
          assert pages[..n][i].pageId == id;
        }
      }
      if Lists(pages[..n], id) {
        var i :| 0 <= i < n && pages[..n][i].pageId == id;
        assert pages[i].pageId == id && pages[n].pageId != id;
      }
    }
  }

  /** A batch lists an article once if its place lies between the two positions, and not otherwise. */
  lemma BatchListsBetween(table: PageTable, cursor: Option<LengthCursor>, limit: nat, id: nat)
    requires limit >= 1 && Article(table, id)
    ensures Occurrences(Batch(table, cursor, limit), id)
         == if !Passed(Resume(cursor), table[id].length, id)
             && Passed(NextPosition(Batch(table, cursor, limit), limit), table[id].length, id) then 1 else 0
  {
    var pages := Batch(table, cursor, limit);
    BatchIsExact(table, cursor, limit);
    forall i, j | 0 <= i < j < |pages|
      ensures pages[i].pageId != pages[j].pageId
    {
      assert Under(pages[j].length, pages[j].pageId, Some(CursorAt(pages[i])));
    }
    OccursOnceIfDistinct(pages, id);
    if Lists(pages, id) {
      var i :| 0 <= i < |pages| && pages[i].pageId == id;
      assert pages[i] == PageOf(table, id);
      assert i < |pages| - 1 ==> Under(pages[|pages| - 1].length, pages[|pages| - 1].pageId, Some(CursorAt(pages[i])));
    }
  }

  /** The article is there, is an article and keeps its length at every query. */
  ghost predicate Steady(queries: seq<Query>, id: nat, length: nat) {
    forall i :: 0 <= i < |queries| ==> Article(queries[i].table, id) && queries[i].table[id].length == length
  }

  /**
   * Whatever happens to the rest of the table between batches, and however the batches are
   * sized, an article that stays put is listed exactly once by the time the walk is past
   * its place, and not before.
   */
  lemma {:induction false} SteadyArticleListedOnce(queries: seq<Query>, from: Position, id: nat, length: nat)
    requires AllLimited(queries) && Steady(queries, id, length)
    ensures var progress := WalkFrom(queries, from);
            && Occurrences(progress.listed, id)
               == (if !Passed(from, length, id) && Passed(progress.position, length, id) then 1 else 0)
            && (Passed(from, length, id) ==> Passed(progress.position, length, id))
  {
    if queries != [] {
      var n := |queries| - 1;
      SteadyArticleListedOnce(queries[..n], from, id, length);
      var before := WalkFrom(queries[..n], from);
      if before.position.Resume? {
        var pages := Batch(queries[n].table, before.position.cursor, queries[n].limit);
        OccurrencesAdd(before.listed, pages, id);
        BatchListsBetween(queries[n].table, before.position.cursor, queries[n].limit, id);
        BatchIsExact(queries[n].table, before.position.cursor, queries[n].limit);
      }
    }
  }

  lemma DescendsJoins(a: seq<ReplicaPage>, b: seq<ReplicaPage>, from: Option<LengthCursor>, mid: Option<LengthCursor>)
    requires Descends(a, from) && Descends(b, mid)
    requires forall i :: 0 <= i < |a| ==> Passed(Resume(mid), a[i].length, a[i].pageId)
    requires mid.Some? ==> mid == from || Under(mid.value.length, mid.value.pageId, from)
    requires mid.None? ==> a == [] && from.None?
    ensures Descends(a + b, from)
    ensures b != [] ==> forall i :: 0 <= i < |a + b| ==>
            Passed(Resume(Some(CursorAt(b[|b| - 1]))), (a + b)[i].length, (a + b)[i].pageId)
    ensures b != [] ==> Under(b[|b| - 1].length, b[|b| - 1].pageId, from)
  {
    assert forall j :: 0 <= j < |b| ==> Under(b[j].length, b[j].pageId, mid);
  }

  /** The whole listing of a walk is strictly descending by (length, id) as listed, and lies before its position. */
  lemma {:induction false} WalkDescends(queries: seq<Query>, from: Position)
    requires AllLimited(queries) && from.Resume?
    ensures var progress := WalkFrom(queries, from);
            && Descends(progress.listed, from.cursor)
            && (progress.position.Resume? ==>
                  forall i :: 0 <= i < |progress.listed| ==>
                      Passed(progress.position, progress.listed[i].length, progress.listed[i].pageId))
            && (progress.position.Resume? && progress.position.cursor.Some? ==>
                  progress.position == from
                      || Under(progress.position.cursor.value.length, progress.position.cursor.value.pageId,
                               from.cursor))
            && (progress.position.Resume? && progress.position.cursor.None? ==>
                progress.listed == [] && progress.position == from)
  {
    if queries != [] {
      var n := |queries| - 1;
      WalkDescends(queries[..n], from);
      var before := WalkFrom(queries[..n], from);
      if before.position.Resume? {
        var pages := Batch(queries[n].table, before.position.cursor, queries[n].limit);
        BatchDescends(queries[n].table, before.position.cursor, queries[n].limit);
        DescendsJoins(before.listed, pages, from.cursor, before.position.cursor);
      }
    }
  }

  // ---- A table that does not change ---------------------------------------------------

  /** Taking one row takes it out of what is left to list. */
  lemma ListableAfterTop(table: PageTable, cursor: Option<LengthCursor>, top: nat)
    requires top in table && IsTop(table, ListableIds(table, cursor), top)
    ensures ListableIds(table, Some(PlaceOf(table, top))) == ListableIds(table, cursor) - {top}
  {
    forall id
      ensures id in ListableIds(table, Some(PlaceOf(table, top))) <==> id in ListableIds(table, cursor) - {top}
    {
      if id in ListableIds(table, cursor) && id != top {
        assert After(table, top, id);
      }
    }
  }

  /** A batch is as long as it may be, and its last row leaves exactly the unlisted articles. */
  lemma {:induction false} BatchSize(table: PageTable, cursor: Option<LengthCursor>, limit: nat)
    ensures var pages, left := Batch(table, cursor, limit), |ListableIds(table, cursor)|;
            && |pages| == (if left < limit then left else limit)
            && (pages != [] ==> |ListableIds(table, Some(CursorAt(pages[|pages| - 1])))| == left - |pages|)
    decreases limit
  {
    var ids := ListableIds(table, cursor);
    if limit > 0 && exists id :: id in ids {
      TopExists(table, ids);
      var pages := Batch(table, cursor, limit);
      var top := pages[0].pageId;
      ListableAfterTop(table, cursor, top);
      var rest := Batch(table, Some(PlaceOf(table, top)), limit - 1);
      BatchSize(table, Some(PlaceOf(table, top)), limit - 1);
      assert pages == [pages[0]] + rest;
      if rest == [] { assert CursorAt(pages[0]) == PlaceOf(table, top); }
    } else if limit > 0 {
      assert ids == {};
    }
  }

  /** The same table and batch size at every query. */
  function Frozen(table: PageTable, limit: nat, k: nat): (queries: seq<Query>)
    ensures |queries| == k && forall i :: 0 <= i < k ==> queries[i] == Query(table, limit, Midnight)
  {
    seq(k, i => Query(table, limit, Midnight))
  }

  lemma TimesPasses(articles: nat, limit: nat, k: nat)
    requires limit >= 1
    ensures Arithmetic.Times(k, limit) > articles <==> k > articles / limit
    ensures Arithmetic.Times(k, limit) == k * limit
  {
    Arithmetic.TimesIs(k, limit);
    var q, r := articles / limit, articles % limit;
    assert articles == q * limit + r;
    if k > q {
      Arithmetic.MultiplesGrow(q + 1, k, limit);
      Arithmetic.OneMoreTime(q, limit);
    } else {
      Arithmetic.MultiplesGrow(k, q, limit);
    }
  }

  lemma {:induction false} FrozenWalkLeaves(table: PageTable, limit: nat, k: nat)
    requires limit >= 1
    ensures var progress, articles := WalkFrom(Frozen(table, limit, k), Resume(None)), |ListableIds(table, None)|;
            && (progress.position.Complete? <==> Arithmetic.Times(k, limit) > articles)
            && (progress.position.Resume? ==>
                  |ListableIds(table, progress.position.cursor)| + Arithmetic.Times(k, limit) == articles)
  {
    if k > 0 {
      FrozenWalkLeaves(table, limit, k - 1);
      var queries := Frozen(table, limit, k);
      assert queries[..k - 1] == Frozen(table, limit, k - 1);
      var before := WalkFrom(queries[..k - 1], Resume(None));
      if before.position.Resume? {
        BatchSize(table, before.position.cursor, limit);
      }
    }
  }


  /**
   * Over a table that does not change, the walk is complete after floor(E / limit) + 1
   * batches and not one earlier, where E is the number of articles.
   */
  lemma FrozenWalkEnds(table: PageTable, limit: nat, k: nat)
    requires limit >= 1
    ensures var progress, articles := WalkFrom(Frozen(table, limit, k), Resume(None)), |ListableIds(table, None)|;
            && (progress.position.Complete? <==> k > articles / limit)
            && (progress.position.Resume? ==> |ListableIds(table, progress.position.cursor)| == articles - k * limit)
            && (progress.position.Resume? ==> k * limit <= articles)
  {
    FrozenWalkLeaves(table, limit, k);
    TimesPasses(|ListableIds(table, None)|, limit, k);
  }

  lemma {:induction false} NotListedIsZero(pages: seq<ReplicaPage>, id: nat)
    requires forall i :: 0 <= i < |pages| ==> pages[i].pageId != id
    ensures Occurrences(pages, id) == 0
  {
    if pages != [] { NotListedIsZero(pages[..|pages| - 1], id); }
  }

  lemma {:induction false} NoArticleNotListed(queries: seq<Query>, from: Position, id: nat)
    requires AllLimited(queries) && forall i :: 0 <= i < |queries| ==> !Article(queries[i].table, id)
    ensures Occurrences(WalkFrom(queries, from).listed, id) == 0
  {
    if queries != [] {
      var n := |queries| - 1;
      NoArticleNotListed(queries[..n], from, id);
      var before := WalkFrom(queries[..n], from);
      if before.position.Resume? {
        var pages := Batch(queries[n].table, before.position.cursor, queries[n].limit);
        BatchDescends(queries[n].table, before.position.cursor, queries[n].limit);
        OccurrencesAdd(before.listed, pages, id);
        NotListedIsZero(pages, id);
      }
    }
  }

  /** A finished walk over an unchanging table has listed exactly the articles, each once. */
  lemma FrozenWalkListsExactlyArticles(table: PageTable, limit: nat, k: nat, id: nat)
    requires limit >= 1 && k > |ListableIds(table, None)| / limit
    ensures Occurrences(WalkFrom(Frozen(table, limit, k), Resume(None)).listed, id) == if Article(table, id) then 1
            else 0
  {
    FrozenWalkEnds(table, limit, k);
    if Article(table, id) {
      SteadyArticleListedOnce(Frozen(table, limit, k), Resume(None), id, table[id].length);
    } else {
      NoArticleNotListed(Frozen(table, limit, k), Resume(None), id);
    }
  }
}
