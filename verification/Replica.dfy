/**
 * The keyset walk over a wiki's page table (replica.py): articles in descending
 * (length, id) order, one batch per query, resumed from a cursor, while the table changes.
 */
module Replica {
  import opened Options
  import Decimal

  datatype PageRow = PageRow(length: nat, latest: int, namespace: int, isRedirect: bool)

  type PageTable = map<nat, PageRow>

  datatype ReplicaPage = ReplicaPage(pageId: nat, revision: int, length: nat)

  datatype LengthCursor = LengthCursor(length: nat, pageId: nat)

  // ---- The cursor as text ---------------------------------------------------------

  function EncodeCursor(cursor: LengthCursor): string {
    Decimal.Encode(cursor.length) + ":" + Decimal.Encode(cursor.pageId)
  }

  /** Where the first colon is, or the length of the text without one. */
  function FirstColon(raw: string): (i: nat)
    ensures i <= |raw|
    ensures forall k :: 0 <= k < i ==> raw[k] != ':'
    ensures i < |raw| ==> raw[i] == ':'
  {
    if raw == [] || raw[0] == ':' then 0 else 1 + FirstColon(raw[1..])
  }

  /** Text that is missing, empty or unreadable restarts the walk. */
  function DecodeCursor(raw: Option<string>): Option<LengthCursor> {
    if raw.None? || raw.value == "" then None
    else
      var at := FirstColon(raw.value);
      if at == |raw.value| then None
      else
        var length, pageId := raw.value[..at], raw.value[at + 1..];
        if Decimal.AllDigits(length) && Decimal.AllDigits(pageId)
        then Some(LengthCursor(Decimal.Value(length), Decimal.Value(pageId)))
        else None
  }

  const COMPLETE := "__COMPLETE__"

  /** Every cursor survives being saved as text, and no saved cursor reads as "complete" or "restart". */
  lemma CursorRoundTrip(cursor: LengthCursor)
    ensures DecodeCursor(Some(EncodeCursor(cursor))) == Some(cursor)
    ensures EncodeCursor(cursor) != COMPLETE && EncodeCursor(cursor) != ""
    ensures DecodeCursor(Some(COMPLETE)) == None
  {
    var length, pageId := Decimal.Encode(cursor.length), Decimal.Encode(cursor.pageId);
    var raw := EncodeCursor(cursor);
    assert raw[|length|] == ':';
    forall k | 0 <= k < |length|
      ensures raw[k] != ':'
    {
      assert raw[k] == length[k];
    }
    assert FirstColon(raw) == |length|;
    assert raw[..|length|] == length && raw[|length| + 1..] == pageId;
    Decimal.ValueOfEncode(cursor.length);
    Decimal.ValueOfEncode(cursor.pageId);
    assert COMPLETE[0] == '_' && raw[0] == length[0];
    assert forall k :: 0 <= k < |COMPLETE| ==> COMPLETE[k] != ':';
  }

  // ---- One batch --------------------------------------------------------------------

  /** (length, id) strictly before the cursor's pair. */
  predicate Under(length: nat, pageId: nat, cursor: Option<LengthCursor>) {
    cursor.None? || length < cursor.value.length || (length == cursor.value.length && pageId < cursor.value.pageId)
  }

  predicate Article(table: PageTable, id: nat) {
    id in table && table[id].namespace == 0 && !table[id].isRedirect
  }

  predicate Listable(table: PageTable, cursor: Option<LengthCursor>, id: nat) {
    Article(table, id) && Under(table[id].length, id, cursor)
  }

  function ListableIds(table: PageTable, cursor: Option<LengthCursor>): set<nat> {
    set id | id in table && Listable(table, cursor, id)
  }

  function PlaceOf(table: PageTable, id: nat): LengthCursor
    requires id in table
  {
    LengthCursor(table[id].length, id)
  }

  /** Row `b` comes after row `a` in the walk. */
  predicate After(table: PageTable, a: nat, b: nat)
    requires a in table && b in table
  {
    Under(table[b].length, b, Some(PlaceOf(table, a)))
  }

  predicate IsTop(table: PageTable, ids: set<nat>, top: nat)
    requires ids <= table.Keys
  {
    top in ids && forall other :: other in ids && other != top ==> After(table, top, other)
  }

  lemma {:induction false} TopExists(table: PageTable, ids: set<nat>)
    requires ids <= table.Keys && exists id :: id in ids
    ensures exists top :: IsTop(table, ids, top)
    decreases |ids|
  {
    var some :| some in ids;
    var rest := ids - {some};
    assert forall id :: id in ids && id != some ==> id in rest;
    if exists id :: id in rest {
      TopExists(table, rest);
      var best :| IsTop(table, rest, best);
      assert IsTop(table, ids, if After(table, best, some) then best else some);
    } else {
      assert IsTop(table, ids, some);
    }
  }

  function PageOf(table: PageTable, id: nat): ReplicaPage
    requires id in table
  {
    ReplicaPage(id, table[id].latest, table[id].length)
  }

  /** SELECT ... WHERE article AND (length, id) < cursor ORDER BY length DESC, id DESC LIMIT limit. */
  function Batch(table: PageTable, cursor: Option<LengthCursor>, limit: nat): (pages: seq<ReplicaPage>)
    ensures |pages| <= limit
    decreases limit
  {
    var ids := ListableIds(table, cursor);
    if limit == 0 || !exists id :: id in ids then []
    else
      TopExists(table, ids);
      var top :| top in ids && IsTop(table, ids, top);
      [PageOf(table, top)] + Batch(table, Some(PlaceOf(table, top)), limit - 1)
  }

  function CursorAt(page: ReplicaPage): LengthCursor {
    LengthCursor(page.length, page.pageId)
  }

  /** Strictly descending by (length, id), starting under the cursor. */
  predicate Descends(pages: seq<ReplicaPage>, cursor: Option<LengthCursor>) {
    && (pages != [] ==> Under(pages[0].length, pages[0].pageId, cursor))
    && forall i, j :: 0 <= i < j < |pages| ==> Under(pages[j].length, pages[j].pageId, Some(CursorAt(pages[i])))
  }

  predicate Lists(pages: seq<ReplicaPage>, id: nat) {
    exists i :: 0 <= i < |pages| && pages[i].pageId == id
  }

  /** The batch is full and the article comes after its last row. */
  predicate LeftForLater(table: PageTable, pages: seq<ReplicaPage>, limit: nat, id: nat)
    requires id in table
  {
    |pages| == limit && (pages == [] || Under(table[id].length, id, Some(CursorAt(pages[|pages| - 1]))))
  }

  lemma {:induction false} BatchDescends(table: PageTable, cursor: Option<LengthCursor>, limit: nat)
    ensures var pages := Batch(table, cursor, limit);
            && Descends(pages, cursor)
            && (forall i :: 0 <= i < |pages| ==>
                Listable(table, cursor, pages[i].pageId) && pages[i] == PageOf(table, pages[i].pageId))
    decreases limit
  {
    var ids := ListableIds(table, cursor);
    if limit > 0 && exists id :: id in ids {
      TopExists(table, ids);
      BatchDescends(table, Some(PlaceOf(table, Batch(table, cursor, limit)[0].pageId)), limit - 1);
    }
  }

  lemma {:induction false} BatchMissesNothing(table: PageTable, cursor: Option<LengthCursor>, limit: nat, id: nat)
    requires id in table && Listable(table, cursor, id)
    ensures Lists(Batch(table, cursor, limit), id) || LeftForLater(table, Batch(table, cursor, limit), limit, id)
    decreases limit
  {
    var ids := ListableIds(table, cursor);
    assert id in ids;
    if limit > 0 {
      TopExists(table, ids);
      var pages := Batch(table, cursor, limit);
      var top := pages[0].pageId;
      if id != top {
        var rest := Batch(table, Some(PlaceOf(table, top)), limit - 1);
        BatchMissesNothing(table, Some(PlaceOf(table, top)), limit - 1, id);
        assert pages == [pages[0]] + rest;
        if Lists(rest, id) {
          var i :| 0 <= i < |rest| && rest[i].pageId == id;
          assert pages[i + 1].pageId == id;
        }
      }
    }
  }

  /**
   * A batch lists articles under the cursor, each once, by descending length and then
   * descending id, with the length and the latest revision the table holds for it; it misses
   * an article under the cursor only if it is full and the article comes after its last row.
   */
  lemma BatchIsExact(table: PageTable, cursor: Option<LengthCursor>, limit: nat)
    ensures var pages := Batch(table, cursor, limit);
            && Descends(pages, cursor)
            && (forall i :: 0 <= i < |pages| ==> Listable(table, cursor, pages[i].pageId))
            && (forall i :: 0 <= i < |pages| ==>
                  && pages[i].pageId in table && table[pages[i].pageId].namespace == 0
                     && !table[pages[i].pageId].isRedirect
                  && pages[i].revision == table[pages[i].pageId].latest
                     && pages[i].length == table[pages[i].pageId].length)
            && (forall i :: 0 <= i < |pages| && cursor.Some? ==>
                  || pages[i].length < cursor.value.length
                  || (pages[i].length == cursor.value.length && pages[i].pageId < cursor.value.pageId))
            && (forall i, j :: 0 <= i < j < |pages| ==>
                  || pages[i].length > pages[j].length
                  || (pages[i].length == pages[j].length && pages[i].pageId > pages[j].pageId))
            && (forall id :: id in table && Listable(table, cursor, id) ==>
                  Lists(pages, id) || LeftForLater(table, pages, limit, id))
  {
    BatchDescends(table, cursor, limit);
    forall id | id in table && Listable(table, cursor, id)
      ensures Lists(Batch(table, cursor, limit), id) || LeftForLater(table, Batch(table, cursor, limit), limit, id)
    {
      BatchMissesNothing(table, cursor, limit, id);
    }
  }

  /** A batch that is not full has listed every article under the cursor, whatever its length. */
  lemma ShortBatchListsTheRest(table: PageTable, cursor: Option<LengthCursor>, limit: nat, id: nat)
    requires |Batch(table, cursor, limit)| < limit
    requires id in table && table[id].namespace == 0 && !table[id].isRedirect
    requires cursor.None? || table[id].length < cursor.value.length
             || (table[id].length == cursor.value.length && id < cursor.value.pageId)
    ensures exists i :: 0 <= i < |Batch(table, cursor, limit)| && Batch(table, cursor, limit)[i].pageId == id
  {
    BatchMissesNothing(table, cursor, limit, id);
  }

  /** The saved text is read as the length, a colon and the id. */
  lemma CursorText(length: string, pageId: string)
    requires Decimal.AllDigits(length) && Decimal.AllDigits(pageId)
    ensures DecodeCursor(Some(length + ":" + pageId))
            == Some(LengthCursor(Decimal.Value(length), Decimal.Value(pageId)))
  {
    var raw := length + ":" + pageId;
    forall k | 0 <= k < |length|
      ensures raw[k] != ':'
    {
      assert raw[k] == length[k];
    }
    assert raw[|length|] == ':';
    assert FirstColon(raw) == |length|;
    assert raw[..|length|] == length && raw[|length| + 1..] == pageId;
  }

  /** One colon at this place, digits before and behind it, and nothing else. */
  predicate ReadsAt(raw: string, at: int) {
    0 < at < |raw| - 1 && raw[at] == ':' && forall i :: 0 <= i < |raw| && i != at ==> '0' <= raw[i] <= '9'
  }

  /** Only such text is a place to resume at; any other, and no text at all, restarts the walk. */
  lemma RestartText(raw: string)
    ensures DecodeCursor(None) == None
    ensures DecodeCursor(Some(raw)).Some? <==> exists at :: ReadsAt(raw, at)
  {
    var first := FirstColon(raw);
    if at :| ReadsAt(raw, at) {
      assert first == at;
      assert Decimal.AllDigits(raw[..at]) && Decimal.AllDigits(raw[at + 1..]);
    }
    if DecodeCursor(Some(raw)).Some? {
      forall i | 0 <= i < |raw| && i != first
        ensures '0' <= raw[i] <= '9'
      {
        if i < first { assert raw[i] == raw[..first][i]; } else { assert raw[i] == raw[first + 1..][i - first - 1]; }
      }
      assert ReadsAt(raw, first);
    }
  }
}
