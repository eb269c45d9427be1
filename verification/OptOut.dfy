/**
 * The opt-out job (optout.py): the titles a page lists become the articles they cover, and
 * one wiki's stored list is replaced by them.
 */
module OptOut {
  import opened Options
  import opened Repository
  import OptOutPage
  import Pagination

  const ARTICLE := 0
  const CATEGORY := 14

  /** What MediaWiki makes of a title. */
  datatype TitleInfo = TitleInfo(title: string, namespace: int, pageId: Option<int>)

  datatype Member = Member(pageId: int, title: string)

  /** Why a listed title covers nothing, or less than asked. */
  datatype Note = NoSuchPage(title: string) | WrongNamespace(title: string, namespace: int) | Truncated(title: string)

  /** Answers of the Action API; a reading that raises is absent. */
  datatype Upstream = Upstream(
    wikitext: Option<Option<string>>,
    infos: seq<string> -> Option<seq<TitleInfo>>,
    batches: string -> Option<seq<seq<Member>>>)

  ghost predicate Answers(upstream: Upstream) {
    forall title :: upstream.batches(title).Some? ==> upstream.batches(title).value != []
  }

  /** One category as category_members reads it; with a cap of zero nothing is asked. */
  function Reading(upstream: Upstream, title: string, limit: nat): Option<seq<Member>> {
    if limit == 0 then Some([])
    else if upstream.batches(title).None? then None
    else
      var all := Pagination.Joined(upstream.batches(title).value);
      Some(if |all| <= limit then all else all[..limit])
  }

  predicate IsCategory(info: TitleInfo) {
    info.namespace == CATEGORY
  }

  predicate IsArticle(info: TitleInfo, pageId: int) {
    info.namespace == ARTICLE && info.pageId == Some(pageId)
  }

  predicate AllRead(upstream: Upstream, infos: seq<TitleInfo>, limit: nat) {
    forall i :: 0 <= i < |infos| && IsCategory(infos[i]) ==> Reading(upstream, infos[i].title, limit).Some?
  }

  // ---- The entries, as a dictionary in insertion order -------------------------------------

  predicate DistinctIds(entries: seq<OptOutEntry>) {
    forall i, j :: 0 <= i < j < |entries| ==> entries[i].pageId != entries[j].pageId
  }

  function EntryOf(entries: seq<OptOutEntry>, pageId: int): Option<OptOutEntry> {
    if entries == [] then None
    else if entries[0].pageId == pageId then Some(entries[0])
    else EntryOf(entries[1..], pageId)
  }

  /** entries[page_id] = entry: an overwritten entry keeps its place. */
  function Put(entries: seq<OptOutEntry>, entry: OptOutEntry): seq<OptOutEntry> {
    if entries == [] then [entry]
    else if entries[0].pageId == entry.pageId then [entry] + entries[1..]
    else [entries[0]] + Put(entries[1..], entry)
  }

  /** entries.setdefault(page_id, entry) */
  function PutNew(entries: seq<OptOutEntry>, entry: OptOutEntry): seq<OptOutEntry> {
    if EntryOf(entries, entry.pageId).Some? then entries else Put(entries, entry)
  }

  lemma {:induction false} PutLooksUp(entries: seq<OptOutEntry>, entry: OptOutEntry, pageId: int)
    ensures EntryOf(Put(entries, entry), pageId) == if pageId == entry.pageId then Some(entry)
            else EntryOf(entries, pageId)
  {
    if entries != [] && entries[0].pageId != entry.pageId {
      PutLooksUp(entries[1..], entry, pageId);
      assert Put(entries, entry)[1..] == Put(entries[1..], entry);
    }
  }

  lemma {:induction false} PutKeepsDistinct(entries: seq<OptOutEntry>, entry: OptOutEntry)
    requires DistinctIds(entries)
    ensures DistinctIds(Put(entries, entry))
    ensures forall i :: 0 <= i < |Put(entries, entry)| ==>
              Put(entries, entry)[i] == entry || Put(entries, entry)[i] in entries
  {
    if entries != [] && entries[0].pageId != entry.pageId {
      PutKeepsDistinct(entries[1..], entry);
      var after, rest := Put(entries, entry), Put(entries[1..], entry);
      assert forall i :: 0 < i < |after| ==> after[i] == rest[i - 1];
    }
  }

  // ---- What should be covered -----------------------------------------------------------------

  /** The article was listed under this title, and under no later one. */
  ghost predicate ListedAs(infos: seq<TitleInfo>, pageId: int, title: string) {
    exists i :: 0 <= i < |infos| && IsArticle(infos[i], pageId) && infos[i].title == title
                && forall j :: i < j < |infos| ==> !IsArticle(infos[j], pageId)
  }

  predicate Listed(infos: seq<TitleInfo>, pageId: int) {
    exists i :: 0 <= i < |infos| && IsArticle(infos[i], pageId)
  }

  predicate Has(members: seq<Member>, pageId: int) {
    exists k :: 0 <= k < |members| && members[k].pageId == pageId
  }

  predicate Reaches(upstream: Upstream, info: TitleInfo, limit: nat, pageId: int) {
    IsCategory(info) && Reading(upstream, info.title, limit).Some?
        && Has(Reading(upstream, info.title, limit).value, pageId)
  }

  predicate InCategory(upstream: Upstream, infos: seq<TitleInfo>, limit: nat, pageId: int) {
    exists i :: 0 <= i < |infos| && Reaches(upstream, infos[i], limit, pageId)
  }

  /** The entry names the first listed category that reaches the article. */
  ghost predicate ReachedFirstBy(upstream: Upstream, infos: seq<TitleInfo>, limit: nat, entry: OptOutEntry) {
    exists i :: 0 <= i < |infos| && Reaches(upstream, infos[i], limit, entry.pageId)
                && (forall j :: 0 <= j < i ==> !Reaches(upstream, infos[j], limit, entry.pageId))
                && entry.source == "category:" + infos[i].title
                && Member(entry.pageId, entry.title) in Reading(upstream, infos[i].title, limit).value
  }

  /** Exactly the right entries, for the right reasons. */
  ghost predicate Covers(upstream: Upstream, infos: seq<TitleInfo>, limit: nat, entries: seq<OptOutEntry>) {
    && DistinctIds(entries)
    && (forall pageId ::
          EntryOf(entries, pageId).Some? <==> Listed(infos, pageId) || InCategory(upstream, infos, limit, pageId))
    && (forall pageId :: EntryOf(entries, pageId).Some? ==>
        RightEntry(upstream, infos, limit, pageId, EntryOf(entries, pageId).value))
  }

  ghost predicate RightEntry(upstream: Upstream, infos: seq<TitleInfo>, limit: nat, pageId: int, entry: OptOutEntry) {
    && entry.pageId == pageId
    && if Listed(infos, pageId) then entry.source == "page" && ListedAs(infos, pageId, entry.title)
       else ReachedFirstBy(upstream, infos, limit, entry)
  }

  // ---- Collecting ---------------------------------------------------------------------------------

  function ArticleNotes(infos: seq<TitleInfo>): seq<Note> {
    if infos == [] then []
    else
      var last := infos[|infos| - 1];
      ArticleNotes(infos[..|infos| - 1]) + if last.namespace == ARTICLE
          && last.pageId.None? then [NoSuchPage(last.title)] else []
  }

  /** Entries after the first pass over these titles. */
  ghost predicate ArticlesIn(infos: seq<TitleInfo>, entries: seq<OptOutEntry>) {
    && DistinctIds(entries)
    && (forall pageId :: EntryOf(entries, pageId).Some? <==> Listed(infos, pageId))
    && (forall pageId :: Listed(infos, pageId) ==>
          var entry := EntryOf(entries, pageId).value;
          entry.pageId == pageId && entry.source == "page" && ListedAs(infos, pageId, entry.title))
  }

  lemma OneMoreArticle(infos: seq<TitleInfo>, i: nat, entries: seq<OptOutEntry>)
    requires i < |infos| && ArticlesIn(infos[..i], entries)
    ensures var info := infos[i];
            ArticlesIn(infos[..i + 1], if info.namespace == ARTICLE && info.pageId.Some?
                                       then Put(entries, OptOutEntry(info.pageId.value, info.title, "page"))
                                           else entries)
  {
    var info, before, now := infos[i], infos[..i], infos[..i + 1];
    assert now == before + [info];
    assert now[i] == info;
    var listing := info.namespace == ARTICLE && info.pageId.Some?;
    var after := if listing then Put(entries, OptOutEntry(info.pageId.value, info.title, "page")) else entries;
    if listing {
      PutKeepsDistinct(entries, OptOutEntry(info.pageId.value, info.title, "page"));
    }
    forall pageId
      ensures EntryOf(after, pageId).Some? <==> Listed(now, pageId)
      ensures Listed(now, pageId) ==>
                var entry := EntryOf(after, pageId).value;
                entry.pageId == pageId && entry.source == "page" && ListedAs(now, pageId, entry.title)
    {
      if listing {
        PutLooksUp(entries, OptOutEntry(info.pageId.value, info.title, "page"), pageId);
      }
      if IsArticle(info, pageId) {
        assert ListedAs(now, pageId, info.title);
      } else {
        assert Listed(now, pageId) <==> Listed(before, pageId) by {
          if Listed(before, pageId) {
            var k :| 0 <= k < |before| && IsArticle(before[k], pageId);
            assert IsArticle(now[k], pageId);
          }
        }
        if Listed(before, pageId) {
          var entry := EntryOf(entries, pageId).value;
          var k :| 0 <= k < |before| && IsArticle(before[k], pageId) && before[k].title == entry.title
                   && forall j :: k < j < |before| ==> !IsArticle(before[j], pageId);
          assert IsArticle(now[k], pageId) && now[k].title == entry.title;
          assert ListedAs(now, pageId, entry.title);
        }
      }
    }
  }

  /** First pass: articles listed in their own right. */
  method CollectArticles(infos: seq<TitleInfo>) returns (entries: seq<OptOutEntry>, skipped: seq<Note>)
    ensures ArticlesIn(infos, entries)
    ensures skipped == ArticleNotes(infos)
  {
    entries, skipped := [], [];
    for i := 0 to |infos|
      invariant ArticlesIn(infos[..i], entries)
      invariant skipped == ArticleNotes(infos[..i])
    {
      OneMoreArticle(infos, i, entries);
      assert infos[..i + 1][..i] == infos[..i];
      var info := infos[i];
      if info.namespace == ARTICLE {
        if info.pageId.None? {
          skipped := skipped + [NoSuchPage(info.title)];
        } else {
          entries := Put(entries, OptOutEntry(info.pageId.value, info.title, "page"));
        }
      }
    }
    assert infos[..|infos|] == infos;
  }

  /** A member list only adds entries for articles that have none; the first mention of each wins. */
  ghost predicate AddsMembers(before: seq<OptOutEntry>, after: seq<OptOutEntry>, title: string, members: seq<Member>) {
    && (DistinctIds(before) ==> DistinctIds(after))
    && forall pageId ::
         if EntryOf(before, pageId).Some? then EntryOf(after, pageId) == EntryOf(before, pageId)
         else if Has(members, pageId) then
           && EntryOf(after, pageId).Some?
           && var entry := EntryOf(after, pageId).value;
              entry.pageId == pageId && entry.source == "category:" + title && Member(pageId, entry.title) in members
         else EntryOf(after, pageId).None?
  }

  lemma OneMoreMember(before: seq<OptOutEntry>, after: seq<OptOutEntry>, title: string, members: seq<Member>, k: nat)
    requires k < |members| && AddsMembers(before, after, title, members[..k])
    ensures AddsMembers(before, PutNew(after, OptOutEntry(members[k].pageId, members[k].title, "category:" + title)),
                        title, members[..k + 1])
  {
    var member := members[k];
    var entry := OptOutEntry(member.pageId, member.title, "category:" + title);
    var seen, now := members[..k], members[..k + 1];
    assert now == seen + [member];
    assert now[k] == member;
    if DistinctIds(after) {
      PutKeepsDistinct(after, entry);
    }
    forall pageId
      ensures EntryOf(PutNew(after, entry), pageId)
              == if pageId == member.pageId && EntryOf(after, pageId).None? then Some(entry) else EntryOf(after, pageId)
      ensures Has(now, pageId) <==> Has(seen, pageId) || pageId == member.pageId
    {
      PutLooksUp(after, entry, pageId);
      if Has(seen, pageId) {
        var j :| 0 <= j < |seen| && seen[j].pageId == pageId;
        assert now[j].pageId == pageId;
      }
    }
  }

  method AddMembers(entries: seq<OptOutEntry>, title: string, members: seq<Member>) returns (after: seq<OptOutEntry>)
    ensures AddsMembers(entries, after, title, members)
  {
    after := entries;
    for k := 0 to |members|
      invariant AddsMembers(entries, after, title, members[..k])
    {
      OneMoreMember(entries, after, title, members, k);
      after := PutNew(after, OptOutEntry(members[k].pageId, members[k].title, "category:" + title));
    }
    assert members[..|members|] == members;
  }

  /** Entries after the second pass over the first `i` titles. */
  ghost predicate CoversSoFar(upstream: Upstream, infos: seq<TitleInfo>, limit: nat, i: nat, entries: seq<OptOutEntry>)
    requires i <= |infos|
  {
    && DistinctIds(entries)
    && (forall pageId ::
          EntryOf(entries, pageId).Some? <==> Listed(infos, pageId) || InCategory(upstream, infos[..i], limit, pageId))
    && (forall pageId :: Listed(infos, pageId) ==>
          var entry := EntryOf(entries, pageId).value;
          entry.pageId == pageId && entry.source == "page" && ListedAs(infos, pageId, entry.title))
    && (forall pageId :: !Listed(infos, pageId) && InCategory(upstream, infos[..i], limit, pageId) ==>
          EntryOf(entries, pageId).value.pageId == pageId
              && ReachedFirstBy(upstream, infos[..i], limit, EntryOf(entries, pageId).value))
  }

  lemma OneMoreInfo(upstream: Upstream, infos: seq<TitleInfo>, limit: nat, i: nat, pageId: int)
    requires i < |infos|
    ensures InCategory(upstream, infos[..i + 1], limit, pageId)
            <==> InCategory(upstream, infos[..i], limit, pageId) || Reaches(upstream, infos[i], limit, pageId)
  {
    assert infos[..i + 1][i] == infos[i];
    if InCategory(upstream, infos[..i], limit, pageId) {
      var k :| 0 <= k < i && Reaches(upstream, infos[..i][k], limit, pageId);
      assert infos[..i + 1][k] == infos[..i][k];
    }
  }

  lemma StillReachedFirst(upstream: Upstream, infos: seq<TitleInfo>, limit: nat, i: nat, entry: OptOutEntry)
    requires i < |infos| && ReachedFirstBy(upstream, infos[..i], limit, entry)
    ensures ReachedFirstBy(upstream, infos[..i + 1], limit, entry)
  {
    var before, now := infos[..i], infos[..i + 1];
    var k :| 0 <= k < |before| && Reaches(upstream, before[k], limit, entry.pageId)
             && (forall j :: 0 <= j < k ==> !Reaches(upstream, before[j], limit, entry.pageId))
             && entry.source == "category:" + before[k].title
             && Member(entry.pageId, entry.title) in Reading(upstream, before[k].title, limit).value;
    assert forall j :: 0 <= j <= k ==> now[j] == before[j];
    assert Reaches(upstream, now[k], limit, entry.pageId);
  }

  lemma NowReachedFirst(upstream: Upstream, infos: seq<TitleInfo>, limit: nat, i: nat, entry: OptOutEntry)
    requires i < |infos| && Reaches(upstream, infos[i], limit, entry.pageId)
    requires !InCategory(upstream, infos[..i], limit, entry.pageId)
    requires entry.source == "category:" + infos[i].title
    requires Member(entry.pageId, entry.title) in Reading(upstream, infos[i].title, limit).value
    ensures ReachedFirstBy(upstream, infos[..i + 1], limit, entry)
  {
    var before, now := infos[..i], infos[..i + 1];
    assert now[i] == infos[i];
    forall j | 0 <= j < i
      ensures !Reaches(upstream, now[j], limit, entry.pageId)
    {
      assert now[j] == before[j];
    }
  }

  lemma OneMoreCategory(upstream: Upstream, infos: seq<TitleInfo>, limit: nat, i: nat, entries: seq<OptOutEntry>,
                        after: seq<OptOutEntry>)
    requires i < |infos| && CoversSoFar(upstream, infos, limit, i, entries)
    requires IsCategory(infos[i]) && Reading(upstream, infos[i].title, limit).Some?
    requires AddsMembers(entries, after, infos[i].title, Reading(upstream, infos[i].title, limit).value)
    ensures CoversSoFar(upstream, infos, limit, i + 1, after)
  {
    forall pageId
      ensures EntryOf(after, pageId).Some?
              <==> Listed(infos, pageId) || InCategory(upstream, infos[..i + 1], limit, pageId)
      ensures !Listed(infos, pageId) && InCategory(upstream, infos[..i + 1], limit, pageId) ==>
                EntryOf(after, pageId).value.pageId == pageId
                    && ReachedFirstBy(upstream, infos[..i + 1], limit, EntryOf(after, pageId).value)
    {
      OneMoreInfo(upstream, infos, limit, i, pageId);
      if !Listed(infos, pageId) && InCategory(upstream, infos[..i + 1], limit, pageId) {
        if InCategory(upstream, infos[..i], limit, pageId) {
          StillReachedFirst(upstream, infos, limit, i, EntryOf(entries, pageId).value);
        } else {
          NowReachedFirst(upstream, infos, limit, i, EntryOf(after, pageId).value);
        }
      }
    }
  }

  lemma NoCategoryHere(upstream: Upstream, infos: seq<TitleInfo>, limit: nat, i: nat, entries: seq<OptOutEntry>)
    requires i < |infos| && CoversSoFar(upstream, infos, limit, i, entries)
    requires !IsCategory(infos[i])
    ensures CoversSoFar(upstream, infos, limit, i + 1, entries)
  {
    forall pageId
      ensures InCategory(upstream, infos[..i + 1], limit, pageId) <==> InCategory(upstream, infos[..i], limit, pageId)
      ensures !Listed(infos, pageId) && InCategory(upstream, infos[..i + 1], limit, pageId) ==>
                ReachedFirstBy(upstream, infos[..i + 1], limit, EntryOf(entries, pageId).value)
    {
      OneMoreInfo(upstream, infos, limit, i, pageId);
      if !Listed(infos, pageId) && InCategory(upstream, infos[..i], limit, pageId) {
        StillReachedFirst(upstream, infos, limit, i, EntryOf(entries, pageId).value);
      }
    }
  }

  /** The flag category_members returns with the capped list. */
  predicate ReportedCut(upstream: Upstream, title: string, limit: nat) {
    || limit == 0
    || (upstream.batches(title).Some? && upstream.batches(title).value != []
        && (|| |Pagination.Joined(upstream.batches(title).value)| > limit
            || |Pagination.Joined(Pagination.Continued(upstream.batches(title).value))| >= limit))
  }

  /** One category read through the API, capped. */
  method ReadCategory(upstream: Upstream, title: string, limit: nat)
    returns (members: Option<seq<Member>>, truncated: bool)
    requires Answers(upstream)
    ensures members == Reading(upstream, title, limit)
    ensures members.Some? ==> (truncated <==> ReportedCut(upstream, title, limit))
  {
    if limit == 0 {
      return Some([]), true;
    }
    var batches := upstream.batches(title);
    if batches.None? {
      return None, false;
    }
    var read, cut := Pagination.CategoryMembers(batches.value, limit);
    return Some(read), cut;
  }

  /** What the second pass notes. */
  function OtherNotes(upstream: Upstream, infos: seq<TitleInfo>, limit: nat): seq<Note> {
    if infos == [] then []
    else
      var last := infos[|infos| - 1];
      OtherNotes(upstream, infos[..|infos| - 1], limit) +
      if IsCategory(last) && ReportedCut(upstream, last.title, limit) then [Truncated(last.title)]
      else if last.namespace != ARTICLE && !IsCategory(last) then [WrongNamespace(last.title, last.namespace)]
      else []
  }

  lemma {:induction false} NotesInclude(upstream: Upstream, infos: seq<TitleInfo>, limit: nat, k: nat)
    requires k < |infos|
    ensures infos[k].namespace == ARTICLE && infos[k].pageId.None? ==> NoSuchPage(infos[k].title) in ArticleNotes(infos)
    ensures IsCategory(infos[k]) && ReportedCut(upstream, infos[k].title, limit) ==>
            Truncated(infos[k].title) in OtherNotes(upstream, infos, limit)
    ensures infos[k].namespace != ARTICLE && !IsCategory(infos[k]) ==>
              WrongNamespace(infos[k].title, infos[k].namespace) in OtherNotes(upstream, infos, limit)
  {
    if k < |infos| - 1 {
      NotesInclude(upstream, infos[..|infos| - 1], limit, k);
    }
  }

  /** A listed title that adds no article, or not all it could, is always noted. */
  lemma NothingIsDroppedSilently(upstream: Upstream, infos: seq<TitleInfo>, limit: nat, k: nat, pageId: int)
    requires Answers(upstream) && AllRead(upstream, infos, limit) && k < |infos|
    requires ArticleNotes(infos) == [] && OtherNotes(upstream, infos, limit) == []
    ensures infos[k].namespace == 0 || infos[k].namespace == 14
    ensures infos[k].namespace == 0 ==> infos[k].pageId.Some? && Listed(infos, infos[k].pageId.value)
    ensures infos[k].namespace == 14 ==> IsCategory(infos[k]) && upstream.batches(infos[k].title).Some?
    ensures IsCategory(infos[k]) && Has(Pagination.Joined(upstream.batches(infos[k].title).value), pageId) ==>
              InCategory(upstream, infos, limit, pageId)
  {
    NotesInclude(upstream, infos, limit, k);
    if infos[k].namespace == ARTICLE {
      assert IsArticle(infos[k], infos[k].pageId.value);
    } else {
      assert Reading(upstream, infos[k].title, limit)
          == Some(Pagination.Joined(upstream.batches(infos[k].title).value));
      if Has(Pagination.Joined(upstream.batches(infos[k].title).value), pageId) {
        assert Reaches(upstream, infos[k], limit, pageId);
      }
    }
  }

  /** One title of the second pass; nothing if its category could not be read. */
  method CollectOne(upstream: Upstream, infos: seq<TitleInfo>, limit: nat, i: nat, entries: seq<OptOutEntry>)
    returns (after: Option<seq<OptOutEntry>>, notes: seq<Note>)
    requires Answers(upstream) && i < |infos|
    requires CoversSoFar(upstream, infos, limit, i, entries)
    ensures after.None? <==> IsCategory(infos[i]) && Reading(upstream, infos[i].title, limit).None?
    ensures after.Some? ==> CoversSoFar(upstream, infos, limit, i + 1, after.value)
    ensures after.Some? ==>
              OtherNotes(upstream, infos[..i + 1], limit) == OtherNotes(upstream, infos[..i], limit) + notes
  {
    assert infos[..i + 1][..i] == infos[..i];
    var info := infos[i];
    if IsCategory(info) {
      var members, truncated := ReadCategory(upstream, info.title, limit);
      if members.None? {
        return None, [];
      }
      var more := AddMembers(entries, info.title, members.value);
      OneMoreCategory(upstream, infos, limit, i, entries, more);
      return Some(more), if truncated then [Truncated(info.title)] else [];
    }
    NoCategoryHere(upstream, infos, limit, i, entries);
    return Some(entries), if info.namespace != ARTICLE then [WrongNamespace(info.title, info.namespace)] else [];
  }

  lemma NothingReachedYet(upstream: Upstream, infos: seq<TitleInfo>, limit: nat, articles: seq<OptOutEntry>)
    requires ArticlesIn(infos, articles)
    ensures CoversSoFar(upstream, infos, limit, 0, articles)
  {}

  lemma OneMoreRead(upstream: Upstream, infos: seq<TitleInfo>, limit: nat, i: nat)
    requires i < |infos| && AllRead(upstream, infos[..i], limit)
    ensures if IsCategory(infos[i])
            && Reading(upstream, infos[i].title, limit).None? then !AllRead(upstream, infos, limit)
            else AllRead(upstream, infos[..i + 1], limit)
  {
    assert infos[..i + 1] == infos[..i] + [infos[i]];
  }

  /** Second pass: what listed categories reach. */
  method CollectCategories(upstream: Upstream, infos: seq<TitleInfo>, limit: nat, articles: seq<OptOutEntry>)
    returns (entries: Option<seq<OptOutEntry>>, skipped: seq<Note>)
    requires Answers(upstream) && ArticlesIn(infos, articles)
    ensures entries.Some? <==> AllRead(upstream, infos, limit)
    ensures entries.Some? ==>
            CoversSoFar(upstream, infos, limit, |infos|, entries.value) && skipped == OtherNotes(upstream, infos, limit)
  {
    var collected := articles;
    skipped := [];
    NothingReachedYet(upstream, infos, limit, articles);
    for i := 0 to |infos|
      invariant CoversSoFar(upstream, infos, limit, i, collected)
      invariant skipped == OtherNotes(upstream, infos[..i], limit)
      invariant AllRead(upstream, infos[..i], limit)
    {
      var after, notes := CollectOne(upstream, infos, limit, i, collected);
      OneMoreRead(upstream, infos, limit, i);
      if after.None? {
        return None, skipped;
      }
      collected, skipped := after.value, skipped + notes;
    }
    assert infos[..|infos|] == infos;
    entries := Some(collected);
  }

  lemma AllCovered(upstream: Upstream, infos: seq<TitleInfo>, limit: nat, entries: seq<OptOutEntry>)
    requires CoversSoFar(upstream, infos, limit, |infos|, entries)
    ensures Covers(upstream, infos, limit, entries)
  {
    assert infos[..|infos|] == infos;
  }

  /**
   * The articles these titles cover, and what was dropped; nothing if a reading fails. Every
   * covered article appears once, with its own listing as the reason if it has one and
   * otherwise the first category that reaches it.
   */
  method CollectEntries(upstream: Upstream, targets: seq<string>, limit: nat)
    returns (entries: Option<seq<OptOutEntry>>, skipped: seq<Note>)
    requires Answers(upstream)
    ensures entries.Some? <==> TitlesReadable(upstream, targets, limit)
    ensures entries.Some? ==> var infos := InfosOf(upstream, targets);
                              && Covers(upstream, infos, limit, entries.value)
                              && skipped == ArticleNotes(infos) + OtherNotes(upstream, infos, limit)
  {
    skipped := [];
    var infos := [];
    if targets != [] {
      var answer := upstream.infos(targets);
      if answer.None? {
        return None, skipped;
      }
      infos := answer.value;
    }
    var articles, missing := CollectArticles(infos);
    var collected, dropped := CollectCategories(upstream, infos, limit, articles);
    entries, skipped := collected, missing + dropped;
    if entries.Some? {
      AllCovered(upstream, infos, limit, entries.value);
    }
  }

  predicate TitlesReadable(upstream: Upstream, targets: seq<string>, limit: nat) {
    targets == [] || (upstream.infos(targets).Some? && AllRead(upstream, upstream.infos(targets).value, limit))
  }

  function InfosOf(upstream: Upstream, targets: seq<string>): seq<TitleInfo> {
    if targets == [] || upstream.infos(targets).None? then [] else upstream.infos(targets).value
  }

  // ---- The job --------------------------------------------------------------------------------------

  datatype Report = Unread | Report(covered: nat, added: nat, removed: nat)

  /** A page that is not there is an empty list; a page that could not be read is neither. */
  function TargetsOf(upstream: Upstream): seq<string> {
    if upstream.wikitext.None? || upstream.wikitext.value.None? then []
    else OptOutPage.Targets(upstream.wikitext.value.value)
  }

  predicate Readable(upstream: Upstream, limit: nat) {
    upstream.wikitext.Some? && TitlesReadable(upstream, TargetsOf(upstream), limit)
  }

  /** The wiki's stored rows are exactly the covered articles, with their reasons and the time. */
  ghost predicate Stores(table: map<Scoped, OptOutRow>, wiki: string, upstream: Upstream, infos: seq<TitleInfo>,
                         limit: nat, now: int) {
    && (forall pageId ::
          Scoped(wiki, pageId) in table <==> Listed(infos, pageId) || InCategory(upstream, infos, limit, pageId))
    && (forall pageId :: Scoped(wiki, pageId) in table ==>
          && table[Scoped(wiki, pageId)].syncedAt == now
          && RightEntry(upstream, infos, limit, pageId, table[Scoped(wiki, pageId)].entry))
  }

  ghost predicate OthersKept(before: map<Scoped, OptOutRow>, after: map<Scoped, OptOutRow>, wiki: string) {
    forall key: Scoped :: key.wiki != wiki ==>
        (key in after <==> key in before) && (key in after ==> after[key] == before[key])
  }

  lemma {:induction false} EntryOfFront(entries: seq<OptOutEntry>, pageId: int)
    requires entries != [] && DistinctIds(entries)
    ensures EntryOf(entries, pageId) == if entries[|entries| - 1].pageId == pageId then Some(entries[|entries| - 1])
                                        else EntryOf(entries[..|entries| - 1], pageId)
  {
    if |entries| > 1 {
      var n := |entries| - 1;
      EntryOfFront(entries[1..], pageId);
      assert entries[..n][1..] == entries[1..][..n - 1];
    }
  }

  lemma {:induction false} LastIsNew(front: seq<OptOutEntry>, last: OptOutEntry)
    requires DistinctIds(front + [last])
    ensures EntryOf(front, last.pageId).None?
  {
    if front != [] {
      var all := front + [last];
      assert all[0] == front[0] && all[|front|] == last;
      assert all[1..] == front[1..] + [last];
      LastIsNew(front[1..], last);
    }
  }

  lemma {:induction false} WantedAreTheEntries(entries: seq<OptOutEntry>)
    requires DistinctIds(entries)
    ensures |WantedOptOut(entries)| == |entries|
    ensures forall pageId :: pageId in WantedOptOut(entries) <==> EntryOf(entries, pageId).Some?
    ensures forall pageId :: pageId in WantedOptOut(entries) ==>
            Some(WantedOptOut(entries)[pageId]) == EntryOf(entries, pageId)
  {
    if entries != [] {
      var front, last := entries[..|entries| - 1], entries[|entries| - 1];
      WantedAreTheEntries(front);
      forall pageId
        ensures EntryOf(entries, pageId) == if last.pageId == pageId then Some(last) else EntryOf(front, pageId)
      {
        EntryOfFront(entries, pageId);
      }
      LastIsNew(front, last);
      assert WantedOptOut(entries) == WantedOptOut(front)[last.pageId := last];
    }
  }

  lemma ReplacedIsStored(before: map<Scoped, OptOutRow>, after: map<Scoped, OptOutRow>, wiki: string,
                         upstream: Upstream,
                         infos: seq<TitleInfo>, limit: nat, now: int, entries: seq<OptOutEntry>)
    requires Covers(upstream, infos, limit, entries)
    requires Replaces(before, after, wiki, OptOutRows(entries, now))
    ensures Stores(after, wiki, upstream, infos, limit, now) && OthersKept(before, after, wiki)
  {
    WantedAreTheEntries(entries);
    var rows := OptOutRows(entries, now);
    forall pageId
      ensures Scoped(wiki, pageId) in after <==> EntryOf(entries, pageId).Some?
      ensures Scoped(wiki, pageId) in after ==>
                && after[Scoped(wiki, pageId)].syncedAt == now
                && EntryOf(entries, pageId) == Some(after[Scoped(wiki, pageId)].entry)
    {
      assert Scoped(wiki, pageId) in after <==> pageId in rows;
    }
  }

  lemma IdsAfterReplacing(before: map<Scoped, OptOutRow>, after: map<Scoped, OptOutRow>, wiki: string, wanted: map<int,
                          OptOutRow>)
    requires Replaces(before, after, wiki, wanted)
    ensures IdsOf(after, wiki) == wanted.Keys
  {
    IdsOfHolds(after, wiki);
    assert forall id :: id in IdsOf(after, wiki) <==> id in wanted;
  }

  lemma StoredCount(entries: seq<OptOutEntry>, now: int)
    requires DistinctIds(entries)
    ensures |OptOutRows(entries, now)| == |entries|
  {
    WantedAreTheEntries(entries);
    assert OptOutRows(entries, now).Keys == WantedOptOut(entries).Keys;
  }

  lemma EmptyPageListsNothing()
    ensures OptOutPage.Targets("") == []
  {
    assert OptOutPage.Lines("") == [""];
    assert [""][..0] == [];
    assert OptOutPage.Listed([""]) == [];
  }

  /**
   * One run for one wiki. If anything could not be read the
   * stored list stays as it was; a dry run only counts.
   */
  method SyncWiki(repository: Repository, wiki: string, upstream: Upstream, limit: nat, now: int, dryRun: bool)
    returns (report: Report)
    requires Answers(upstream)
    modifies repository`optout
    ensures report.Unread? <==> !Readable(upstream, limit)
    ensures report.Unread? || dryRun ==> repository.optout == old(repository.optout)
    ensures report.Report? && dryRun ==> report.added == report.removed == 0
    ensures report.Report? && !dryRun ==>
              && Stores(repository.optout, wiki, upstream, InfosOf(upstream, TargetsOf(upstream)), limit, now)
              && OthersKept(old(repository.optout), repository.optout, wiki)
              && var before, after := IdsOf(old(repository.optout), wiki), IdsOf(repository.optout, wiki);
                 report.covered == |after| && report.added == |after - before| && report.removed == |before - after|
    ensures report.Report? ==>
              exists entries :: Covers(upstream, InfosOf(upstream, TargetsOf(upstream)), limit, entries)
                  && report.covered == |entries|
  {
    if upstream.wikitext.None? {
      return Unread;
    }
    var wikitext := if upstream.wikitext.value.Some? then upstream.wikitext.value.value else "";
    var targets := OptOutPage.ParseOptoutPage(wikitext);
    EmptyPageListsNothing();
    assert targets == TargetsOf(upstream);
    var entries, skipped := CollectEntries(upstream, targets, limit);
    if entries.None? {
      return Unread;
    }
    if dryRun {
      return Report(|entries.value|, 0, 0);
    }
    var added, removed := repository.ReplaceOptout(now, wiki, entries.value);
    StoredCount(entries.value, now);
    IdsAfterReplacing(old(repository.optout), repository.optout, wiki, OptOutRows(entries.value, now));
    ReplacedIsStored(old(repository.optout), repository.optout, wiki, upstream, InfosOf(upstream, targets), limit, now,
                     entries.value);
    report := Report(|entries.value|, added, removed);
  }

  lemma {:induction false} TitleIsListed(lines: seq<OptOutPage.Line>, k: nat)
    requires k < |lines| && lines[k].Entry?
    ensures lines[k].title in OptOutPage.TitlesOf(lines)
  {
    if k < |lines| - 1 {
      TitleIsListed(lines[..|lines| - 1], k);
    }
  }

  /**
   * From page to table: an entry however it is laid out, whose title MediaWiki resolves to
   * an article, is opted out after any run that read everything.
   */
  lemma ListedTitleIsStored(table: map<Scoped, OptOutRow>, wiki: string, upstream: Upstream, limit: nat, now: int,
                            source: OptOutPage.Source, lines: seq<OptOutPage.Line>, k: nat,
                                resolve: string -> TitleInfo, pageId: int)
    requires OptOutPage.WellFormed(source) && forall i :: 0 <= i < |lines| ==> OptOutPage.IsWritten(lines[i])
    requires k < |lines| && lines[k].Entry?
             && OptOutPage.Visible(source) == OptOutPage.Joined(OptOutPage.TextsOf(lines))
    requires upstream.wikitext == Some(Some(OptOutPage.Written(source))) && Readable(upstream, limit)
    requires forall title :: title in TargetsOf(upstream) ==> resolve(title) in InfosOf(upstream, TargetsOf(upstream))
    requires Stores(table, wiki, upstream, InfosOf(upstream, TargetsOf(upstream)), limit, now)
    requires IsArticle(resolve(lines[k].title), pageId)
    ensures Scoped(wiki, pageId) in table && table[Scoped(wiki, pageId)].entry.source == "page"
  {
    var infos := InfosOf(upstream, TargetsOf(upstream));
    OptOutPage.PageReadsBack(source, lines);
    TitleIsListed(lines, k);
    OptOutPage.FirstOccurrencesAre(OptOutPage.TitlesOf(lines));
    var info := resolve(lines[k].title);
    assert lines[k].title in TargetsOf(upstream);
    var i :| 0 <= i < |infos| && infos[i] == info;
    assert Listed(infos, pageId);
  }
}
