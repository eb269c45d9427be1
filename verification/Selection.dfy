/** Which accounts a ranking names, in which order accounts are asked about, and what a cut-off pool can lose. */
module Selection {
  import opened Options
  import opened Policy
  import opened WorkQueue
  import opened Attribution

  /** Everything a selection looks at besides the ranking. */
  datatype Setting<!T> = Setting(
    userId: T -> Option<int>,
    significant: Tally<T> -> bool,
    users: map<int, ResolvedUser>,
    globalGroups: string -> set<string>,
    wording: Wording,
    total: nat)

  predicate Resolved<T>(s: Setting<T>, entry: Tally<T>) {
    s.userId(entry.who).Some? && s.userId(entry.who).value in s.users
  }

  function UserOf<T>(s: Setting<T>, entry: Tally<T>): ResolvedUser
    requires Resolved(s, entry)
  {
    s.users[s.userId(entry.who).value]
  }

  predicate Eligible<T>(s: Setting<T>, entry: Tally<T>) {
    Resolved(s, entry) && s.significant(entry) && ShouldHighlight(UserOf(s, entry), s.globalGroups, s.wording)
  }

  function NameOf<T>(s: Setting<T>, entry: Tally<T>): Contributor
    requires Resolved(s, entry) && s.total > 0
  {
    Contributor(UserOf(s, entry).userId, UserOf(s, entry).username, entry.count, entry.count as real / s.total as real)
  }

  /** The eligible entries in ranking order. */
  function Chosen<T>(s: Setting<T>, ranking: seq<Tally<T>>): (chosen: seq<Tally<T>>)
    ensures forall i :: 0 <= i < |chosen| ==> Eligible(s, chosen[i])
  {
    if ranking == [] then []
    else
      var last := ranking[|ranking| - 1];
      Chosen(s, ranking[..|ranking| - 1]) + if Eligible(s, last) then [last] else []
  }

  /** The loop stops when the list reaches the limit; a limit of zero never stops it. */
  function Firsts<X>(s: seq<X>, limit: nat): seq<X> {
    if limit == 0 || |s| <= limit then s else s[..limit]
  }

  function Names<T>(s: Setting<T>, entries: seq<Tally<T>>): seq<Contributor>
    requires s.total > 0 && forall i :: 0 <= i < |entries| ==> Resolved(s, entries[i])
  {
    seq(|entries|, i requires 0 <= i < |entries| => NameOf(s, entries[i]))
  }

  // ---- The two orders of the checks ------------------------------------------------------

  /** Entries named and usernames looked up globally so far. */
  datatype Scan<T> = Scan(named: seq<Tally<T>>, asked: seq<string>)

  /** An entry whose global groups have to be asked for once nothing local excludes it. */
  predicate NeedsLookup<T>(s: Setting<T>, entry: Tally<T>) {
    Resolved(s, entry) && !LocallyExcluded(UserOf(s, entry), s.wording)
  }

  predicate PassesLookup<T>(s: Setting<T>, entry: Tally<T>)
    requires Resolved(s, entry)
  {
    !GloballyBot(UserOf(s, entry).username, s.globalGroups, s.wording)
  }

  /** The source's loop: the significance gate first, then the exclusion rule. */
  function GateFirst<T>(s: Setting<T>, ranking: seq<Tally<T>>, limit: nat): (scan: Scan<T>)
    ensures forall i :: 0 <= i < |scan.named| ==> Eligible(s, scan.named[i])
  {
    if ranking == [] then Scan([], [])
    else
      var before, entry := GateFirst(s, ranking[..|ranking| - 1], limit), ranking[|ranking| - 1];
      if limit > 0 && |before.named| == limit then before
      else if !s.significant(entry) || !NeedsLookup(s, entry) then before
      else Scan(before.named + if PassesLookup(s, entry) then [entry]
                else [], before.asked + [UserOf(s, entry).username])
  }

  /** The other order: the exclusion rule for everyone, the gate last. */
  function ExcludeFirst<T>(s: Setting<T>, ranking: seq<Tally<T>>, limit: nat): Scan<T> {
    if ranking == [] then Scan([], [])
    else
      var before, entry := ExcludeFirst(s, ranking[..|ranking| - 1], limit), ranking[|ranking| - 1];
      if limit > 0 && |before.named| == limit then before
      else if !NeedsLookup(s, entry) then before
      else Scan(before.named + if PassesLookup(s, entry) && s.significant(entry) then [entry] else [],
                before.asked + [UserOf(s, entry).username])
  }

  /** The loop names exactly the first `limit` eligible entries of the ranking. */
  lemma {:induction false} GateFirstNamesFirstEligible<T>(s: Setting<T>, ranking: seq<Tally<T>>, limit: nat)
    ensures GateFirst(s, ranking, limit).named == Firsts(Chosen(s, ranking), limit)
  {
    if ranking != [] {
      GateFirstNamesFirstEligible(s, ranking[..|ranking| - 1], limit);
    }
  }

  /**
   * Both orders name the same accounts, and the gate-first order asks the global lookup
   * about a sub-collection of the accounts the other order asks about.
   */
  lemma {:induction false} GateFirstRefinesExcludeFirst<T>(s: Setting<T>, ranking: seq<Tally<T>>, limit: nat)
    ensures GateFirst(s, ranking, limit).named == ExcludeFirst(s, ranking, limit).named
    ensures multiset(GateFirst(s, ranking, limit).asked) <= multiset(ExcludeFirst(s, ranking, limit).asked)
  {
    if ranking != [] {
      GateFirstRefinesExcludeFirst(s, ranking[..|ranking| - 1], limit);
    }
  }

  /** Nobody is asked about who is insignificant or excluded already. */
  lemma {:induction false} AskedOnlyInContention<T>(s: Setting<T>, ranking: seq<Tally<T>>, limit: nat, k: nat)
    requires k < |GateFirst(s, ranking, limit).asked|
    ensures exists i :: 0 <= i < |ranking| && s.significant(ranking[i]) && NeedsLookup(s, ranking[i])
                        && UserOf(s, ranking[i]).username == GateFirst(s, ranking, limit).asked[k]
  {
    var n := |ranking| - 1;
    var before := GateFirst(s, ranking[..n], limit);
    if k < |before.asked| {
      AskedOnlyInContention(s, ranking[..n], limit, k);
      var i :| 0 <= i < n && s.significant(ranking[..n][i]) && NeedsLookup(s, ranking[..n][i])
               && UserOf(s, ranking[..n][i]).username == before.asked[k];
      assert ranking[i] == ranking[..n][i];
    }
  }

  /** Everybody in contention is asked about for as long as the list is not full. */
  lemma {:induction false} AskedAboutEveryContender<T>(s: Setting<T>, ranking: seq<Tally<T>>, limit: nat, i: nat)
    requires i < |ranking| && s.significant(ranking[i]) && NeedsLookup(s, ranking[i])
    requires limit == 0 || |GateFirst(s, ranking[..i], limit).named| != limit
    ensures UserOf(s, ranking[i]).username in GateFirst(s, ranking, limit).asked
    decreases |ranking|
  {
    var n := |ranking| - 1;
    if i < n {
      assert ranking[..n][..i] == ranking[..i];
      AskedAboutEveryContender(s, ranking[..n], limit, i);
    } else {
      assert ranking[..i] == ranking[..n];
    }
  }

  /** Whoever is named was asked about. */
  lemma {:induction false} NamedWereAskedAbout<T>(s: Setting<T>, ranking: seq<Tally<T>>, limit: nat, i: nat)
    requires i < |GateFirst(s, ranking, limit).named|
    ensures UserOf(s, GateFirst(s, ranking, limit).named[i]).username in GateFirst(s, ranking, limit).asked
  {
    if ranking != [] && i < |GateFirst(s, ranking[..|ranking| - 1], limit).named| {
      NamedWereAskedAbout(s, ranking[..|ranking| - 1], limit, i);
    }
  }

  // ---- Top-k without mentioning the loop -------------------------------------------------

  /** Where an account stands in the counter. */
  function IndexOf<T(==)>(counts: seq<Tally<T>>, who: T): nat {
    if counts == [] || counts[|counts| - 1].who == who then (if counts == [] then 0 else |counts| - 1)
    else IndexOf(counts[..|counts| - 1], who)
  }

  function IndexIn<T(==)>(counts: seq<Tally<T>>): T -> nat {
    who => IndexOf(counts, who)
  }

  /** Counted more often, or as often and earlier. */
  predicate Before<T>(index: T -> nat, a: Tally<T>, b: Tally<T>) {
    a.count > b.count || (a.count == b.count && index(a.who) < index(b.who))
  }

  predicate Ordered<T>(index: T -> nat, ranking: seq<Tally<T>>) {
    forall i, j :: 0 <= i < j < |ranking| ==> Before(index, ranking[i], ranking[j])
  }

  lemma {:induction false} IndexOfEntry<T>(counts: seq<Tally<T>>, i: nat)
    requires IsCounter(counts) && i < |counts|
    ensures IndexIn(counts)(counts[i].who) == i
  {
    if i < |counts| - 1 { IndexOfEntry(counts[..|counts| - 1], i); }
  }

  lemma OrderedAppend<T>(index: T -> nat, ranking: seq<Tally<T>>, last: Tally<T>)
    requires Ordered(index, ranking) && forall i :: 0 <= i < |ranking| ==> Before(index, ranking[i], last)
    ensures Ordered(index, ranking + [last])
  {}

  lemma {:induction false} PlaceOrders<T>(index: T -> nat, ranking: seq<Tally<T>>, entry: Tally<T>)
    requires Ordered(index, ranking) && Descending(ranking)
    requires forall i :: 0 <= i < |ranking| ==> index(ranking[i].who) < index(entry.who)
    ensures Ordered(index, Place(ranking, entry))
  {
    var n := |ranking| - 1;
    if ranking == [] {
    } else if ranking[n].count >= entry.count {
      OrderedAppend(index, ranking, entry);
    } else {
      PlaceOrders(index, ranking[..n], entry);
      PlaceMembers(ranking[..n], entry);
      var placed := Place(ranking[..n], entry);
      forall i | 0 <= i < |placed|
        ensures Before(index, placed[i], ranking[n])
      {
        if placed[i] != entry {
          var k :| 0 <= k < n && ranking[..n][k] == placed[i];
          assert Before(index, ranking[k], ranking[n]);
        }
      }
      OrderedAppend(index, placed, ranking[n]);
    }
  }

  /** The ranking is the counter put in the order of count and first insertion. */
  lemma {:induction false} RankedByBefore<T>(index: T -> nat, counts: seq<Tally<T>>)
    requires forall i, j :: 0 <= i < j < |counts| ==> index(counts[i].who) < index(counts[j].who)
    ensures Ordered(index, MostCommon(counts))
  {
    if counts != [] {
      var n := |counts| - 1;
      var ranking := MostCommon(counts[..n]);
      RankedByBefore(index, counts[..n]);
      MostCommonSorts(counts[..n]);
      forall i | 0 <= i < |ranking|
        ensures index(ranking[i].who) < index(counts[n].who)
      {
        assert ranking[i] in multiset(ranking);
        var k :| 0 <= k < n && counts[..n][k] == ranking[i];
      }
      PlaceOrders(index, ranking, counts[n]);
    }
  }

  lemma {:induction false} ChosenSplit<T>(s: Setting<T>, a: seq<Tally<T>>, b: seq<Tally<T>>)
    ensures Chosen(s, a + b) == Chosen(s, a) + Chosen(s, b)
  {
    if b == [] {
      assert a + b == a;
    } else {
      var n := |b| - 1;
      ChosenSplit(s, a, b[..n]);
      assert (a + b)[..|a + b| - 1] == a + b[..n];
    }
  }

  lemma {:induction false} ChosenMembers<T>(s: Setting<T>, ranking: seq<Tally<T>>)
    ensures forall x :: x in Chosen(s, ranking) <==> x in ranking && Eligible(s, x)
    ensures forall i :: 0 <= i < |Chosen(s, ranking)| ==> Chosen(s, ranking)[i] in ranking
  {
    if ranking != [] {
      var n := |ranking| - 1;
      assert ranking == ranking[..n] + [ranking[n]];
      ChosenMembers(s, ranking[..n]);
    }
  }

  lemma {:induction false} ChosenDistinct<T>(s: Setting<T>, ranking: seq<Tally<T>>)
    requires forall i, j :: 0 <= i < j < |ranking| ==> ranking[i] != ranking[j]
    ensures forall i, j :: 0 <= i < j < |Chosen(s, ranking)| ==> Chosen(s, ranking)[i] != Chosen(s, ranking)[j]
  {
    if ranking != [] {
      var n := |ranking| - 1;
      ChosenMembers(s, ranking[..n]);
      ChosenDistinct(s, ranking[..n]);
      assert ranking[n] !in ranking[..n];
    }
  }

  lemma {:induction false} DistinctSize<X>(s: seq<X>)
    requires forall i, j :: 0 <= i < j < |s| ==> s[i] != s[j]
    ensures |set x | x in s| == |s|
  {
    if s != [] {
      var n := |s| - 1;
      DistinctSize(s[..n]);
      assert (set x | x in s) == (set x | x in s[..n]) + {s[n]};
    }
  }

  /** The eligible accounts that come before one. */
  function EligibleAhead<T(==)>(s: Setting<T>, index: T -> nat, counts: seq<Tally<T>>, entry: Tally<T>): set<Tally<T>> {
    set x | x in counts && Eligible(s, x) && Before(index, x, entry)
  }

  lemma AheadAreRankedEarlier<T>(index: T -> nat, counts: seq<Tally<T>>, ranking: seq<Tally<T>>, q: nat)
    requires q < |ranking| && multiset(ranking) == multiset(counts) && Ordered(index, ranking)
    ensures forall x :: x in counts && Before(index, x, ranking[q]) <==> x in ranking[..q]
  {
    forall k | q <= k < |ranking|
      ensures !Before(index, ranking[k], ranking[q])
    {
      assert k == q || Before(index, ranking[q], ranking[k]);
    }
    forall x
      ensures x in counts && Before(index, x, ranking[q]) <==> x in ranking[..q]
    {
      if x in counts && Before(index, x, ranking[q]) {
        assert x in multiset(ranking);
        var k :| 0 <= k < |ranking| && ranking[k] == x;
        assert ranking[..q][k] == x;
      }
      if x in ranking[..q] {
        var k :| 0 <= k < q && ranking[..q][k] == x;
        assert Before(index, ranking[k], ranking[q]);
        assert x in multiset(ranking);
      }
    }
  }

  /** Where an eligible entry of a ranking without repetitions stands among the chosen. */
  lemma ChosenAt<T>(s: Setting<T>, ranking: seq<Tally<T>>, q: nat)
    requires q < |ranking| && Eligible(s, ranking[q])
    ensures |Chosen(s, ranking[..q])| < |Chosen(s, ranking)|
    ensures Chosen(s, ranking)[|Chosen(s, ranking[..q])|] == ranking[q]
  {
    assert ranking == ranking[..q] + ([ranking[q]] + ranking[q + 1..]);
    ChosenSplit(s, ranking[..q], [ranking[q]] + ranking[q + 1..]);
    ChosenSplit(s, [ranking[q]], ranking[q + 1..]);
    assert [ranking[q]][..0] == [];
  }

  lemma InFirstsIff<X>(all: seq<X>, k: nat, limit: nat)
    requires forall i, j :: 0 <= i < j < |all| ==> all[i] != all[j]
    requires limit >= 1 && k < |all|
    ensures all[k] in Firsts(all, limit) <==> k < limit
  {
    if k < limit { assert Firsts(all, limit)[k] == all[k]; }
  }

  lemma RankingFacts<T>(counts: seq<Tally<T>>)
    requires IsCounter(counts)
    ensures Ordered(IndexIn(counts), MostCommon(counts))
    ensures multiset(MostCommon(counts)) == multiset(counts)
    ensures var ranking := MostCommon(counts); forall i, j :: 0 <= i < j < |ranking| ==> ranking[i] != ranking[j]
  {
    var ranking, index := MostCommon(counts), IndexIn(counts);
    forall i, j | 0 <= i < j < |counts|
      ensures index(counts[i].who) < index(counts[j].who)
    {
      IndexOfEntry(counts, i);
      IndexOfEntry(counts, j);
    }
    RankedByBefore(index, counts);
    MostCommonSorts(counts);
    forall i, j | 0 <= i < j < |ranking|
      ensures ranking[i] != ranking[j]
    {
      assert Before(index, ranking[i], ranking[j]);
    }
  }

  lemma AheadAreChosenEarlier<T>(s: Setting<T>, counts: seq<Tally<T>>, ranking: seq<Tally<T>>, q: nat)
    requires q < |ranking| && multiset(ranking) == multiset(counts) && Ordered(IndexIn(counts), ranking)
    requires forall i, j :: 0 <= i < j < |ranking| ==> ranking[i] != ranking[j]
    ensures |EligibleAhead(s, IndexIn(counts), counts, ranking[q])| == |Chosen(s, ranking[..q])|
  {
    var ahead := Chosen(s, ranking[..q]);
    AheadAreRankedEarlier(IndexIn(counts), counts, ranking, q);
    ChosenMembers(s, ranking[..q]);
    ChosenDistinct(s, ranking[..q]);
    DistinctSize(ahead);
    assert EligibleAhead(s, IndexIn(counts), counts, ranking[q]) == set x | x in ahead;
  }

  /**
   * An eligible account is named exactly when fewer than `limit` eligible accounts were
   * counted more often, or as often and first.
   */
  lemma NamedIffFewAhead<T>(s: Setting<T>, counts: seq<Tally<T>>, limit: nat, entry: Tally<T>)
    requires IsCounter(counts) && limit >= 1 && entry in counts && Eligible(s, entry)
    ensures entry in GateFirst(s, MostCommon(counts), limit).named
            <==> |EligibleAhead(s, IndexIn(counts), counts, entry)| < limit
  {
    var ranking := MostCommon(counts);
    RankingFacts(counts);
    assert entry in multiset(ranking);
    var q :| 0 <= q < |ranking| && ranking[q] == entry;
    AheadAreChosenEarlier(s, counts, ranking, q);
    ChosenAt(s, ranking, q);
    ChosenDistinct(s, ranking);
    GateFirstNamesFirstEligible(s, ranking, limit);
    InFirstsIff(Chosen(s, ranking), |Chosen(s, ranking[..q])|, limit);
  }

  // ---- The candidate pool ------------------------------------------------------------------

  /** User ids of the registered editors, in ranking order. */
  function RegisteredIds<T>(userId: T -> Option<int>, ranking: seq<Tally<T>>): seq<int> {
    if ranking == [] then []
    else
      var id := userId(ranking[|ranking| - 1].who);
      RegisteredIds(userId, ranking[..|ranking| - 1]) + if id.Some? then [id.value] else []
  }

  /** The ids that are resolved: the first `pool` registered editors. */
  function Pool<T>(userId: T -> Option<int>, ranking: seq<Tally<T>>, pool: nat): seq<int> {
    var ids := RegisteredIds(userId, ranking);
    if |ids| <= pool then ids else ids[..pool]
  }

  /** The same selection when only the pool was resolved. */
  function Truncated<T>(s: Setting<T>, ids: seq<int>): Setting<T> {
    s.(users := map id | id in s.users && id in ids :: s.users[id])
  }

  predicate InPool<T>(s: Setting<T>, ids: seq<int>, entry: Tally<T>) {
    s.userId(entry.who).Some? && s.userId(entry.who).value in ids
  }

  lemma TruncatedEligible<T>(s: Setting<T>, ids: seq<int>, entry: Tally<T>)
    ensures Eligible(Truncated(s, ids), entry) <==> Eligible(s, entry) && InPool(s, ids, entry)
    ensures Eligible(Truncated(s, ids), entry) && s.total > 0 ==> NameOf(Truncated(s, ids), entry) == NameOf(s, entry)
  {}

  lemma FirstsGrow<X>(before: seq<X>, more: seq<X>, limit: nat)
    ensures forall x :: x in Firsts(before, limit) ==> x in Firsts(before + more, limit)
  {
    forall x | x in Firsts(before, limit)
      ensures x in Firsts(before + more, limit)
    {
      var k :| 0 <= k < |Firsts(before, limit)| && Firsts(before, limit)[k] == x;
      assert Firsts(before + more, limit)[k] == x;
    }
  }

  lemma {:induction false} TruncatedKeepsPrefix<T>(s: Setting<T>, ids: seq<int>, ranking: seq<Tally<T>>, limit: nat)
    ensures (forall x :: x in Firsts(Chosen(s, ranking), limit) ==> InPool(s, ids, x))
            ==> Firsts(Chosen(Truncated(s, ids), ranking), limit) == Firsts(Chosen(s, ranking), limit)
    ensures |Chosen(Truncated(s, ids), ranking)| <= |Chosen(s, ranking)|
  {
    if ranking != [] {
      var n := |ranking| - 1;
      TruncatedKeepsPrefix(s, ids, ranking[..n], limit);
      TruncatedEligible(s, ids, ranking[n]);
      if forall x :: x in Firsts(Chosen(s, ranking), limit) ==> InPool(s, ids, x) {
        var before, after := Chosen(s, ranking[..n]), Chosen(s, ranking);
        FirstsGrow(before, if Eligible(s, ranking[n]) then [ranking[n]] else [], limit);
        if Eligible(s, ranking[n]) && (limit == 0 || |before| < limit) {
          assert Firsts(after, limit) == after;
          assert after[|before|] == ranking[n];
          assert ranking[n] in Firsts(after, limit);
        }
      }
    }
  }

  /**
   * Resolving only a pool gives the same names as resolving everyone exactly when every
   * account that would be named is in the pool.
   */
  lemma PoolIsHarmlessIff<T>(s: Setting<T>, ids: seq<int>, ranking: seq<Tally<T>>, limit: nat)
    ensures GateFirst(Truncated(s, ids), ranking, limit).named == GateFirst(s, ranking, limit).named
            <==> forall x :: x in GateFirst(s, ranking, limit).named ==> InPool(s, ids, x)
  {
    GateFirstNamesFirstEligible(s, ranking, limit);
    GateFirstNamesFirstEligible(Truncated(s, ids), ranking, limit);
    TruncatedKeepsPrefix(s, ids, ranking, limit);
    if GateFirst(Truncated(s, ids), ranking, limit).named == GateFirst(s, ranking, limit).named {
      forall x | x in GateFirst(s, ranking, limit).named
        ensures InPool(s, ids, x)
      {
        assert x in Chosen(Truncated(s, ids), ranking);
        TruncatedEligible(s, ids, x);
      }
    }
  }

  lemma {:induction false} RegisteredSplit<T>(userId: T -> Option<int>, a: seq<Tally<T>>, b: seq<Tally<T>>)
    ensures RegisteredIds(userId, a + b) == RegisteredIds(userId, a) + RegisteredIds(userId, b)
    ensures |RegisteredIds(userId, a)| <= |a|
    decreases |a| + |b|
  {
    if b == [] {
      assert a + b == a;
      if a != [] {
        RegisteredSplit(userId, a[..|a| - 1], []);
      }
    } else {
      var n := |b| - 1;
      RegisteredSplit(userId, a, b[..n]);
      assert (a + b)[..|a + b| - 1] == a + b[..n];
    }
  }

  lemma {:induction false} RegisteredMembers<T>(userId: T -> Option<int>, ranking: seq<Tally<T>>, i: nat)
    requires i < |ranking| && userId(ranking[i].who).Some?
    ensures userId(ranking[i].who).value in RegisteredIds(userId, ranking)
  {
    if i < |ranking| - 1 {
      RegisteredMembers(userId, ranking[..|ranking| - 1], i);
    }
  }

  lemma PrefixIsInPool<T>(s: Setting<T>, ranking: seq<Tally<T>>, p: nat, pool: nat, x: Tally<T>)
    requires p <= |ranking| && |RegisteredIds(s.userId, ranking[..p])| <= pool
    requires x in ranking[..p] && s.userId(x.who).Some?
    ensures InPool(s, Pool(s.userId, ranking, pool), x)
  {
    var ids, early := Pool(s.userId, ranking, pool), RegisteredIds(s.userId, ranking[..p]);
    assert ranking == ranking[..p] + ranking[p..];
    RegisteredSplit(s.userId, ranking[..p], ranking[p..]);
    var i :| 0 <= i < p && ranking[..p][i] == x;
    RegisteredMembers(s.userId, ranking[..p], i);
    var k :| 0 <= k < |early| && early[k] == s.userId(x.who).value;
    assert ids[k] == early[k];
  }

  lemma {:induction false} NoneChosen<T>(s: Setting<T>, ranking: seq<Tally<T>>)
    requires forall i :: 0 <= i < |ranking| ==> !Eligible(s, ranking[i])
    ensures Chosen(s, ranking) == []
  {
    if ranking != [] { NoneChosen(s, ranking[..|ranking| - 1]); }
  }

  lemma NamedAreInPrefix<T>(s: Setting<T>, ranking: seq<Tally<T>>, p: nat, limit: nat)
    requires p <= |ranking|
    requires (limit >= 1 && |Chosen(s, ranking[..p])| >= limit)
             || (forall i :: p <= i < |ranking| ==> !s.significant(ranking[i]))
    ensures Firsts(Chosen(s, ranking), limit) == Firsts(Chosen(s, ranking[..p]), limit)
  {
    assert ranking == ranking[..p] + ranking[p..];
    ChosenSplit(s, ranking[..p], ranking[p..]);
    if forall i :: p <= i < |ranking| ==> !s.significant(ranking[i]) {
      NoneChosen(s, ranking[p..]);
    }
  }

  /**
   * A pool that covers a prefix of the ranking changes nothing if that prefix already
   * holds `limit` eligible accounts, or if nothing after it is significant.
   */
  lemma PoolCoveringEnough<T>(s: Setting<T>, ranking: seq<Tally<T>>, p: nat, pool: nat, limit: nat)
    requires p <= |ranking| && |RegisteredIds(s.userId, ranking[..p])| <= pool
    requires (limit >= 1 && |Chosen(s, ranking[..p])| >= limit)
             || (forall i :: p <= i < |ranking| ==> !s.significant(ranking[i]))
    ensures GateFirst(Truncated(s, Pool(s.userId, ranking, pool)), ranking, limit).named
            == GateFirst(s, ranking, limit).named
  {
    var ids := Pool(s.userId, ranking, pool);
    GateFirstNamesFirstEligible(s, ranking, limit);
    NamedAreInPrefix(s, ranking, p, limit);
    ChosenMembers(s, ranking[..p]);
    forall x | x in GateFirst(s, ranking, limit).named
      ensures InPool(s, ids, x)
    {
      var k :| 0 <= k < |Firsts(Chosen(s, ranking[..p]), limit)| && Firsts(Chosen(s, ranking[..p]), limit)[k] == x;
      assert Chosen(s, ranking[..p])[k] == x;
      PrefixIsInPool(s, ranking, p, pool, x);
    }
    PoolIsHarmlessIff(s, ids, ranking, limit);
  }
}
