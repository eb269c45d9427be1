/** The two rungs of attribution (attribution.py, Worker.attribute): by surviving tokens, else by edits. */
module Ladder {
  import opened Options
  import opened Policy
  import opened WorkQueue
  import opened Attribution
  import opened Selection
  import Decimal
  import Arithmetic

  const NAME_LIMIT := 3

  /** is_registered_editor, and the id int() reads. */
  function RegisteredId(editor: string): Option<int> {
    if Decimal.AllDigits(editor) && Decimal.Value(editor) > 0 then Some(Decimal.Value(editor)) else None
  }

  /** Registered editors are the texts of digits that are not all zeros, and their id is the number. */
  lemma RegisteredIffPositive(editor: string)
    ensures RegisteredId(editor).Some?
            <==> && (forall i :: 0 <= i < |editor| ==> '0' <= editor[i] <= '9')
                 && (exists i :: 0 <= i < |editor| && editor[i] != '0')
  {
    if Decimal.AllDigits(editor) {
      Decimal.ZeroIsAllZeros(editor);
    }
  }

  lemma RegisteredIdIsTheNumber(id: nat)
    requires id > 0
    ensures RegisteredId(Decimal.Encode(id)) == Some(id)
  {
    Decimal.ValueOfEncode(id);
  }

  function Share(count: nat, total: nat): real {
    if total == 0 then 0.0 else count as real / total as real
  }

  /** How the token ranking selects. */
  function ByTokens(minimumTokens: int, minimumShare: real, users: map<int, ResolvedUser>,
                    groups: string -> set<string>, wording: Wording, total: nat): Setting<string>
  {
    Setting(RegisteredId, (entry: Tally<string>) => entry.count >= minimumTokens
            && Share(entry.count, total) >= minimumShare,
            users, groups, wording, total)
  }

  /** How the edit ranking selects: any account, no gate. */
  function ByEdits(users: map<int, ResolvedUser>, groups: string -> set<string>, wording: Wording,
                   total: nat): Setting<int> {
    Setting((who: int) => Some(who), (entry: Tally<int>) => true, users, groups, wording, total)
  }

  /**
   * Who is in contention by tokens, from the account itself: registered, resolved, with
   * enough tokens and a large enough share, not missing, and neither by name nor by a local
   * or global group temporary or a bot.
   */
  lemma EligibleByTokensIff(minimumTokens: int, minimumShare: real, users: map<int, ResolvedUser>,
                            groups: string -> set<string>,
                            wording: Wording, total: nat, entry: Tally<string>)
    requires total > 0
    ensures var id := RegisteredId(entry.who);
            Eligible(ByTokens(minimumTokens, minimumShare, users, groups, wording, total), entry)
            <==> && id.Some? && id.value in users
                 && entry.count >= minimumTokens && entry.count as real / total as real >= minimumShare
                 && var user := users[id.value];
                    && !user.missing && !wording.temporaryName(user.username) && !wording.botName(user.username)
                    && (forall group :: group in user.groups ==> !wording.botGroup(group))
                    && (forall group :: group in groups(user.username) ==> !wording.botGroup(group))
  {}

  /** By edits there is no gate: resolved, and not excluded. */
  lemma EligibleByEditsIff(users: map<int, ResolvedUser>, groups: string -> set<string>, wording: Wording, total: nat,
                           entry: Tally<int>)
    ensures Eligible(ByEdits(users, groups, wording, total), entry)
            <==> && entry.who in users
                 && var user := users[entry.who];
                    && !user.missing && !wording.temporaryName(user.username) && !wording.botName(user.username)
                    && (forall group :: group in user.groups ==> !wording.botGroup(group))
                    && (forall group :: group in groups(user.username) ==> !wording.botGroup(group))
  {}

  /** A named contributor carries the resolved id and name, the count, and the share that makes up the count. */
  lemma NamesCarryTheAccount<T>(s: Setting<T>, entries: seq<Tally<T>>, i: nat)
    requires s.total > 0 && i < |entries| && forall k :: 0 <= k < |entries| ==> Resolved(s, entries[k])
    ensures var c, user := Names(s, entries)[i], s.users[s.userId(entries[i].who).value];
            && |Names(s, entries)| == |entries|
            && c.userId == user.userId && c.username == user.username && c.count == entries[i].count
            && c.share * s.total as real == entries[i].count as real
  {}

  // ---- The selection loops -----------------------------------------------------------

  /** Once the list is full the rest of the ranking is not looked at. */
  lemma {:induction false} FullScanStops<T>(s: Setting<T>, ranking: seq<Tally<T>>, i: nat, limit: nat)
    requires i <= |ranking| && limit > 0 && |GateFirst(s, ranking[..i], limit).named| == limit
    ensures GateFirst(s, ranking, limit) == GateFirst(s, ranking[..i], limit)
    decreases |ranking|
  {
    if i == |ranking| {
      assert ranking[..i] == ranking;
    } else {
      assert ranking[..|ranking| - 1][..i] == ranking[..i];
      FullScanStops(s, ranking[..|ranking| - 1], i, limit);
    }
  }

  /** What one more entry adds to a list that is not full. */
  lemma ScanOne<T>(s: Setting<T>, ranking: seq<Tally<T>>, i: nat, limit: nat)
    requires i < |ranking| && s.total > 0 && (limit == 0 || |GateFirst(s, ranking[..i], limit).named| != limit)
    ensures var before, after, entry := GateFirst(s, ranking[..i], limit), GateFirst(s, ranking[..i + 1], limit),
            ranking[i];
            if !s.significant(entry) || !NeedsLookup(s, entry) then after == before
            else && after.asked == before.asked + [UserOf(s, entry).username]
                 && Names(s, after.named) == Names(s, before.named) + if PassesLookup(s, entry) then [NameOf(s, entry)]
                    else []
  {
    assert ranking[..i + 1][..i] == ranking[..i];
  }

  /** Name the first `limit` editors of the token ranking that pass the gates and may be highlighted. */
  method SelectContributors(counts: seq<Tally<string>>, total: nat, users: map<int, ResolvedUser>, minimumTokens: int,
                            minimumShare: real, groups: string -> set<string>, wording: Wording, limit: nat)
    returns (contributors: seq<Contributor>, asked: seq<string>)
    ensures total == 0 ==> contributors == [] && asked == []
    ensures total > 0 ==>
              var s := ByTokens(minimumTokens, minimumShare, users, groups, wording, total);
              var scan := GateFirst(s, MostCommon(counts), limit);
              contributors == Names(s, scan.named) && asked == scan.asked
  {
    contributors, asked := [], [];
    if total == 0 {
      return;
    }
    ghost var s := ByTokens(minimumTokens, minimumShare, users, groups, wording, total);
    var ranking := MostCommon(counts);
    for i := 0 to |ranking|
      invariant contributors == Names(s, GateFirst(s, ranking[..i], limit).named)
      invariant asked == GateFirst(s, ranking[..i], limit).asked
      invariant limit == 0 || |contributors| < limit
    {
      ScanOne(s, ranking, i, limit);
      var entry := ranking[i];
      var id := RegisteredId(entry.who);
      if id.None? {
        continue;
      }
      var share := entry.count as real / total as real;
      if entry.count < minimumTokens || share < minimumShare {
        continue;
      }
      if id.value !in users || LocallyExcluded(users[id.value], wording) {
        continue;
      }
      var user := users[id.value];
      asked := asked + [user.username];
      if GloballyBot(user.username, groups, wording) {
        continue;
      }
      contributors := contributors + [Contributor(user.userId, user.username, entry.count, share)];
      if |contributors| == limit {
        FullScanStops(s, ranking, i + 1, limit);
        return;
      }
    }
    assert ranking[..|ranking|] == ranking;
  }

  /** Name the first `limit` accounts of the edit ranking that may be highlighted. */
  method SelectTopEditors(counts: seq<Tally<int>>, totalRevisions: nat, users: map<int, ResolvedUser>,
                          groups: string -> set<string>, wording: Wording, limit: nat)
    returns (editors: seq<Contributor>, asked: seq<string>)
    ensures totalRevisions == 0 ==> editors == [] && asked == []
    ensures totalRevisions > 0 ==>
              var s := ByEdits(users, groups, wording, totalRevisions);
              var scan := GateFirst(s, MostCommon(counts), limit);
              editors == Names(s, scan.named) && asked == scan.asked
  {
    editors, asked := [], [];
    if totalRevisions == 0 {
      return;
    }
    ghost var s := ByEdits(users, groups, wording, totalRevisions);
    var ranking := MostCommon(counts);
    for i := 0 to |ranking|
      invariant editors == Names(s, GateFirst(s, ranking[..i], limit).named)
      invariant asked == GateFirst(s, ranking[..i], limit).asked
      invariant limit == 0 || |editors| < limit
    {
      ScanOne(s, ranking, i, limit);
      var entry := ranking[i];
      if entry.who !in users || LocallyExcluded(users[entry.who], wording) {
        continue;
      }
      var user := users[entry.who];
      asked := asked + [user.username];
      if GloballyBot(user.username, groups, wording) {
        continue;
      }
      editors := editors + [Contributor(user.userId, user.username, entry.count,
                                        entry.count as real / totalRevisions as real)];
      if |editors| == limit {
        FullScanStops(s, ranking, i + 1, limit);
        return;
      }
    }
    assert ranking[..|ranking|] == ranking;
  }

  // ---- How large the pool has to be ------------------------------------------------------

  /** Entries that pass the gates come before all that do not. */
  function SignificantPrefix<T>(s: Setting<T>, ranking: seq<Tally<T>>): (p: nat)
    ensures p <= |ranking|
    ensures forall i :: 0 <= i < p ==> s.significant(ranking[i])
    ensures p < |ranking| ==> !s.significant(ranking[p])
  {
    if ranking == [] || !s.significant(ranking[0]) then 0 else 1 + SignificantPrefix(s, ranking[1..])
  }

  lemma ShareGrows(a: nat, b: nat, total: nat)
    requires a <= b
    ensures Share(a, total) <= Share(b, total)
  {
    if total > 0 {
      assert (b as real - a as real) / total as real >= 0.0;
    }
  }

  lemma GatesFormPrefix(s: Setting<string>, minimumTokens: int, minimumShare: real, users: map<int, ResolvedUser>,
                        groups: string -> set<string>, wording: Wording, total: nat, ranking: seq<Tally<string>>)
    requires s == ByTokens(minimumTokens, minimumShare, users, groups, wording, total) && Descending(ranking)
    ensures forall i :: SignificantPrefix(s, ranking) <= i < |ranking| ==> !s.significant(ranking[i])
  {
    var p := SignificantPrefix(s, ranking);
    forall i | p <= i < |ranking|
      ensures !s.significant(ranking[i])
    {
      ShareGrows(ranking[i].count, ranking[p].count, total);
    }
  }

  lemma {:induction false} CountsAddUp(ranking: seq<Tally<string>>, p: nat, least: real)
    requires p <= |ranking| && forall i :: 0 <= i < p ==> ranking[i].count as real >= least
    ensures p as real * least <= Total(ranking[..p]) as real
  {
    if p > 0 {
      CountsAddUp(ranking, p - 1, least);
      assert ranking[..p][..p - 1] == ranking[..p - 1];
      assert p as real * least == (p - 1) as real * least + least;
    }
  }

  lemma ShareTimesTotal(count: nat, total: nat, minimumShare: real)
    requires total > 0 && Share(count, total) >= minimumShare
    ensures minimumShare * total as real <= count as real
  {
    var share, t := Share(count, total), total as real;
    assert share * t == count as real;
    assert (share - minimumShare) * t >= 0.0;
  }

  lemma {:induction false} TotalOfPrefix<T>(ranking: seq<Tally<T>>, p: nat)
    requires p <= |ranking|
    ensures Total(ranking[..p]) <= Total(ranking)
    decreases |ranking|
  {
    if p < |ranking| {
      var n := |ranking| - 1;
      assert ranking[..n][..p] == ranking[..p];
      TotalOfPrefix(ranking[..n], p);
    } else {
      assert ranking[..p] == ranking;
    }
  }

  lemma CountsFitWhole(ranking: seq<Tally<string>>, p: nat, least: real)
    requires p <= |ranking| && forall i :: 0 <= i < p ==> ranking[i].count as real >= least
    ensures p as real * least <= Total(ranking) as real
  {
    CountsAddUp(ranking, p, least);
    TotalOfPrefix(ranking, p);
  }

  lemma ProductIsPositive(a: real, b: real)
    requires a > 0.0 && b > 0.0
    ensures a * b > 0.0
  {}

  lemma AtMostOneWhole(p: real, share: real, t: real, least: real)
    requires t > 0.0 && least == share * t && p * least <= t
    ensures p * share <= 1.0
  {
    var x := p * share;
    assert x * t == p * least;
    if x > 1.0 { ProductIsPositive(x - 1.0, t); }
  }

  lemma AtMostReciprocal(p: nat, share: real)
    requires share > 0.0 && p as real * share <= 1.0
    ensures p <= (1.0 / share).Floor
  {
    var q := p as real;
    assert q <= 1.0 / share;
  }

  lemma PartsOfWhole(p: nat, share: real, total: nat, least: real)
    requires total > 0 && share > 0.0 && least == share * total as real && p as real * least <= total as real
    ensures p <= (1.0 / share).Floor
  {
    AtMostOneWhole(p as real, share, total as real, least);
    AtMostReciprocal(p, share);
  }

  /** At most floor(1 / minimum_share) editors hold that share of the whole each. */
  lemma FewHoldShare(ranking: seq<Tally<string>>, p: nat, least: real, minimumShare: real)
    requires p <= |ranking| && Total(ranking) > 0 && minimumShare > 0.0
             && least == minimumShare * Total(ranking) as real
    requires forall i :: 0 <= i < p ==> ranking[i].count as real >= least
    ensures p <= (1.0 / minimumShare).Floor
  {
    CountsFitWhole(ranking, p, least);
    PartsOfWhole(p, minimumShare, Total(ranking), least);
  }

  lemma SignificantHoldShare(s: Setting<string>, minimumTokens: int, minimumShare: real, users: map<int, ResolvedUser>,
                             groups: string -> set<string>, wording: Wording, total: nat, entry: Tally<string>)
    requires s == ByTokens(minimumTokens, minimumShare, users, groups, wording, total) && total > 0
             && s.significant(entry)
    ensures entry.count as real >= minimumShare * total as real
  {
    ShareTimesTotal(entry.count, total, minimumShare);
  }

  /** The token names when only the pool was resolved, and when everybody was. */
  function TokenNames(counts: seq<Tally<string>>, minimumTokens: int, minimumShare: real, users: map<int, ResolvedUser>,
                      groups: string -> set<string>, wording: Wording, limit: nat,
                          pool: Option<nat>): seq<Tally<string>>
  {
    var s := ByTokens(minimumTokens, minimumShare, users, groups, wording, Total(counts));
    var ranking := MostCommon(counts);
    GateFirst(if pool.Some? then Truncated(s, Pool(RegisteredId, ranking, pool.value)) else s, ranking, limit).named
  }

  lemma PrefixHoldsShare(s: Setting<string>, minimumTokens: int, minimumShare: real, users: map<int, ResolvedUser>,
                         groups: string -> set<string>, wording: Wording, total: nat, least: real,
                             ranking: seq<Tally<string>>)
    requires s == ByTokens(minimumTokens, minimumShare, users, groups, wording, total) && total > 0
    requires least == minimumShare * total as real
    ensures forall i :: 0 <= i < SignificantPrefix(s, ranking) ==> ranking[i].count as real >= least
  {
    forall i | 0 <= i < SignificantPrefix(s, ranking)
      ensures ranking[i].count as real >= least
    {
      SignificantHoldShare(s, minimumTokens, minimumShare, users, groups, wording, total, ranking[i]);
    }
  }

  lemma GatedPrefixHoldsShares(s: Setting<string>, minimumTokens: int, minimumShare: real, users: map<int,
                               ResolvedUser>,
                               groups: string -> set<string>, wording: Wording, least: real,
                                   ranking: seq<Tally<string>>)
    requires s == ByTokens(minimumTokens, minimumShare, users, groups, wording, Total(ranking)) && minimumShare > 0.0
    requires Total(ranking) > 0 && least == minimumShare * Total(ranking) as real
    ensures SignificantPrefix(s, ranking) <= (1.0 / minimumShare).Floor
  {
    var p := SignificantPrefix(s, ranking);
    PrefixHoldsShare(s, minimumTokens, minimumShare, users, groups, wording, Total(ranking), least, ranking);
    FewHoldShare(ranking, p, least, minimumShare);
  }

  lemma GatedPrefixIsShort(s: Setting<string>, minimumTokens: int, minimumShare: real, users: map<int, ResolvedUser>,
                           groups: string -> set<string>, wording: Wording, ranking: seq<Tally<string>>)
    requires s == ByTokens(minimumTokens, minimumShare, users, groups, wording, Total(ranking)) && minimumShare > 0.0
    ensures SignificantPrefix(s, ranking) <= (1.0 / minimumShare).Floor
  {
    if SignificantPrefix(s, ranking) == 0 {
      AtMostReciprocal(0, minimumShare);
    } else if Total(ranking) > 0 {
      var least := minimumShare * Total(ranking) as real;
      GatedPrefixHoldsShares(s, minimumTokens, minimumShare, users, groups, wording, least, ranking);
    }
  }

  /**
   * A pool of at least floor(1 / minimum_share) registered editors names the same accounts
   * as resolving everyone, whatever the counts and whoever is excluded.
   */
  lemma PoolOfShareBoundSuffices(counts: seq<Tally<string>>, minimumTokens: int, minimumShare: real, users: map<int,
                                 ResolvedUser>,
                                 groups: string -> set<string>, wording: Wording, limit: nat, pool: nat)
    requires minimumShare > 0.0 && (1.0 / minimumShare).Floor <= pool
    ensures TokenNames(counts, minimumTokens, minimumShare, users, groups, wording, limit, Some(pool))
         == TokenNames(counts, minimumTokens, minimumShare, users, groups, wording, limit, None)
  {
    var total, ranking := Total(counts), MostCommon(counts);
    var s := ByTokens(minimumTokens, minimumShare, users, groups, wording, total);
    MostCommonSorts(counts);
    GatesFormPrefix(s, minimumTokens, minimumShare, users, groups, wording, total, ranking);
    var p := SignificantPrefix(s, ranking);
    GatedPrefixIsShort(s, minimumTokens, minimumShare, users, groups, wording, ranking);
    RegisteredSplit(RegisteredId, ranking[..p], []);
    PoolCoveringEnough(s, ranking, p, pool, limit);
  }

  /** Editors 1 .. n, each with the same count. */
  function Uniform(n: nat, count: nat): seq<Tally<string>> {
    seq(n, i requires 0 <= i < n => Tally(Decimal.Encode(i + 1), count))
  }

  lemma {:induction false} UniformTotal(n: nat, count: nat)
    ensures Total(Uniform(n, count)) == n * count
  {
    if n > 0 {
      UniformTotal(n - 1, count);
      assert Uniform(n, count)[..n - 1] == Uniform(n - 1, count);
      Arithmetic.OneMoreTime(n - 1, count);
    }
  }

  lemma {:induction false} UniformRanking(n: nat, count: nat)
    ensures MostCommon(Uniform(n, count)) == Uniform(n, count)
  {
    if n > 0 {
      UniformRanking(n - 1, count);
      assert Uniform(n, count)[..n - 1] == Uniform(n - 1, count);
      assert Uniform(n, count) == Uniform(n - 1, count) + [Uniform(n, count)[n - 1]];
    }
  }

  lemma {:induction false} UniformIds(n: nat, count: nat)
    ensures |RegisteredIds(RegisteredId, Uniform(n, count))| == n
    ensures forall i :: 0 <= i < n ==> RegisteredIds(RegisteredId, Uniform(n, count))[i] == i + 1
  {
    if n > 0 {
      UniformIds(n - 1, count);
      assert Uniform(n, count)[..n - 1] == Uniform(n - 1, count);
      Decimal.ValueOfEncode(n);
    }
  }

  lemma ReciprocalShare(count: real, parts: real, minimumShare: real)
    requires count > 0.0 && parts > 0.0 && parts * minimumShare <= 1.0
    ensures parts * count > 0.0 && count / (parts * count) >= minimumShare
  {
    ProductIsPositive(parts, count);
    var share := count / (parts * count);
    assert share * parts == 1.0;
    if share < minimumShare { ProductIsPositive(minimumShare - share, parts); }
  }

  lemma EqualShare(n: nat, count: nat, minimumShare: real)
    requires n >= 1 && count >= 1 && minimumShare > 0.0 && n <= (1.0 / minimumShare).Floor
    ensures Share(count, n * count) >= minimumShare
  {
    var share, parts := 1.0 / minimumShare, n as real;
    assert parts <= share;
    assert share * minimumShare == 1.0;
    assert (share - parts) * minimumShare >= 0.0;
    assert parts * minimumShare <= 1.0;
    assert n * count >= 1;
    assert (n * count) as real == parts * count as real;
    ReciprocalShare(count as real, parts, minimumShare);
  }

  /** Editors that are all bots but the last one. */
  function BotsButLast(n: nat): map<int, ResolvedUser> {
    map id: int | 1 <= id <= n :: ResolvedUser(id, Decimal.Encode(id), if id == n then {} else {"bot"}, false)
  }

  function NoGroups(username: string): set<string> { {} }

  /** Names written as plain numbers look like neither a bot nor a temporary account. */
  ghost predicate PlainNumbersArePlainNames(wording: Wording) {
    wording.botGroup("bot") && forall id: nat ::
        !wording.botName(Decimal.Encode(id)) && !wording.temporaryName(Decimal.Encode(id))
  }

  lemma OnlyLastIsEligible(minimumTokens: int, minimumShare: real, wording: Wording, n: nat, count: nat, i: nat)
    requires n >= 1 && count >= 1 && count >= minimumTokens && minimumShare > 0.0 && n <= (1.0 / minimumShare).Floor
             && i < n
    requires PlainNumbersArePlainNames(wording)
    ensures var s := ByTokens(minimumTokens, minimumShare, BotsButLast(n), NoGroups, wording, n * count);
            && RegisteredId(Uniform(n, count)[i].who) == Some(i + 1)
            && (Eligible(s, Uniform(n, count)[i]) <==> i == n - 1)
  {
    Decimal.ValueOfEncode(i + 1);
    EqualShare(n, count, minimumShare);
    assert "bot" in {"bot"};
  }

  /**
   * No smaller pool will do: below floor(1 / minimum_share) there is a page whose only
   * nameable editor ranks just behind a pool full of bots, so the pool names nobody where
   * resolving everyone names that editor.
   */
  lemma SmallerPoolCanLoseTheOnlyName(minimumTokens: int, minimumShare: real, wording: Wording, limit: nat, pool: nat)
    returns (counts: seq<Tally<string>>, users: map<int, ResolvedUser>)
    requires minimumShare > 0.0 && pool < (1.0 / minimumShare).Floor && PlainNumbersArePlainNames(wording)
    ensures TokenNames(counts, minimumTokens, minimumShare, users, NoGroups, wording, limit, Some(pool)) == []
    ensures |TokenNames(counts, minimumTokens, minimumShare, users, NoGroups, wording, limit, None)| == 1
  {
    var n, count := pool + 1, Max(1, minimumTokens);
    counts, users := Uniform(n, count), BotsButLast(n);
    var s := ByTokens(minimumTokens, minimumShare, users, NoGroups, wording, n * count);
    UniformTotal(n, count);
    UniformRanking(n, count);
    UniformIds(n, count);
    var ids := Pool(RegisteredId, counts, pool);
    forall i | 0 <= i < n
      ensures Eligible(s, counts[i]) <==> i == n - 1
      ensures !Eligible(Truncated(s, ids), counts[i])
    {
      OnlyLastIsEligible(minimumTokens, minimumShare, wording, n, count, i);
      TruncatedEligible(s, ids, counts[i]);
    }
    NoneChosen(s, counts[..n - 1]);
    NoneChosen(Truncated(s, ids), counts);
    GateFirstNamesFirstEligible(s, counts, limit);
    GateFirstNamesFirstEligible(Truncated(s, ids), counts, limit);
  }
}
