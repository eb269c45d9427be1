/** One worker (worker.py): what it computes from what the upstreams say, and what it does to the tables. */
module Worker {
  import opened Options
  import opened Policy
  import opened WorkQueue
  import opened Attribution
  import opened Selection
  import opened Ladder
  import opened Draining
  import opened Repository

  datatype Settings = Settings(
    leaseSeconds: int,
    maxAttempts: int,
    poolSize: nat,
    minimumTokens: int,
    minimumShare: real,
    wording: Wording,
    alphanumeric: char -> bool,
    offNamespace: string,
    redirected: string,
    movedOn: (int, int) -> string)

  /** An upstream call either answers or raises. */
  datatype Reply<+T> = Got(value: T) | Raises(failure: Failure)

  datatype PageInfo = PageInfo(revision: int, title: string, namespace: int, isRedirect: bool)

  datatype EditorHistory = EditorHistory(counts: seq<Tally<int>>, revisions: nat, complete: bool)

  datatype EditorCount = EditorCount(count: int, limited: bool)

  /** Everything the upstreams would say while one job is processed. */
  datatype Upstream = Upstream(
    page: Reply<PageInfo>,
    tokens: Reply<seq<Token>>,
    resolve: seq<int> -> Reply<map<int, ResolvedUser>>,
    groups: string -> Reply<set<string>>,
    history: Reply<EditorHistory>,
    editorCount: Reply<EditorCount>,
    botCount: Reply<nat>)

  datatype Attributed = Named(contributors: seq<Contributor>, totalTokens: nat, metric: Metric)
      | Raised(failure: Failure)

  // ---- The ladder -----------------------------------------------------------------

  function Groups(groups: string -> Reply<set<string>>): string -> set<string> {
    username => if groups(username).Got? then groups(username).value else {}
  }

  /** The first of these lookups that raises. */
  function FirstFailure(asked: seq<string>, groups: string -> Reply<set<string>>): Option<Failure> {
    if asked == [] then None
    else if groups(asked[0]).Raises? then Some(groups(asked[0]).failure)
    else FirstFailure(asked[1..], groups)
  }

  /** The error reported is that of the first lookup that raises; none if all answer. */
  lemma {:induction false} FirstFailureIs(asked: seq<string>, groups: string -> Reply<set<string>>)
    ensures FirstFailure(asked, groups).None? <==> forall k :: 0 <= k < |asked| ==> groups(asked[k]).Got?
    ensures FirstFailure(asked, groups).Some? ==>
              exists k :: 0 <= k < |asked| && groups(asked[k]) == Raises(FirstFailure(asked, groups).value)
                          && forall j :: 0 <= j < k ==> groups(asked[j]).Got?
  {
    if asked != [] && groups(asked[0]).Got? {
      FirstFailureIs(asked[1..], groups);
      assert forall k :: 0 < k < |asked| ==> asked[k] == asked[1..][k - 1];
      if FirstFailure(asked, groups).Some? {
        var k :| 0 <= k < |asked[1..]| && groups(asked[1..][k]) == Raises(FirstFailure(asked, groups).value)
                 && forall j :: 0 <= j < k ==> groups(asked[1..][j]).Got?;
        assert asked[k + 1] == asked[1..][k];
        forall j | 0 <= j < k + 1
          ensures groups(asked[j]).Got?
        {
          if j > 0 { assert asked[j] == asked[1..][j - 1]; }
        }
      }
    }
  }

  function EditorIds(ranking: seq<Tally<int>>): seq<int> {
    seq(|ranking|, i requires 0 <= i < |ranking| => ranking[i].who)
  }

  /** Rung two, reached with this many countable tokens. */
  function ByEditCounts(settings: Settings, up: Upstream, totalTokens: nat): Attributed {
    if up.history.Raises? then Raised(up.history.failure)
    else if !up.history.value.complete then Named([], totalTokens, EditMetric)
    else
      var ranking := MostCommon(up.history.value.counts);
      var users := up.resolve(EditorIds(if |ranking| <= settings.poolSize then ranking
                                        else ranking[..settings.poolSize]));
      if users.Raises? then Raised(users.failure)
      else if up.history.value.revisions == 0 then Named([], totalTokens, EditMetric)
      else
        var s := ByEdits(users.value, Groups(up.groups), settings.wording, up.history.value.revisions);
        var scan := GateFirst(s, ranking, NAME_LIMIT);
        var failure := FirstFailure(scan.asked, up.groups);
        if failure.Some? then Raised(failure.value) else Named(Names(s, scan.named), totalTokens, EditMetric)
  }

  /** An error on the first rung: a permanent one leads to the second rung, any other escapes. */
  function Recover(settings: Settings, up: Upstream, totalTokens: nat, failure: Failure): Attributed {
    if failure.permanent then ByEditCounts(settings, up, totalTokens) else Raised(failure)
  }

  /** What the token ranking looks at. */
  function TokenSetting(settings: Settings, up: Upstream, counts: seq<Tally<string>>, users: map<int,
                        ResolvedUser>): Setting<string> {
    ByTokens(settings.minimumTokens, settings.minimumShare, users, Groups(up.groups), settings.wording, Total(counts))
  }

  /** Rung one once the candidates are resolved. */
  function FromTokens(settings: Settings, up: Upstream, counts: seq<Tally<string>>, users: map<int,
                      ResolvedUser>): Attributed
    requires Total(counts) > 0
  {
    var s := TokenSetting(settings, up, counts, users);
    var scan := GateFirst(s, MostCommon(counts), NAME_LIMIT);
    var failure := FirstFailure(scan.asked, up.groups);
    if failure.Some? then Recover(settings, up, Total(counts), failure.value)
    else if scan.named != [] then Named(Names(s, scan.named), Total(counts), TokenMetric)
    else ByEditCounts(settings, up, Total(counts))
  }

  /** The whole ladder: surviving tokens if they name anyone, else edit counts. */
  function ByLadder(settings: Settings, up: Upstream): Attributed {
    if up.tokens.Raises? then Recover(settings, up, 0, up.tokens.failure)
    else
      var counts := Counted(up.tokens.value, settings.alphanumeric);
      var total, ranking := Total(counts), MostCommon(counts);
      var users := up.resolve(Pool(RegisteredId, ranking, settings.poolSize));
      if users.Raises? then Recover(settings, up, total, users.failure)
      else if total == 0 then ByEditCounts(settings, up, 0)
      else
        FromTokens(settings, up, counts, users.value)
  }

  /** Names rest on evidence: token names pass both gates, and there are at most three. */
  predicate WellFounded(contributors: seq<Contributor>, metric: Metric, minimumTokens: int, minimumShare: real) {
    && |contributors| <= NAME_LIMIT
    && (metric.TokenMetric? ==>
          && contributors != []
          && forall i :: 0 <= i < |contributors| ==>
               contributors[i].count >= minimumTokens && contributors[i].share >= minimumShare)
  }

  lemma EditNamesAreWellFounded(settings: Settings, up: Upstream, totalTokens: nat)
    ensures var r := ByEditCounts(settings, up, totalTokens);
            r.Named? ==> r.metric.EditMetric? && |r.contributors| <= NAME_LIMIT
  {
    if up.history.Got? {
      var ranking := MostCommon(up.history.value.counts);
      forall s: Setting<int>
        ensures |GateFirst(s, ranking, NAME_LIMIT).named| <= NAME_LIMIT
      {
        GateFirstNamesFirstEligible(s, ranking, NAME_LIMIT);
      }
    }
  }

  lemma TokenNamesAreWellFounded(s: Setting<string>, settings: Settings, users: map<int, ResolvedUser>,
                                 groups: string -> set<string>,
                                 total: nat, ranking: seq<Tally<string>>)
    requires s == ByTokens(settings.minimumTokens, settings.minimumShare, users, groups, settings.wording, total)
             && total > 0
    ensures var names := Names(s, GateFirst(s, ranking, NAME_LIMIT).named);
            names != [] ==> WellFounded(names, TokenMetric, settings.minimumTokens, settings.minimumShare)
  {
    GateFirstNamesFirstEligible(s, ranking, NAME_LIMIT);
    var named := GateFirst(s, ranking, NAME_LIMIT).named;
    assert forall i :: 0 <= i < |named| ==> Eligible(s, named[i]);
  }

  lemma LadderIsWellFounded(settings: Settings, up: Upstream)
    ensures var r := ByLadder(settings, up);
            r.Named? ==> WellFounded(r.contributors, r.metric, settings.minimumTokens, settings.minimumShare)
  {
    EditNamesAreWellFounded(settings, up, 0);
    if up.tokens.Got? {
      var counts := Counted(up.tokens.value, settings.alphanumeric);
      var total, ranking := Total(counts), MostCommon(counts);
      EditNamesAreWellFounded(settings, up, total);
      var users := up.resolve(Pool(RegisteredId, ranking, settings.poolSize));
      if users.Got? && total > 0 {
        TokenNamesAreWellFounded(TokenSetting(settings, up, counts, users.value),
                                 settings, users.value, Groups(up.groups), total, ranking);
      }
    }
  }

  /** The token rung comes up empty exactly when no editor of the page is eligible. */
  lemma NobodyNamedIff(s: Setting<string>, counts: seq<Tally<string>>)
    ensures GateFirst(s, MostCommon(counts), NAME_LIMIT).named == [] <==> forall i :: 0 <= i < |counts| ==>
            !Eligible(s, counts[i])
  {
    var ranking := MostCommon(counts);
    MostCommonSorts(counts);
    GateFirstNamesFirstEligible(s, ranking, NAME_LIMIT);
    if forall i :: 0 <= i < |counts| ==> !Eligible(s, counts[i]) {
      forall i | 0 <= i < |ranking|
        ensures !Eligible(s, ranking[i])
      {
        assert ranking[i] in multiset(ranking);
        assert ranking[i] in counts;
      }
      NoneChosen(s, ranking);
    } else {
      var i :| 0 <= i < |counts| && Eligible(s, counts[i]);
      assert counts[i] in multiset(ranking);
      var q :| 0 <= q < |ranking| && ranking[q] == counts[i];
      ChosenAt(s, ranking, q);
    }
  }

  /** The accounts the token rung asks about globally. */
  function AskedByTokens(settings: Settings, up: Upstream, counts: seq<Tally<string>>, users: map<int,
                         ResolvedUser>): seq<string> {
    GateFirst(ByTokens(settings.minimumTokens, settings.minimumShare, users, Groups(up.groups), settings.wording,
                       Total(counts)),
              MostCommon(counts), NAME_LIMIT).asked
  }

  /** The token rung names somebody: it was answered throughout, and some editor is eligible. */
  predicate TokensName(settings: Settings, up: Upstream) {
    && up.tokens.Got?
    && var counts := Counted(up.tokens.value, settings.alphanumeric);
       var users := up.resolve(Pool(RegisteredId, MostCommon(counts), settings.poolSize));
       && users.Got? && Total(counts) > 0
       && FirstFailure(AskedByTokens(settings, up, counts, users.value), up.groups).None?
       && var s := TokenSetting(settings, up, counts, users.value);
          exists i :: 0 <= i < |counts| && Eligible(s, counts[i])
  }

  /**
   * Tokens decide the names exactly when they can: every lookup of the first rung is
   * answered and some editor is eligible. Edit counts take over in every other case in
   * which no error escapes, and name anyone only from a complete history.
   */
  lemma EditsOnlyWhenTokensNameNobody(settings: Settings, up: Upstream)
    ensures var r := ByLadder(settings, up);
            && (TokensName(settings, up) ==> r.Named? && r.metric.TokenMetric?)
            && (r.Named? ==> (r.metric.TokenMetric? <==> TokensName(settings, up)))
            && (r.Named? && r.metric.EditMetric? && r.contributors != [] ==>
                up.history.Got? && up.history.value.complete)
  {
    if up.tokens.Got? {
      var counts := Counted(up.tokens.value, settings.alphanumeric);
      var users := up.resolve(Pool(RegisteredId, MostCommon(counts), settings.poolSize));
      if users.Got? && Total(counts) > 0 {
        EditNamesAreWellFounded(settings, up, Total(counts));
        NobodyNamedIff(TokenSetting(settings, up, counts, users.value), counts);
      }
    }
  }

  // ---- One job -------------------------------------------------------------------------

  /** The answer for a page that is still at the leased revision. */
  function AnswerFor(settings: Settings, page: PageInfo, up: Upstream): Reply<Answer> {
    var named := ByLadder(settings, up);
    if named.Raised? then Raises(named.failure)
    else if up.editorCount.Raises? then Raises(up.editorCount.failure)
    else if up.botCount.Raises? then Raises(up.botCount.failure)
    else
      Got(Answer(page.title, named.metric, named.contributors,
                 Max(|named.contributors|, up.editorCount.value.count - up.botCount.value),
                 up.editorCount.value.limited, named.totalTokens))
  }

  /** How the job ends. */
  function ProcessOutcome(settings: Settings, lease: WorkLease, up: Upstream): Outcome {
    if up.page.Raises? then Break(up.page.failure)
    else
      var page := up.page.value;
      if page.namespace != 0 then Refuse(settings.offNamespace)
      else if page.isRedirect then Refuse(settings.redirected)
      else if page.revision != lease.key.revision
          then Requeue(page.revision, settings.movedOn(lease.key.revision, page.revision))
      else
        var answer := AnswerFor(settings, page, up);
        if answer.Raises? then Break(answer.failure) else Store(answer.value)
  }

  /**
   * The count stored with an answer comes from the wiki: editors less bots, or the number of
   * names if that is more; whether it was limited, and the title, are as MediaWiki says.
   */
  lemma StoredCountsComeFromTheWiki(settings: Settings, lease: WorkLease, up: Upstream)
    ensures var outcome := ProcessOutcome(settings, lease, up);
            outcome.Store? ==>
              && up.page.Got? && up.editorCount.Got? && up.botCount.Got?
              && var answer := outcome.answer;
                 && answer.title == up.page.value.title && answer.countLimited == up.editorCount.value.limited
                 && answer.distinct >= |answer.contributors|
                 && answer.distinct >= up.editorCount.value.count - up.botCount.value
                 && (answer.distinct == |answer.contributors|
                     || answer.distinct == up.editorCount.value.count - up.botCount.value)
                 && (up.tokens.Raises? ==> answer.countableTokens == 0 && answer.metric.EditMetric?)
                 && (up.tokens.Got? ==>
                       answer.countableTokens == Total(Counted(up.tokens.value, settings.alphanumeric)))
  {}

  /**
   * A transient error stores nothing: neither on the first rung, wherever it comes up, nor on
   * the second, nor in the counts. Only a permanent error of the first rung is survived.
   */
  lemma TransientErrorsStoreNothing(settings: Settings, lease: WorkLease, up: Upstream)
    ensures ProcessOutcome(settings, lease, up).Store? ==>
              && (up.tokens.Raises? ==> up.tokens.failure.permanent && up.history.Got?)
              && (up.tokens.Got? ==>
                    var counts := Counted(up.tokens.value, settings.alphanumeric);
                    var users := up.resolve(Pool(RegisteredId, MostCommon(counts), settings.poolSize));
                    && (users.Raises? ==> users.failure.permanent && up.history.Got?)
                    && (users.Got? && Total(counts) > 0 ==>
                          var failure := FirstFailure(AskedByTokens(settings, up, counts, users.value), up.groups);
                          failure.Some? ==> failure.value.permanent && up.history.Got?))
              && up.page.Got? && up.editorCount.Got? && up.botCount.Got?
  {}

  /** The second rung names accounts only by what the resolved ones among the most frequent editors say. */
  lemma EditNamesAreTheFirstEligible(settings: Settings, up: Upstream, totalTokens: nat, asked: seq<int>)
    requires ByEditCounts(settings, up, totalTokens).Named?
             && ByEditCounts(settings, up, totalTokens).contributors != []
    requires var ranking := MostCommon(up.history.value.counts);
             && |asked| == Min(|ranking|, settings.poolSize)
             && forall i :: 0 <= i < |asked| ==> asked[i] == ranking[i].who
    ensures up.history.Got? && up.history.value.complete && up.history.value.revisions > 0
    ensures var ranking, users := MostCommon(up.history.value.counts), up.resolve(asked);
            && users.Got?
            && var s := ByEdits(users.value, Groups(up.groups), settings.wording, up.history.value.revisions);
               ByEditCounts(settings, up, totalTokens)
               == Named(Names(s, Firsts(Chosen(s, ranking), 3)), totalTokens, EditMetric)
  {
    var ranking := MostCommon(up.history.value.counts);
    assert asked == EditorIds(if |ranking| <= settings.poolSize then ranking else ranking[..settings.poolSize]);
    var users := up.resolve(asked);
    GateFirstNamesFirstEligible(ByEdits(users.value, Groups(up.groups), settings.wording, up.history.value.revisions),
                                ranking, NAME_LIMIT);
  }

  lemma FromTokensNamesTheFirstEligible(settings: Settings, up: Upstream, counts: seq<Tally<string>>,
                                        users: map<int, ResolvedUser>)
    requires Total(counts) > 0
    requires FromTokens(settings, up, counts, users).Named?
             && FromTokens(settings, up, counts, users).metric.TokenMetric?
    ensures var s := TokenSetting(settings, up, counts, users);
            FromTokens(settings, up, counts, users)
            == Named(Names(s, Firsts(Chosen(s, MostCommon(counts)), 3)), Total(counts), TokenMetric)
  {
    EditNamesAreWellFounded(settings, up, Total(counts));
    var s := TokenSetting(settings, up, counts, users);
    var named := GateFirst(s, MostCommon(counts), NAME_LIMIT).named;
    assert FromTokens(settings, up, counts, users) == Named(Names(s, named), Total(counts), TokenMetric);
    GateFirstNamesFirstEligible(s, MostCommon(counts), NAME_LIMIT);
  }

  /** And the first rung likewise, among the registered editors it resolved. */
  lemma TokenNamesAreTheFirstEligible(settings: Settings, up: Upstream)
    requires ByLadder(settings, up).Named? && ByLadder(settings, up).metric.TokenMetric?
    ensures up.tokens.Got?
    ensures var counts := Counted(up.tokens.value, settings.alphanumeric);
            var users := up.resolve(Pool(RegisteredId, MostCommon(counts), settings.poolSize));
            && users.Got? && Total(counts) > 0
            && var s := TokenSetting(settings, up, counts, users.value);
               ByLadder(settings, up)
               == Named(Names(s, Firsts(Chosen(s, MostCommon(counts)), 3)), Total(counts), TokenMetric)
  {
    var counts := Counted(up.tokens.value, settings.alphanumeric);
    var users := up.resolve(Pool(RegisteredId, MostCommon(counts), settings.poolSize));
    FromTokensNamesTheFirstEligible(settings, up, counts, users.value);
  }

  /** Nobody is named who is missing, temporary or a bot, as the wiki says or as CentralAuth answered. */
  predicate MayBeNamed(name: string, up: Upstream, wording: Wording) {
    && !wording.temporaryName(name) && !wording.botName(name)
    && up.groups(name).Got? && forall group :: group in up.groups(name).value ==> !wording.botGroup(group)
  }

  lemma ScanNamesNoBots<T>(s: Setting<T>, ranking: seq<Tally<T>>, up: Upstream, wording: Wording)
    requires s.globalGroups == Groups(up.groups) && s.wording == wording && s.total > 0
    requires FirstFailure(GateFirst(s, ranking, NAME_LIMIT).asked, up.groups).None?
    ensures var names := Names(s, GateFirst(s, ranking, NAME_LIMIT).named);
            |names| <= 3 && forall i :: 0 <= i < |names| ==> MayBeNamed(names[i].username, up, wording)
  {
    var scan := GateFirst(s, ranking, NAME_LIMIT);
    GateFirstNamesFirstEligible(s, ranking, NAME_LIMIT);
    FirstFailureIs(scan.asked, up.groups);
    forall i | 0 <= i < |scan.named|
      ensures MayBeNamed(UserOf(s, scan.named[i]).username, up, wording)
    {
      var name := UserOf(s, scan.named[i]).username;
      NamedWereAskedAbout(s, ranking, NAME_LIMIT, i);
      assert Eligible(s, scan.named[i]) && name in scan.asked;
      NeverPutForward(UserOf(s, scan.named[i]), s.globalGroups, wording);
      var k :| 0 <= k < |scan.asked| && scan.asked[k] == name;
    }
  }

  lemma EditsNameNoBots(settings: Settings, up: Upstream, totalTokens: nat)
    requires ByEditCounts(settings, up, totalTokens).Named?
    ensures var names := ByEditCounts(settings, up, totalTokens).contributors;
            |names| <= 3 && forall i :: 0 <= i < |names| ==> MayBeNamed(names[i].username, up, settings.wording)
  {
    var ranking := MostCommon(up.history.value.counts);
    var users := up.resolve(EditorIds(if |ranking| <= settings.poolSize then ranking
                                      else ranking[..settings.poolSize]));
    if up.history.value.complete && up.history.value.revisions > 0 {
      ScanNamesNoBots(ByEdits(users.value, Groups(up.groups), settings.wording, up.history.value.revisions), ranking,
                      up,
                      settings.wording);
    }
  }

  lemma TokensNameNoBots(settings: Settings, up: Upstream, counts: seq<Tally<string>>, users: map<int, ResolvedUser>)
    requires Total(counts) > 0 && FromTokens(settings, up, counts, users).Named?
    ensures var names := FromTokens(settings, up, counts, users).contributors;
            |names| <= 3 && forall i :: 0 <= i < |names| ==> MayBeNamed(names[i].username, up, settings.wording)
  {
    var s := TokenSetting(settings, up, counts, users);
    var scan := GateFirst(s, MostCommon(counts), NAME_LIMIT);
    if FirstFailure(scan.asked, up.groups).None? && scan.named != [] {
      ScanNamesNoBots(s, MostCommon(counts), up, settings.wording);
    } else {
      EditsNameNoBots(settings, up, Total(counts));
    }
  }

  /**
   * Every stored answer names at most three accounts, and only ones whose name is neither a
   * bot's nor a temporary account's, and of which CentralAuth answered and reported no bot group.
   */
  lemma StoredAnswersNameNoBots(settings: Settings, lease: WorkLease, up: Upstream)
    requires ProcessOutcome(settings, lease, up).Store?
    ensures var names := ProcessOutcome(settings, lease, up).answer.contributors;
            && |names| <= 3
            && forall i :: 0 <= i < |names| ==>
                 && !settings.wording.temporaryName(names[i].username) && !settings.wording.botName(names[i].username)
                 && up.groups(names[i].username).Got?
                 && forall group :: group in up.groups(names[i].username).value ==> !settings.wording.botGroup(group)
  {
    if up.tokens.Raises? {
      EditsNameNoBots(settings, up, 0);
    } else {
      var counts := Counted(up.tokens.value, settings.alphanumeric);
      var users := up.resolve(Pool(RegisteredId, MostCommon(counts), settings.poolSize));
      if users.Raises? {
        EditsNameNoBots(settings, up, Total(counts));
      } else if Total(counts) == 0 {
        EditsNameNoBots(settings, up, 0);
      } else {
        TokensNameNoBots(settings, up, counts, users.value);
      }
    }
  }

  /** What every stored answer satisfies. */
  predicate AnswerOk(answer: Answer, minimumTokens: int, minimumShare: real) {
    && answer.distinct >= |answer.contributors|
    && WellFounded(answer.contributors, answer.metric, minimumTokens, minimumShare)
  }

  lemma StoredAnswersAreOk(settings: Settings, lease: WorkLease, up: Upstream)
    ensures var outcome := ProcessOutcome(settings, lease, up);
            outcome.Store? ==> AnswerOk(outcome.answer, settings.minimumTokens, settings.minimumShare)
  {
    LadderIsWellFounded(settings, up);
  }

  /** One turn of the worker's loop: what others do before it, and whether the signal comes in it. */
  datatype Round = Round(others: Meanwhile, upstream: WorkLease -> Upstream, claimAt: int, locked: set<nat>, pace: Pace,
                         signalled: bool)

  /** So many turns are taken: up to the one the signal comes in, or all there are. */
  ghost predicate StopsAtSignal(rounds: seq<Round>, taken: nat) {
    && taken <= |rounds|
    && (forall k :: 0 <= k < taken - 1 ==> !rounds[k].signalled)
    && (taken < |rounds| ==> taken > 0 && rounds[taken - 1].signalled)
  }

  /** What the upstreams say of pages agrees with their current revisions. */
  ghost predicate Reports(upstream: WorkLease -> Upstream, current: PageRef -> int) {
    forall lease :: upstream(lease).page.Got? ==> upstream(lease).page.value.revision == current(lease.key.page)
  }

  /** The pass of a worker that meets these upstreams. */
  predicate PassFollows(before: Db, pass: Pass, settings: Settings, upstream: WorkLease -> Upstream)
    requires pass.id in before.work
  {
    var lease := LeaseOf(pass.id, ClaimRow(before.work[pass.id], pass.claimAt, pass.worker, pass.leaseSeconds));
    pass.outcome == ProcessOutcome(settings, lease, upstream(lease))
  }

  /** The tables after each turn: as others left them, and one pass further if a row was claimed. */
  ghost predicate IsTrail(trail: seq<Db>, rounds: seq<Round>, passes: seq<Option<Pass>>, settings: Settings) {
    && |trail| == |passes| + 1 && |passes| <= |rounds|
    && forall k :: 0 <= k < |passes| ==> IsTurn(trail[k], trail[k + 1], rounds[k], passes[k], settings)
  }

  ghost predicate IsTurn(before: Db, after: Db, round: Round, pass: Option<Pass>, settings: Settings) {
    var found := round.others(before);
    if pass.None? then
      after == found && forall id :: id in found.work ==> !Open(found.work, round.claimAt, round.locked, id)
    else
      && IsClaimChoice(found.work, round.claimAt, round.locked, pass.value.id)
      && pass.value.claimAt == round.claimAt && pass.value.finishAt == round.pace(0).now
      && PassFollows(found, pass.value, settings, round.upstream)
      && after == RunPassAmid(found, pass.value, settings.maxAttempts, round.pace)
  }

  lemma OneMoreTurn(trail: seq<Db>, rounds: seq<Round>, passes: seq<Option<Pass>>, pass: Option<Pass>, after: Db,
                    settings: Settings)
    requires IsTrail(trail, rounds, passes, settings) && |passes| < |rounds|
    requires IsTurn(trail[|passes|], after, rounds[|passes|], pass, settings)
    ensures IsTrail(trail + [after], rounds, passes + [pass], settings)
  {
    var more, longer := trail + [after], passes + [pass];
    forall k | 0 <= k < |longer|
      ensures IsTurn(more[k], more[k + 1], rounds[k], longer[k], settings)
    {
      if k < |passes| {
        assert IsTurn(trail[k], trail[k + 1], rounds[k], passes[k], settings);
      }
    }
  }

  // ---- What a job may do to the tables ------------------------------------------------------

  /**
   * A job stores an answer only for an article that is at the leased revision: whenever it
   * adds or changes a result, MediaWiki reported namespace 0, no redirect and exactly that
   * revision, and the result is the row of the leased key.
   */
  lemma JobStoresOnlyTheCurrentRevision(settings: Settings, lease: WorkLease, up: Upstream, db: Db, now: int)
    requires TablesOk(db)
    ensures var after := FinishAmid(db, lease, ProcessOutcome(settings, lease, up), settings.maxAttempts, Quietly(now));
            after.results != db.results ==>
              && up.page.Got? && up.page.value.namespace == 0 && !up.page.value.isRedirect
              && up.page.value.revision == lease.key.revision
              && (forall id :: id in after.results && (id !in db.results || after.results[id] != db.results[id]) ==>
                    after.results[id].key == lease.key && after.results[id].computedAt == now)
              && lease.id !in after.work
  {}

  /** An article that left the main namespace, or became a redirect, is superseded and nothing else happens. */
  lemma JobRefusesOtherPages(settings: Settings, lease: WorkLease, up: Upstream, db: Db, now: int)
    requires up.page.Got? && (up.page.value.namespace != 0 || up.page.value.isRedirect)
    ensures var after := FinishAmid(db, lease, ProcessOutcome(settings, lease, up), settings.maxAttempts, Quietly(now));
            && after.results == db.results && after.work.Keys == db.work.Keys
            && (lease.id in db.work ==> after.work[lease.id].state.Superseded?)
            && forall id :: id in db.work && id != lease.id ==> after.work[id] == db.work[id]
  {}

  lemma RequeueAsks(db: Db, superseded: Db, id: nat, key: Key, now: int, priority: int)
    requires TablesOk(superseded) && id in superseded.work && superseded.work[id].state.Superseded?
    requires superseded.work.Keys == db.work.Keys && superseded.results == db.results
    requires forall other :: other in db.work && other != id ==> superseded.work[other] == db.work[other]
    requires id in db.work && superseded.work[id].key == db.work[id].key
    ensures var after := Enqueue(superseded, now, key, priority, false);
            && after.results == db.results && id in after.work && after.work[id].state.Superseded?
            && (HasWork(db.work, key) || HasResult(db.results, key) || Backed(after.work, key))
            && (!HasWork(db.work, key) && !HasResult(db.results, key) && !NewerActive(db.work, key) ==>
                  exists new' :: new' in after.work && new' !in db.work && after.work[new'].key == key
                                 && after.work[new'].state.Pending? && after.work[new'].priority == priority)
  {
    EnqueueLeavesSuperseded(superseded, now, key, priority, id);
    EnqueueBacks(superseded, now, key, priority, false);
    assert HasWork(superseded.work, key) <==> HasWork(db.work, key) by {
      assert forall other :: other in db.work ==> superseded.work[other].key == db.work[other].key;
    }
    if !HasWork(db.work, key) && !HasResult(db.results, key) && !NewerActive(db.work, key) {
      assert !NewerActive(superseded.work, key);
      assert Enqueue(superseded, now, key, priority, false).work[superseded.nextWork] == FreshRow(key, priority, now);
    }
  }

  /**
   * On an article that has moved on, the leased row ends superseded, nothing is stored, and
   * the queue is asked for the current revision: it holds active work at that revision or a
   * later one unless a row or an answer of exactly that revision was there.
   */
  lemma JobRequeuesMovedPages(settings: Settings, lease: WorkLease, up: Upstream, db: Db, now: int)
    requires TablesOk(db) && lease.id in db.work && db.work[lease.id].key == lease.key
    requires up.page.Got? && up.page.value.namespace == 0 && !up.page.value.isRedirect
    requires up.page.value.revision != lease.key.revision
    ensures var after := FinishAmid(db, lease, ProcessOutcome(settings, lease, up), settings.maxAttempts, Quietly(now));
            var key := Key(lease.key.page, up.page.value.revision);
            && after.results == db.results
            && lease.id in after.work && after.work[lease.id].state.Superseded?
            && (HasWork(db.work, key) || HasResult(db.results, key) || Backed(after.work, key))
            && (!HasWork(db.work, key) && !HasResult(db.results, key) && !NewerActive(db.work, key) ==>
                  exists id :: id in after.work && id !in db.work && after.work[id].key == key
                               && after.work[id].state.Pending? && after.work[id].priority == lease.priority)
  {
    var reason := settings.movedOn(lease.key.revision, up.page.value.revision);
    var superseded := SupersedeTx(db, now, lease.id, reason);
    assert TablesOk(superseded);
    assert ProcessOutcome(settings, lease, up) == Requeue(up.page.value.revision, reason);
    RequeueAsks(db, superseded, lease.id, Key(lease.key.page, up.page.value.revision), now, lease.priority);
  }

  /** Every pass over upstreams that report the current revisions is one the draining argument covers. */
  lemma PassIsPossible(db: Db, pass: Pass, settings: Settings, upstream: WorkLease -> Upstream, current: PageRef -> int)
    requires pass.id in db.work && Claimable(db.work[pass.id], pass.claimAt) && pass.claimAt <= pass.finishAt
    requires PassFollows(db, pass, settings, upstream) && Reports(upstream, current)
    ensures Possible(db, pass, current)
  {
    var lease := LeaseOf(pass.id, ClaimRow(db.work[pass.id], pass.claimAt, pass.worker, pass.leaseSeconds));
    assert upstream(lease).page.Got? ==> upstream(lease).page.value.revision == current(lease.key.page);
  }

  /** Turns with nobody else there, over upstreams that report the current revisions. */
  ghost predicate Quiet(rounds: seq<Round>, current: PageRef -> int) {
    forall k :: 0 <= k < |rounds| ==>
      && rounds[k].others == Alone && rounds[k].pace == Quietly(rounds[k].pace(0).now)
      && rounds[k].claimAt <= rounds[k].pace(0).now && Reports(rounds[k].upstream, current)
  }

  /** Turns that found work. */
  function Found(passes: seq<Option<Pass>>): nat {
    if passes == [] then 0 else Found(passes[..|passes| - 1]) + if passes[|passes| - 1].Some? then 1 else 0
  }

  lemma TurnLowersCost(before: Db, after: Db, round: Round, pass: Option<Pass>, settings: Settings,
                       current: PageRef -> int)
    requires TablesOk(before) && IsTurn(before, after, round, pass, settings) && Quiet([round], current)
    ensures TablesOk(after)
    ensures Cost(after, current, settings.maxAttempts) + (if pass.Some? then 1 else 0)
            <= Cost(before, current, settings.maxAttempts)
  {
    assert [round][0] == round;
    assert round.others(before) == Alone(before) == before;
    if pass.Some? {
      PassIsPossible(before, pass.value, settings, round.upstream, current);
      NobodyElseThere(before, pass.value, settings.maxAttempts);
      PassKeepsTables(before, pass.value, current, settings.maxAttempts);
      PassLowersMeasure(before, pass.value, current, settings.maxAttempts);
    }
  }

  /**
   * The worker's loop, left alone with a queue while revisions stand still, finds work in no
   * more turns than the cost of the first queue.
   */
  lemma {:induction false} LoopDrains(trail: seq<Db>, rounds: seq<Round>, passes: seq<Option<Pass>>, settings: Settings,
                                      current: PageRef -> int)
    requires IsTrail(trail, rounds, passes, settings) && Quiet(rounds, current) && TablesOk(trail[0])
    ensures TablesOk(trail[|passes|])
    ensures Found(passes) + Cost(trail[|passes|], current, settings.maxAttempts)
            <= Cost(trail[0], current, settings.maxAttempts)
  {
    if passes != [] {
      var n := |passes| - 1;
      forall k | 0 <= k < n
        ensures IsTurn(trail[..n + 1][k], trail[..n + 1][k + 1], rounds[k], passes[..n][k], settings)
      {
        assert IsTurn(trail[k], trail[k + 1], rounds[k], passes[k], settings);
      }
      LoopDrains(trail[..n + 1], rounds, passes[..n], settings, current);
      assert Quiet([rounds[n]], current);
      TurnLowersCost(trail[n], trail[n + 1], rounds[n], passes[n], settings, current);
    }
  }

  class Worker {
    const repository: Repository
    const settings: Settings
    const workerId: string
    var stopping: bool

    constructor (repository: Repository, settings: Settings, workerId: string)
      ensures this.repository == repository && this.settings == settings && this.workerId == workerId && !stopping
    {
      this.repository, this.settings, this.workerId, stopping := repository, settings, workerId, false;
    }

    method Stop()
      modifies this`stopping
      ensures stopping
    {
      stopping := true;
    }

    /** The first rung: the names, and the tokens counted before anything raised. */
    method AttributeByTokens(tokens: seq<Token>, up: Upstream)
      returns (contributors: Reply<seq<Contributor>>, totalTokens: nat)
      requires up.tokens == Got(tokens)
      ensures contributors.Got? && contributors.value != [] ==>
              ByLadder(settings, up) == Named(contributors.value, totalTokens, TokenMetric)
      ensures contributors.Got? && contributors.value == [] ==>
              ByLadder(settings, up) == ByEditCounts(settings, up, totalTokens)
      ensures contributors.Raises? ==>
              ByLadder(settings, up) == Recover(settings, up, totalTokens, contributors.failure)
    {
      var counts, total := CountTokens(tokens, settings.alphanumeric);
      totalTokens := total;
      var users := up.resolve(Pool(RegisteredId, MostCommon(counts), settings.poolSize));
      if users.Raises? {
        return Raises(users.failure), totalTokens;
      }
      var names, asked := SelectContributors(counts, total, users.value, settings.minimumTokens, settings.minimumShare,
                                             Groups(up.groups), settings.wording, NAME_LIMIT);
      var failure := FirstFailure(asked, up.groups);
      contributors := if failure.Some? then Raises(failure.value) else Got(names);
    }

    /** The first rung that yields a name, or none. */
    method Attribute(up: Upstream) returns (r: Attributed)
      ensures r == ByLadder(settings, up)
    {
      var contributors: seq<Contributor>, totalTokens := [], 0;
      if up.tokens.Raises? {
        if !up.tokens.failure.permanent {
          return Raised(up.tokens.failure);
        }
      } else {
        var named;
        named, totalTokens := AttributeByTokens(up.tokens.value, up);
        if named.Raises? {
          if !named.failure.permanent {
            return Raised(named.failure);
          }
        } else {
          contributors := named.value;
        }
      }
      if contributors != [] {
        return Named(contributors, totalTokens, TokenMetric);
      }
      r := AttributeByEdits(up, totalTokens);
    }

    method AttributeByEdits(up: Upstream, totalTokens: nat) returns (r: Attributed)
      ensures r == ByEditCounts(settings, up, totalTokens)
    {
      if up.history.Raises? {
        return Raised(up.history.failure);
      }
      var history := up.history.value;
      if !history.complete {
        return Named([], totalTokens, EditMetric);
      }
      var ranking := MostCommon(history.counts);
      var candidates := if |ranking| <= settings.poolSize then ranking else ranking[..settings.poolSize];
      var users := up.resolve(EditorIds(candidates));
      if users.Raises? {
        return Raised(users.failure);
      }
      var editors, asked := SelectTopEditors(history.counts, history.revisions, users.value, Groups(up.groups),
                                             settings.wording, NAME_LIMIT);
      var failure := FirstFailure(asked, up.groups);
      r := if failure.Some? then Raised(failure.value) else Named(editors, totalTokens, EditMetric);
    }

    /** The names and the counts, or the first error on the way. */
    method Measure(page: PageInfo, up: Upstream) returns (answer: Reply<Answer>)
      ensures answer == AnswerFor(settings, page, up)
    {
      var named := Attribute(up);
      if named.Raised? {
        return Raises(named.failure);
      }
      if up.editorCount.Raises? {
        return Raises(up.editorCount.failure);
      }
      if up.botCount.Raises? {
        return Raises(up.botCount.failure);
      }
      var distinct := Max(|named.contributors|, up.editorCount.value.count - up.botCount.value);
      answer := Got(Answer(page.title, named.metric, named.contributors, distinct,
                           up.editorCount.value.limited, named.totalTokens));
    }

    method RefuseRow(lease: WorkLease, reason: string, pace: Pace)
      requires repository.Valid() && SoundPace(pace)
      modifies repository`work, repository`nextWork, repository`results, repository`nextResult
      ensures repository.Valid()
      ensures repository.Tables()
              == FinishAmid(old(repository.Tables()), lease, Refuse(reason), settings.maxAttempts, pace)
    {
      repository.Yield(pace(0).others);
      repository.Supersede(pace(0).now, lease.id, reason);
    }

    method RequeueRow(lease: WorkLease, revision: int, reason: string, pace: Pace)
      requires repository.Valid() && SoundPace(pace)
      modifies repository`work, repository`nextWork, repository`results, repository`nextResult
      ensures repository.Valid()
      ensures repository.Tables()
           == FinishAmid(old(repository.Tables()), lease, Requeue(revision, reason), settings.maxAttempts, pace)
    {
      repository.Yield(pace(0).others);
      repository.Supersede(pace(0).now, lease.id, reason);
      repository.Yield(pace(1).others);
      repository.Enqueue(pace(1).now, Key(lease.key.page, revision), lease.priority, false, pace(2).others);
    }

    method StoreAnswer(lease: WorkLease, answer: Answer, pace: Pace)
      requires repository.Valid() && SoundPace(pace)
      modifies repository`work, repository`nextWork, repository`results, repository`nextResult
      ensures repository.Valid()
      ensures repository.Tables()
              == FinishAmid(old(repository.Tables()), lease, Store(answer), settings.maxAttempts, pace)
    {
      repository.Yield(pace(0).others);
      repository.SaveResult(ResultRow(lease.key, answer, pace(0).now));
      repository.Yield(pace(1).others);
      repository.Complete(lease.id);
    }

    /**
     * Process a claimed row, with other sessions before each transaction; an error that
     * escapes is returned and leaves the tables alone.
     */
    method Process(lease: WorkLease, up: Upstream, pace: Pace) returns (escaped: Option<Failure>)
      requires repository.Valid() && SoundPace(pace)
      modifies repository`work, repository`nextWork, repository`results, repository`nextResult
      ensures repository.Valid()
      ensures var outcome := ProcessOutcome(settings, lease, up);
              if outcome.Break? then escaped == Some(outcome.failure) && repository.Tables() == old(repository.Tables())
              else
                && escaped == None
                && repository.Tables() == FinishAmid(old(repository.Tables()), lease, outcome, settings.maxAttempts,
                                                     pace)
      ensures up.page.Raises? ==> escaped == Some(up.page.failure)
      ensures up.page.Got? && (up.page.value.namespace != 0 || up.page.value.isRedirect) ==>
                && escaped.None?
                && var reason := if up.page.value.namespace != 0 then settings.offNamespace else settings.redirected;
                   repository.Tables()
                   == SupersedeTx(pace(0).others(old(repository.Tables())), pace(0).now, lease.id, reason)
      ensures up.page.Got? && up.page.value.namespace == 0 && !up.page.value.isRedirect
              && up.page.value.revision != lease.key.revision ==>
                && escaped.None?
                && var reason := settings.movedOn(lease.key.revision, up.page.value.revision);
                   var left := SupersedeTx(pace(0).others(old(repository.Tables())), pace(0).now, lease.id, reason);
                   repository.Tables()
                   == EnqueueAmid(pace(1).others(left), pace(1).now, Key(lease.key.page, up.page.value.revision),
                                  lease.priority, false, pace(2).others)
      ensures up.page.Got? && up.page.value.namespace == 0 && !up.page.value.isRedirect
              && up.page.value.revision == lease.key.revision && escaped.None? ==>
                exists answer ::
                  var row := ResultRow(lease.key, answer, pace(0).now);
                  repository.Tables()
                  == CompleteTx(pace(1).others(SaveResultTx(pace(0).others(old(repository.Tables())), row)), lease.id)
    {
      if up.page.Raises? {
        return Some(up.page.failure);
      }
      var page := up.page.value;
      if page.namespace != 0 {
        RefuseRow(lease, settings.offNamespace, pace);
        return None;
      }
      if page.isRedirect {
        RefuseRow(lease, settings.redirected, pace);
        return None;
      }
      if page.revision != lease.key.revision {
        RequeueRow(lease, page.revision, settings.movedOn(lease.key.revision, page.revision), pace);
        return None;
      }
      var answer := Measure(page, up);
      if answer.Raises? {
        return Some(answer.failure);
      }
      StoreAnswer(lease, answer.value, pace);
      return None;
    }

    /** Claim at most one row and process it to an end. */
    method RunOnce(upstream: WorkLease -> Upstream, claimAt: int, locked: set<nat>, pace: Pace)
      returns (pass: Option<Pass>)
      requires repository.Valid() && SoundPace(pace)
      modifies repository`work, repository`nextWork, repository`results, repository`nextResult
      ensures repository.Valid()
      ensures pass.None? <==> forall id :: id in old(repository.work) ==>
              !Open(old(repository.work), claimAt, locked, id)
      ensures pass.None? ==> repository.Tables() == old(repository.Tables())
      ensures pass.Some? ==>
                && IsClaimChoice(old(repository.work), claimAt, locked, pass.value.id)
                && repository.Tables() == RunPassAmid(old(repository.Tables()), pass.value, settings.maxAttempts, pace)
                && pass.value.worker == workerId && pass.value.leaseSeconds == settings.leaseSeconds
                && pass.value.claimAt == claimAt && pass.value.finishAt == pace(0).now
                && var claimed := ClaimRow(old(repository.work)[pass.value.id], claimAt, workerId,
                                           settings.leaseSeconds);
                   var lease := LeaseOf(pass.value.id, claimed);
                   pass.value.outcome == ProcessOutcome(settings, lease, upstream(lease))
      ensures pass.Some? ==> forall current :: Reports(upstream, current) && claimAt <= pace(0).now ==>
                               Possible(old(repository.Tables()), pass.value, current)
    {
      var lease := repository.Claim(claimAt, workerId, settings.leaseSeconds, locked);
      if lease.None? {
        return None;
      }
      var up := upstream(lease.value);
      var escaped := Process(lease.value, up, pace);
      if escaped.Some? {
        repository.Yield(pace(0).others);
        repository.Fail(pace(0).now, lease.value, escaped.value, settings.maxAttempts);
      }
      var outcome := ProcessOutcome(settings, lease.value, up);
      pass := Some(Pass(lease.value.id, workerId, settings.leaseSeconds, claimAt, pace(0).now, outcome));
      forall current | Reports(upstream, current) && claimAt <= pace(0).now
        ensures Possible(old(repository.Tables()), pass.value, current)
      {
        PassIsPossible(old(repository.Tables()), pass.value, settings, upstream, current);
      }
    }

    /** One turn of the loop, the signal aside. */
    method TakeTurn(round: Round) returns (pass: Option<Pass>)
      requires repository.Valid() && Sound(round.others) && SoundPace(round.pace)
      modifies repository`work, repository`nextWork, repository`results, repository`nextResult
      ensures repository.Valid()
              && IsTurn(old(repository.Tables()), repository.Tables(), round, pass, settings)
    {
      repository.Yield(round.others);
      pass := RunOnce(round.upstream, round.claimAt, round.locked, round.pace);
    }

    /**
     * Pass after pass until told to stop. `rounds` is what each turn of the loop meets: the
     * signal may come at any moment of a turn, and the job in hand is finished first; no row
     * is claimed after it. Idle turns sleep, which changes nothing.
     */
    method RunForever(rounds: seq<Round>) returns (passes: seq<Option<Pass>>, ghost trail: seq<Db>)
      requires repository.Valid()
      requires forall i :: 0 <= i < |rounds| ==> Sound(rounds[i].others) && SoundPace(rounds[i].pace)
      modifies this`stopping, repository`work, repository`nextWork, repository`results, repository`nextResult
      ensures repository.Valid()
      ensures old(stopping) ==> passes == []
      ensures !old(stopping) ==> StopsAtSignal(rounds, |passes|)
      ensures stopping <==> old(stopping) || exists k :: 0 <= k < |passes| && k < |rounds| && rounds[k].signalled
      ensures IsTrail(trail, rounds, passes, settings) && trail[0] == old(repository.Tables())
              && trail[|passes|] == repository.Tables()
    {
      passes, trail := [], [repository.Tables()];
      while |passes| < |rounds| && !stopping
        invariant repository.Valid() && |passes| <= |rounds|
        invariant old(stopping) ==> stopping && passes == []
        invariant !old(stopping) ==> forall k :: 0 <= k < |passes| - 1 ==> !rounds[k].signalled
        invariant !old(stopping) ==> (stopping <==> passes != [] && rounds[|passes| - 1].signalled)
        invariant IsTrail(trail, rounds, passes, settings)
        invariant trail[0] == old(repository.Tables()) && trail[|passes|] == repository.Tables()
        decreases |rounds| - |passes|
      {
        var round := rounds[|passes|];
        var pass := TakeTurn(round);
        OneMoreTurn(trail, rounds, passes, pass, repository.Tables(), settings);
        passes, trail := passes + [pass], trail + [repository.Tables()];
        if round.signalled {
          Stop();
        }
      }
    }
  }
}
