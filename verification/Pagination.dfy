/** The two paginated walks of the Action API client (clients.py), over whatever batches arrive. */
module Pagination {
  import opened Attribution

  function Joined<X>(batches: seq<seq<X>>): seq<X> {
    if batches == [] then [] else Joined(batches[..|batches| - 1]) + batches[|batches| - 1]
  }

  lemma {:induction false} JoinedGrows<X>(batches: seq<seq<X>>, k: nat)
    requires k <= |batches|
    ensures Joined(batches[..k]) <= Joined(batches)
    decreases |batches|
  {
    if k == |batches| {
      assert batches[..k] == batches;
    } else {
      assert batches[..|batches| - 1][..k] == batches[..k];
      JoinedGrows(batches[..|batches| - 1], k);
    }
  }

  /** All batches but the last, which is the one without a continuation. */
  function Continued<X>(batches: seq<seq<X>>): seq<seq<X>>
    requires batches != []
  {
    batches[..|batches| - 1]
  }

  // ---- Category members ---------------------------------------------------------------

  /** The members read before the cap is reached, and the flag that tells whether more may follow. */
  method CategoryMembers<X>(batches: seq<seq<X>>, limit: nat) returns (members: seq<X>, truncated: bool)
    requires batches != []
    ensures members == if |Joined(batches)| <= limit then Joined(batches) else Joined(batches)[..limit]
    ensures truncated <==> |Joined(batches)| > limit || |Joined(Continued(batches))| >= limit
  {
    members := [];
    var i := 0;
    while |members| < limit
      invariant 0 <= i < |batches|
      invariant members == Joined(batches[..i])
      invariant i > 0 ==> |Joined(batches[..i - 1])| < limit
      decreases |batches| - i
    {
      assert batches[..i + 1][..i] == batches[..i];
      members := members + batches[i];
      if i + 1 == |batches| {
        assert batches[..i + 1] == batches;
        return if |members| <= limit then members else members[..limit], |members| > limit;
      }
      i := i + 1;
    }
    JoinedGrows(batches, i);
    assert batches[..|batches| - 1][..i] == batches[..i];
    JoinedGrows(batches[..|batches| - 1], i);
    return members[..limit], true;
  }

  /**
   * The flag says whether the list was cut short, except in one case: the list fits the cap
   * exactly and is followed by empty batches only, where it is reported as cut although
   * nothing is missing.
   */
  lemma FlagIsRightIff<X>(batches: seq<seq<X>>, limit: nat)
    requires batches != []
    ensures ((|Joined(batches)| > limit || |Joined(Continued(batches))| >= limit) <==> |Joined(batches)| > limit)
            <==> !(|Joined(batches)| == limit && batches[|batches| - 1] == [])
  {}

  /** So for nonempty batches the answer does not depend on how the list was cut up. */
  lemma NonemptyBatchesDoNotMatter<X>(batches: seq<seq<X>>, limit: nat)
    requires batches != [] && limit >= 1 && forall i :: 0 <= i < |batches| ==> batches[i] != []
    ensures (|Joined(batches)| > limit || |Joined(Continued(batches))| >= limit) <==> |Joined(batches)| > limit
  {
    FlagIsRightIff(batches, limit);
  }

  // ---- Editor history ------------------------------------------------------------------

  /** How many of these revisions an account made; an id of zero is nobody. */
  function MadeBy(userIds: seq<int>, userId: int): nat {
    if userIds == [] then 0
    else MadeBy(userIds[..|userIds| - 1], userId) + if userIds[|userIds| - 1] == userId then 1 else 0
  }

  lemma {:induction false} MadeByAdds(a: seq<int>, b: seq<int>, userId: int)
    ensures MadeBy(a + b, userId) == MadeBy(a, userId) + MadeBy(b, userId)
  {
    if b == [] {
      assert a + b == a;
    } else {
      assert (a + b)[..|a + b| - 1] == a + b[..|b| - 1];
      MadeByAdds(a, b[..|b| - 1], userId);
    }
  }

  /** A reply either has no page, or lists the user ids of some revisions. */
  datatype HistoryReply = NoPage | Revisions(userIds: seq<int>)

  ghost predicate AllPages(replies: seq<HistoryReply>) {
    forall i :: 0 <= i < |replies| ==> replies[i].Revisions?
  }

  function UserIds(replies: seq<HistoryReply>): seq<int> {
    if replies == [] then []
    else
      var last := replies[|replies| - 1];
      UserIds(replies[..|replies| - 1]) + if last.Revisions? then last.userIds else []
  }

  /** Counts of every account that made a revision, nobody's left out. */
  ghost predicate TalliesExactly(counts: seq<Tally<int>>, userIds: seq<int>) {
    IsCounter(counts) && forall userId :: CountOf(counts, userId) == if userId > 0 then MadeBy(userIds, userId) else 0
  }

  method TallyBatch(counts: seq<Tally<int>>, userIds: seq<int>, ghost before: seq<int>) returns (after: seq<Tally<int>>)
    requires TalliesExactly(counts, before)
    ensures TalliesExactly(after, before + userIds)
  {
    after := counts;
    assert before + userIds[..0] == before;
    for k := 0 to |userIds|
      invariant TalliesExactly(after, before + userIds[..k])
    {
      assert (before + userIds[..k + 1])[..|before| + k] == before + userIds[..k];
      if userIds[k] > 0 {
        forall userId
          ensures CountOf(Increment(after, userIds[k]), userId) == CountOf(after, userId) + if userId == userIds[k]
                  then 1 else 0
        {
          IncrementAdds(after, userIds[k], userId);
        }
        IncrementKeepsCounter(after, userIds[k]);
        after := Increment(after, userIds[k]);
      }
    }
    assert userIds[..|userIds|] == userIds;
  }

  lemma {:induction false} UserIdsGrow(replies: seq<HistoryReply>, k: nat)
    requires k <= |replies|
    ensures |UserIds(replies[..k])| <= |UserIds(replies)|
    decreases |replies|
  {
    if k == |replies| {
      assert replies[..k] == replies;
    } else {
      assert replies[..|replies| - 1][..k] == replies[..k];
      UserIdsGrow(replies[..|replies| - 1], k);
    }
  }

  lemma BudgetUsedUp(replies: seq<HistoryReply>, i: nat)
    requires i < |replies|
    ensures |UserIds(replies[..i])| <= |UserIds(replies[..|replies| - 1])|
  {
    assert replies[..|replies| - 1][..i] == replies[..i];
    UserIdsGrow(replies[..|replies| - 1], i);
  }

  lemma OneMoreReply(replies: seq<HistoryReply>, i: nat)
    requires i < |replies| && replies[i].Revisions? && AllPages(replies[..i])
    ensures UserIds(replies[..i + 1]) == UserIds(replies[..i]) + replies[i].userIds && AllPages(replies[..i + 1])
  {
    assert replies[..i + 1][..i] == replies[..i];
  }

  /**
   * Edits per account over the page history. The history is reported complete exactly when
   * every reply has the page and the budget was not used up before the last reply; then
   * the tallies are those of the whole history.
   */
  method GetEditorHistory(replies: seq<HistoryReply>, maxRevisions: int)
    returns (counts: seq<Tally<int>>, revisions: nat, complete: bool)
    requires replies != []
    ensures complete <==> AllPages(replies) && |UserIds(replies[..|replies| - 1])| < maxRevisions
    ensures complete ==> revisions == |UserIds(replies)| && TalliesExactly(counts, UserIds(replies))
  {
    counts, revisions := [], 0;
    var i := 0;
    while revisions < maxRevisions
      invariant 0 <= i < |replies|
      invariant revisions == |UserIds(replies[..i])| && TalliesExactly(counts, UserIds(replies[..i]))
      invariant AllPages(replies[..i])
      decreases |replies| - i
    {
      if replies[i].NoPage? {
        assert !AllPages(replies);
        return counts, revisions, false;
      }
      OneMoreReply(replies, i);
      counts := TallyBatch(counts, replies[i].userIds, UserIds(replies[..i]));
      revisions := revisions + |replies[i].userIds|;
      if i + 1 == |replies| {
        assert replies[..i + 1] == replies;
        return counts, revisions, true;
      }
      i := i + 1;
    }
    BudgetUsedUp(replies, i);
    complete := false;
  }

  /** A history within the budget whose last batch is not empty is always read to its end. */
  lemma ShortHistoriesAreComplete(replies: seq<HistoryReply>, maxRevisions: int)
    requires replies != [] && AllPages(replies) && maxRevisions >= 1
    requires |UserIds(replies)| <= maxRevisions && replies[|replies| - 1].userIds != []
    ensures |UserIds(replies[..|replies| - 1])| < maxRevisions
  {}
}
