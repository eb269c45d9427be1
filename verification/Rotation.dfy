/** What repeated standing runs achieve: exact facts each time, and a fair turn for every account. */
module Rotation {
  import opened Options
  import opened Policy
  import opened Repository
  import opened Standing
  import opened Arithmetic

  // ---- One run ------------------------------------------------------------------

  /** The columns a block pass fills in. */
  predicate SameBlock(a: AccountStanding, b: AccountStanding) {
    && a.username == b.username && a.blockedAt == b.blockedAt && a.blockExpiresAt == b.blockExpiresAt
    && a.blockPartial == b.blockPartial && a.blockReason == b.blockReason
  }

  predicate SameLock(a: StandingRecord, b: StandingRecord) {
    && a.standing.globallyLocked == b.standing.globallyLocked
    && a.standing.lockReason == b.standing.lockReason
    && a.lockCheckedAt == b.lockCheckedAt
  }

  /**
   * After a run the wiki's table holds exactly the named accounts that were answered for
   * or already known. Unanswered ones are untouched; answered ones carry the fresh block;
   * lock facts change only for a due account, the reason and the time of the check only
   * when the check completed, and the flag also when the reason could not be read.
   */
  lemma SyncIsExact(named: seq<int>, known: map<int, StandingRecord>, answers: map<int, AccountStanding>, due: set<int>,
                    lookups: int -> LockLookup, now: int, id: int)
    ensures var synced := Synced(named, known, answers, due, lookups, now);
            && (id in synced <==> id in named && (id in answers || id in known))
            && (id in synced && id !in answers ==> synced[id] == known[id])
            && (id in synced && id in answers ==>
                SameBlock(synced[id].standing, answers[id]) && synced[id].standing.userId == id)
            && (id in synced && id in known && id !in due ==> SameLock(synced[id], known[id]))
            && (id in synced && id in known && lookups(id).LookupFailed? ==> SameLock(synced[id], known[id]))
            && (id in synced && id in known && lookups(id).ReasonFailed? ==>
                  synced[id].standing.lockReason == known[id].standing.lockReason
                  && synced[id].lockCheckedAt == known[id].lockCheckedAt)
            && (id in synced && id in answers && id in due && lookups(id).ReasonFailed? ==>
                synced[id].standing.globallyLocked)
            && (id in synced && id !in known && (id !in due || lookups(id).LookupFailed?) ==>
                  && !synced[id].standing.globallyLocked && synced[id].standing.lockReason.None?
                  && synced[id].lockCheckedAt.None?)
            && (id in synced && id in answers && id in due && lookups(id).Unlocked? ==>
                synced[id].standing.lockReason.None?)
            && (id in synced && id in answers && id in due && Completes(lookups(id)) ==>
                  && synced[id].lockCheckedAt == Some(now)
                  && (synced[id].standing.globallyLocked <==> lookups(id).LockedFor?)
                  && (lookups(id).LockedFor? ==> synced[id].standing.lockReason == lookups(id).reason))
  {}

  /** A record that says "not locked" gives no reason for a lock. */
  predicate LockConsistent(record: StandingRecord) {
    !record.standing.globallyLocked ==> record.standing.lockReason.None?
  }

  /**
   * Every run keeps records lock-consistent, and then a check that found a lock but not its
   * reason never changes whether the lock withholds the name.
   */
  lemma HalfReadLockChangesNoVerdict(named: seq<int>, known: map<int, StandingRecord>, answers: map<int,
                                     AccountStanding>, due: set<int>,
                                     lookups: int -> LockLookup, now: int, wording: Wording)
    requires forall id :: id in known ==> LockConsistent(known[id])
    ensures var synced := Synced(named, known, answers, due, lookups, now);
            && (forall id :: id in synced ==> LockConsistent(synced[id]))
            && (forall id :: id in synced && !Completes(lookups(id)) ==>
                  (IsSanctionLock(synced[id].standing, wording)
                   <==> id in known && IsSanctionLock(known[id].standing, wording)))
  {
    var synced := Synced(named, known, answers, due, lookups, now);
    forall id | id in synced
      ensures LockConsistent(synced[id])
      ensures !Completes(lookups(id)) ==>
                (IsSanctionLock(synced[id].standing, wording)
                 <==> id in known && IsSanctionLock(known[id].standing, wording))
    {
      assert id in known ==> LockConsistent(known[id]);
    }
  }

  // ---- Many runs -------------------------------------------------------------------

  datatype Run = Run(now: int, answers: map<int, AccountStanding>, candidates: seq<int>, lookups: int -> LockLookup)

  function After(named: seq<int>, known: map<int, StandingRecord>, run: Run, budget: nat): map<int, StandingRecord> {
    Synced(named, known, run.answers, Due(named, known, run.candidates, budget), run.lookups, run.now)
  }

  /**
   * A run on valid candidates in which every account but the troubled ones is answered for
   * and has its lock check complete; nothing is assumed of the troubled ones.
   */
  ghost predicate GoodRun(named: seq<int>, known: map<int, StandingRecord>, run: Run, recheck: nat, budget: nat,
                          troubled: set<int>) {
    && IsLockCandidates(known, run.now - recheck, budget, run.candidates)
    && (forall id :: id in named && id !in troubled ==> id in run.answers && Completes(run.lookups(id)))
  }

  /** Run `i` is good and leads from one table to the next. */
  ghost predicate IsTurn(named: seq<int>, tables: seq<map<int, StandingRecord>>, runs: seq<Run>, recheck: nat,
                         budget: nat,
                         troubled: set<int>, i: nat)
    requires |tables| == |runs| + 1 && i < |runs|
  {
    GoodRun(named, tables[i], runs[i], recheck, budget, troubled)
        && tables[i + 1] == After(named, tables[i], runs[i], budget)
  }

  /** Successive runs over one fixed set of named accounts, the clock never going back. */
  ghost predicate IsRotation(named: seq<int>, tables: seq<map<int, StandingRecord>>, runs: seq<Run>, recheck: nat,
                             budget: nat, troubled: set<int>) {
    && StrictlyAscending(named) && |tables| == |runs| + 1
    && (forall i :: 0 <= i < |runs| ==> IsTurn(named, tables, runs, recheck, budget, troubled, i))
    && (forall i, j :: 0 <= i <= j < |runs| ==> runs[i].now <= runs[j].now)
  }

  /** The account's lock was confirmed by run `i`. */
  predicate CheckedBy(tables: seq<map<int, StandingRecord>>, runs: seq<Run>, i: nat, id: int)
    requires |tables| == |runs| + 1 && i < |runs|
  {
    id in tables[i + 1] && tables[i + 1][id].lockCheckedAt == Some(runs[i].now)
  }

  /** The untroubled accounts whose turn comes no later than this one's, itself included. */
  function Ahead(known: map<int, StandingRecord>, id: int, troubled: set<int>): set<int>
    requires id in known
  {
    set other | other in known && other !in troubled && NoLater(known[other].lockCheckedAt, known[id].lockCheckedAt)
  }

  /** The table holds named accounts only, and every untroubled one. */
  ghost predicate Tracks(named: seq<int>, known: map<int, StandingRecord>, troubled: set<int>) {
    known.Keys <= ToSet(named) && ToSet(named) - troubled <= known.Keys
  }

  /** From the second run on the table tracks the named accounts. */
  lemma GoodRunTracks(named: seq<int>, known: map<int, StandingRecord>, run: Run, recheck: nat, budget: nat,
                      troubled: set<int>)
    requires GoodRun(named, known, run, recheck, budget, troubled)
    ensures Tracks(named, After(named, known, run, budget), troubled)
  {}

  lemma FullCandidatesAreDue(named: seq<int>, known: map<int, StandingRecord>, candidates: seq<int>, budget: nat)
    requires |ToSet(candidates)| == budget
    ensures Due(named, known, candidates, budget) == ToSet(candidates)
  {
    assert Unseen(named, known)[..0] == [];
  }

  lemma TurnKept(named: seq<int>, known: map<int, StandingRecord>, run: Run, recheck: nat, budget: nat,
                 troubled: set<int>, id: int, other: int)
    requires Tracks(named, known, troubled) && GoodRun(named, known, run, recheck, budget, troubled)
    requires id in known && LockIsDue(known[id], run.now - recheck)
    requires Due(named, known, run.candidates, budget) == ToSet(run.candidates) && id !in run.candidates
    requires var after := After(named, known, run, budget); id in after && other in Ahead(after, id, troubled)
    ensures other in Ahead(known, id, troubled) && other !in run.candidates
  {
    assert other in ToSet(named) - troubled;
  }

  lemma LessTroubled(picked: set<int>, troubled: set<int>)
    ensures |picked - troubled| + |troubled| >= |picked|
  {
    assert picked == (picked - troubled) + (picked * troubled);
    SubsetIsSmaller(picked * troubled, troubled);
  }

  lemma MovedUp(before: set<int>, after: set<int>, picked: set<int>, troubled: set<int>, budget: nat)
    requires |picked| == budget && picked - troubled <= before && after <= before - picked && |troubled| <= budget
    ensures |after| + (budget - |troubled|) <= |before|
  {
    LessTroubled(picked, troubled);
    assert after !! picked - troubled;
    SubsetIsSmaller(after + (picked - troubled), before);
  }

  /** A due account that misses its turn moves up by the budget less the troubled accounts. */
  lemma MissedTurnMovesUp(named: seq<int>, known: map<int, StandingRecord>, run: Run, recheck: nat, budget: nat,
                          troubled: set<int>, id: int)
    requires Tracks(named, known, troubled) && GoodRun(named, known, run, recheck, budget, troubled)
             && |troubled| <= budget
    requires id in known && id !in troubled && LockIsDue(known[id], run.now - recheck)
    ensures var after := After(named, known, run, budget);
            && id in after
            && (after[id].lockCheckedAt == Some(run.now)
                || (after[id].lockCheckedAt == known[id].lockCheckedAt
                    && |Ahead(after, id, troubled)| + (budget - |troubled|) <= |Ahead(known, id, troubled)|))
  {
    var after := After(named, known, run, budget);
    assert id in ToSet(named);
    if id !in run.candidates {
      var picked := ToSet(run.candidates);
      ToSetSize(run.candidates);
      FullCandidatesAreDue(named, known, run.candidates, budget);
      assert id in after;
      forall other | other in Ahead(after, id, troubled)
        ensures other in Ahead(known, id, troubled) - picked
      {
        TurnKept(named, known, run, recheck, budget, troubled, id, other);
      }
      MovedUp(Ahead(known, id, troubled), Ahead(after, id, troubled), picked, troubled, budget);
    } else {
      assert id in ToSet(run.candidates);
    }
  }

  lemma OneMoreMiss(named: seq<int>, tables: seq<map<int, StandingRecord>>, runs: seq<Run>, recheck: nat, budget: nat,
                    troubled: set<int>,
                    i: nat, id: int, dueBefore: int)
    requires IsRotation(named, tables, runs, recheck, budget, troubled) && i < |runs| && |troubled| <= budget
    requires Tracks(named, tables[i], troubled) && id in tables[i] && id !in troubled
    requires LockIsDue(tables[i][id], dueBefore) && dueBefore <= runs[i].now - recheck
    requires !CheckedBy(tables, runs, i, id)
    ensures Tracks(named, tables[i + 1], troubled) && id in tables[i + 1]
    ensures tables[i + 1][id].lockCheckedAt == tables[i][id].lockCheckedAt
    ensures |Ahead(tables[i + 1], id, troubled)| + (budget - |troubled|) <= |Ahead(tables[i], id, troubled)|
  {
    assert IsTurn(named, tables, runs, recheck, budget, troubled, i);
    MissedTurnMovesUp(named, tables[i], runs[i], recheck, budget, troubled, id);
    GoodRunTracks(named, tables[i], runs[i], recheck, budget, troubled);
  }

  lemma {:induction false} WaitingShrinksAhead(named: seq<int>, tables: seq<map<int, StandingRecord>>, runs: seq<Run>,
                                               recheck: nat, budget: nat,
                                               troubled: set<int>, first: nat, k: nat, id: int)
    requires IsRotation(named, tables, runs, recheck, budget, troubled) && first + k <= |runs| && |troubled| <= budget
    requires first < |runs| && Tracks(named, tables[first], troubled) && id in named && id !in troubled
             && id in tables[first]
    requires LockIsDue(tables[first][id], runs[first].now - recheck)
    requires forall i :: first <= i < first + k ==> !CheckedBy(tables, runs, i, id)
    ensures Tracks(named, tables[first + k], troubled) && id in tables[first + k]
    ensures tables[first + k][id].lockCheckedAt == tables[first][id].lockCheckedAt
    ensures |Ahead(tables[first + k], id, troubled)| + Times(k, budget - |troubled|)
            <= |Ahead(tables[first], id, troubled)|
  {
    if k > 0 {
      WaitingShrinksAhead(named, tables, runs, recheck, budget, troubled, first, k - 1, id);
      var i := first + k - 1;
      assert !CheckedBy(tables, runs, i, id) && runs[first].now <= runs[i].now;
      OneMoreMiss(named, tables, runs, recheck, budget, troubled, i, id, runs[first].now - recheck);
    }
  }

  lemma AheadHoldsSelf(named: seq<int>, known: map<int, StandingRecord>, id: int, troubled: set<int>)
    requires id in known && id !in troubled && Tracks(named, known, troubled)
    ensures 1 <= |Ahead(known, id, troubled)| <= |ToSet(named) - troubled|
  {
    SubsetIsSmaller({id}, Ahead(known, id, troubled));
    SubsetIsSmaller(Ahead(known, id, troubled), ToSet(named) - troubled);
  }

  /** No due account misses so many turns. */
  lemma NobodyStarves(named: seq<int>, tables: seq<map<int, StandingRecord>>, runs: seq<Run>, recheck: nat, budget: nat,
                      troubled: set<int>,
                      first: nat, k: nat, id: int)
    requires IsRotation(named, tables, runs, recheck, budget, troubled) && first + k <= |runs| && first < |runs|
             && |troubled| <= budget
    requires Tracks(named, tables[first], troubled) && id in named && id !in troubled && id in tables[first]
    requires LockIsDue(tables[first][id], runs[first].now - recheck)
    requires forall i :: first <= i < first + k ==> !CheckedBy(tables, runs, i, id)
    ensures k * (budget - |troubled|) < |ToSet(named) - troubled|
  {
    WaitingShrinksAhead(named, tables, runs, recheck, budget, troubled, first, k, id);
    AheadHoldsSelf(named, tables[first + k], id, troubled);
    AheadHoldsSelf(named, tables[first], id, troubled);
    TimesIs(k, budget - |troubled|);
  }

  /** The least number of runs that can check `accounts` accounts. */
  function RunsFor(accounts: nat, budget: nat): nat
    requires budget >= 1
  {
    (accounts + budget - 1) / budget
  }

  lemma RunsForIsEnough(accounts: nat, budget: nat)
    requires budget >= 1
    ensures RunsFor(accounts, budget) * budget >= accounts
  {}

  lemma AtLeastOneRun(accounts: nat, budget: nat)
    requires accounts >= 1 && budget >= 1
    ensures RunsFor(accounts, budget) >= 1
  {
    RunsForIsEnough(accounts, budget);
  }

  /** How many runs are enough: the untroubled accounts, at the budget the troubled ones leave. */
  function RunsNeeded(named: seq<int>, budget: nat, troubled: set<int>): nat
    requires |troubled| < budget
  {
    RunsFor(|ToSet(named) - troubled|, budget - |troubled|)
  }

  /**
   * With F troubled accounts and a budget N above F, an untroubled account that is due is
   * checked within ceil((K - F) / (N - F)) runs, whatever the rotation query does with ties
   * and whatever happens to the troubled ones.
   */
  lemma DueAccountGetsItsTurn(named: seq<int>, tables: seq<map<int, StandingRecord>>, runs: seq<Run>, recheck: nat,
                              budget: nat,
                              troubled: set<int>, first: nat, id: int) returns (i: nat)
    requires IsRotation(named, tables, runs, recheck, budget, troubled) && |troubled| < budget
    requires first < |runs| && first + RunsNeeded(named, budget, troubled) <= |runs|
    requires Tracks(named, tables[first], troubled) && id in named && id !in troubled && id in tables[first]
    requires LockIsDue(tables[first][id], runs[first].now - recheck)
    ensures first <= i < first + RunsNeeded(named, budget, troubled) && CheckedBy(tables, runs, i, id)
  {
    var k := RunsNeeded(named, budget, troubled);
    RunsForIsEnough(|ToSet(named) - troubled|, budget - |troubled|);
    if forall j :: first <= j < first + k ==> !CheckedBy(tables, runs, j, id) {
      NobodyStarves(named, tables, runs, recheck, budget, troubled, first, k, id);
      assert false;
    }
    i :| first <= i < first + k && CheckedBy(tables, runs, i, id);
  }

  lemma {:induction false} CheckedStaysChecked(named: seq<int>, tables: seq<map<int, StandingRecord>>, runs: seq<Run>,
                                               recheck: nat, budget: nat,
                                               troubled: set<int>, n: nat, m: nat, id: int)
    requires IsRotation(named, tables, runs, recheck, budget, troubled) && n <= m <= |runs|
    requires id in named && id in tables[n] && tables[n][id].lockCheckedAt.Some?
    ensures id in tables[m] && tables[m][id].lockCheckedAt.Some?
  {
    if n < m {
      CheckedStaysChecked(named, tables, runs, recheck, budget, troubled, n, m - 1, id);
      assert IsTurn(named, tables, runs, recheck, budget, troubled, m - 1);
    }
  }

  /**
   * Whatever the table held at first, after 1 + ceil((K - F) / (N - F)) runs the lock of
   * every untroubled account has been confirmed.
   */
  lemma EveryoneIsCheckedInTime(named: seq<int>, tables: seq<map<int, StandingRecord>>, runs: seq<Run>, recheck: nat,
                                budget: nat,
                                troubled: set<int>, id: int)
    requires IsRotation(named, tables, runs, recheck, budget, troubled) && |troubled| < budget && id in named
             && id !in troubled
    requires |runs| == 1 + RunsNeeded(named, budget, troubled)
    ensures id in tables[|runs|] && tables[|runs|][id].lockCheckedAt.Some?
  {
    assert IsTurn(named, tables, runs, recheck, budget, troubled, 0);
    GoodRunTracks(named, tables[0], runs[0], recheck, budget, troubled);
    assert id in ToSet(named) - troubled;
    SubsetIsSmaller({id}, ToSet(named) - troubled);
    AtLeastOneRun(|ToSet(named) - troubled|, budget - |troubled|);
    if tables[1][id].lockCheckedAt.None? {
      var i := DueAccountGetsItsTurn(named, tables, runs, recheck, budget, troubled, 1, id);
      CheckedStaysChecked(named, tables, runs, recheck, budget, troubled, i + 1, |runs|, id);
    } else {
      CheckedStaysChecked(named, tables, runs, recheck, budget, troubled, 1, |runs|, id);
    }
  }

  // ---- The rotation query always has an answer ------------------------------------------

  lemma {:induction false} OldestOf(known: map<int, StandingRecord>, ids: set<int>) returns (oldest: int)
    requires ids <= known.Keys && exists id :: id in ids
    ensures oldest in ids && forall id :: id in ids ==> NoLater(known[oldest].lockCheckedAt, known[id].lockCheckedAt)
    decreases |ids|
  {
    var some :| some in ids;
    var rest := ids - {some};
    assert forall id :: id in ids && id != some ==> id in rest;
    if exists id :: id in rest {
      var best := OldestOf(known, rest);
      oldest := if NoLater(known[best].lockCheckedAt, known[some].lockCheckedAt) then best else some;
    } else {
      oldest := some;
    }
  }

  lemma {:induction false} CandidatesExist(known: map<int, StandingRecord>, cutoff: int, limit: nat)
    ensures exists ids :: IsLockCandidates(known, cutoff, limit, ids)
    decreases limit
  {
    if limit == 0 {
      assert IsLockCandidates(known, cutoff, 0, []);
    } else {
      CandidatesExist(known, cutoff, limit - 1);
      var ids :| IsLockCandidates(known, cutoff, limit - 1, ids);
      var left := set id | id in known && LockIsDue(known[id], cutoff) && id !in ids;
      if exists id :: id in left {
        var next := OldestOf(known, left);
        assert next in known && LockIsDue(known[next], cutoff) && next !in ids;
        assert IsLockCandidates(known, cutoff, limit, ids + [next]) by {
          forall other | other in known && LockIsDue(known[other], cutoff) && other !in ids + [next]
            ensures forall i :: 0 <= i < |ids + [next]| ==>
                    NoLater(known[(ids + [next])[i]].lockCheckedAt, known[other].lockCheckedAt)
          {
            assert other in left;
          }
        }
      } else {
        assert forall id :: id in known && LockIsDue(known[id], cutoff) && id !in ids ==> id in left;
        assert IsLockCandidates(known, cutoff, limit, ids);
      }
    }
  }
}
