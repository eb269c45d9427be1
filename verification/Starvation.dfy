/** When the rotation of lock checks is fair, and how it starves accounts when it is not. */
module Starvation {
  import opened Options
  import opened Policy
  import opened Repository
  import opened Arithmetic
  import opened Standing
  import opened Rotation

  // ---- Who starves ------------------------------------------------------------------------

  /** These accounts are due and come before the other one: never checked, or checked earlier. */
  predicate InTheWay(known: map<int, StandingRecord>, stuck: set<int>, cutoff: int, id: int)
    requires id in known
  {
    forall s :: s in stuck ==>
      && s in known && LockIsDue(known[s], cutoff)
      && !NoLater(known[id].lockCheckedAt, known[s].lockCheckedAt)
  }

  /** Nobody answers for these accounts, or their checks do not complete. */
  predicate KeepFailing(run: Run, stuck: set<int>) {
    forall s :: s in stuck ==> s !in run.answers || !Completes(run.lookups(s))
  }

  /** A list no longer than a set cannot hold all of it beside another account. */
  lemma SomeoneIsLeftOut(ids: seq<int>, stuck: set<int>, id: int) returns (s: int, k: nat)
    requires id in ids && id !in stuck && |ids| <= |stuck|
    ensures s in stuck && s !in ids
    ensures k < |ids| && ids[k] == id
  {
    ToSetSize(ids);
    var others := ToSet(ids) - {id};
    assert ToSet(ids) == others + {id};
    if forall x :: x in stuck ==> x in others {
      SubsetIsSmaller(stuck, others);
      assert false;
    }
    s :| s in stuck && s !in others;
    k :| 0 <= k < |ids| && ids[k] == id;
  }

  /** With as many accounts in the way as the budget, an account is no candidate. */
  lemma StuckTakeEveryTurn(known: map<int, StandingRecord>, cutoff: int, budget: nat, ids: seq<int>, stuck: set<int>,
                           id: int)
    requires id in known && IsLockCandidates(known, cutoff, budget, ids)
    requires InTheWay(known, stuck, cutoff, id) && |stuck| >= budget
    ensures id !in ids
  {
    if id in ids {
      var s, k := SomeoneIsLeftOut(ids, stuck, id);
      assert false;
    }
  }

  lemma {:induction false} KnownAreSeen(named: seq<int>, known: map<int, StandingRecord>)
    ensures forall i :: 0 <= i < |Unseen(named, known)| ==> Unseen(named, known)[i] !in known
  {
    if named != [] {
      KnownAreSeen(named[1..], known);
    }
  }

  /** One run leaves everybody concerned where they were. */
  lemma StuckTurn(named: seq<int>, known: map<int, StandingRecord>, run: Run, recheck: nat, budget: nat,
                  stuck: set<int>, id: int)
    requires IsLockCandidates(known, run.now - recheck, budget, run.candidates)
    requires id in named && id in known && stuck <= ToSet(named)
    requires InTheWay(known, stuck, run.now - recheck, id) && |stuck| >= budget && KeepFailing(run, stuck)
    ensures var after := After(named, known, run, budget);
            && id in after && after[id].lockCheckedAt == known[id].lockCheckedAt
            && forall s :: s in stuck ==> s in after && after[s].lockCheckedAt == known[s].lockCheckedAt
  {
    StuckTakeEveryTurn(known, run.now - recheck, budget, run.candidates, stuck, id);
    KnownAreSeen(named, known);
    assert id !in Due(named, known, run.candidates, budget);
  }

  /**
   * While as many accounts as the budget are due, come before another account and keep
   * failing, that account is not checked, in any sequence of runs: whether the ones in the
   * way were never checked, or were checked once and have failed since.
   */
  lemma {:induction false} StuckAccountsStarveTheRest(named: seq<int>, tables: seq<map<int, StandingRecord>>,
                                                      runs: seq<Run>,
                                                      recheck: nat, budget: nat, troubled: set<int>, stuck: set<int>,
                                                      n: nat, id: int)
    requires IsRotation(named, tables, runs, recheck, budget, troubled) && runs != [] && n <= |runs|
    requires id in named && id in tables[0] && stuck <= ToSet(named) && |stuck| >= budget
    requires InTheWay(tables[0], stuck, runs[0].now - recheck, id)
    requires forall i :: 0 <= i < |runs| ==> KeepFailing(runs[i], stuck)
    ensures id in tables[n] && tables[n][id].lockCheckedAt == tables[0][id].lockCheckedAt
    ensures InTheWay(tables[n], stuck, runs[0].now - recheck, id)
  {
    if n > 0 {
      StuckAccountsStarveTheRest(named, tables, runs, recheck, budget, troubled, stuck, n - 1, id);
      assert IsTurn(named, tables, runs, recheck, budget, troubled, n - 1);
      assert KeepFailing(runs[n - 1], stuck) && runs[0].now <= runs[n - 1].now;
      StuckTurn(named, tables[n - 1], runs[n - 1], recheck, budget, stuck, id);
    }
  }

  // ---- A rotation that starves an account --------------------------------------------------

  function Upto(n: nat): (ids: seq<int>)
    ensures |ids| == n && forall i :: 0 <= i < n ==> ids[i] == i + 1
  {
    seq(n, i => i + 1)
  }

  /** An account with nothing against it. */
  function Clean(id: int): AccountStanding {
    AccountStanding(id, "", None, None, false, None, false, None)
  }

  /** Accounts 1 .. failing were never checked, the one after them was. */
  function Ledger(failing: nat): map<int, StandingRecord> {
    map id: int | 1 <= id <= failing + 1 :: StandingRecord(Clean(id), if id <= failing then None else Some(0))
  }

  function StuckRun(failing: nat, budget: nat, recheck: nat): Run {
    Run(recheck + 1, map id: int | 1 <= id <= failing + 1 :: Clean(id), Upto(budget),
        id => if id <= failing then LookupFailed else Unlocked)
  }

  lemma StuckCandidates(failing: nat, budget: nat)
    requires budget <= failing
    ensures IsLockCandidates(Ledger(failing), 1, budget, Upto(budget))
  {
    var known := Ledger(failing);
    forall other | other in known && LockIsDue(known[other], 1) && other !in Upto(budget)
      ensures forall i :: 0 <= i < budget ==> NoLater(known[Upto(budget)[i]].lockCheckedAt, known[other].lockCheckedAt)
    {}
  }

  lemma {:induction false} NoneUnseen(named: seq<int>, known: map<int, StandingRecord>)
    requires forall i :: 0 <= i < |named| ==> named[i] in known
    ensures Unseen(named, known) == []
  {
    if named != [] {
      NoneUnseen(named[1..], known);
    }
  }

  lemma RecordStays(failing: nat, budget: nat, recheck: nat, due: set<int>, id: int)
    requires id in Ledger(failing) && failing + 1 !in due
    ensures var run := StuckRun(failing, budget, recheck);
            && id in run.answers
            && Refreshed(id, Some(Ledger(failing)[id]), run.answers[id], id in due, run.lookups(id), run.now)
               == Ledger(failing)[id]
  {}

  /** The run changes nothing. */
  lemma LedgerStays(failing: nat, budget: nat, recheck: nat)
    requires budget <= failing
    ensures After(Upto(failing + 1), Ledger(failing), StuckRun(failing, budget, recheck), budget) == Ledger(failing)
  {
    var named, known, run := Upto(failing + 1), Ledger(failing), StuckRun(failing, budget, recheck);
    NoneUnseen(named, known);
    var due := Due(named, known, run.candidates, budget);
    var after := After(named, known, run, budget);
    forall id | id in known
      ensures id in after && after[id] == known[id]
    {
      assert named[id - 1] == id;
      RecordStays(failing, budget, recheck, due, id);
    }
    assert after.Keys == known.Keys;
  }

  /** Some accounts, how their records and runs went, and one of them whose turn is asked about. */
  datatype Case = Case(named: seq<int>, tables: seq<map<int, StandingRecord>>, runs: seq<Run>, recheck: nat,
                       troubled: set<int>, id: int)

  /** An untroubled account that is due, over at least as many runs as there are accounts. */
  ghost predicate IsCase(c: Case, budget: nat, failing: nat) {
    && IsRotation(c.named, c.tables, c.runs, c.recheck, budget, c.troubled)
    && |c.troubled| == failing && c.id in c.named && c.id !in c.troubled
    && Tracks(c.named, c.tables[0], c.troubled) && c.id in c.tables[0]
    && |c.runs| >= |c.named| && LockIsDue(c.tables[0][c.id], c.runs[0].now - c.recheck)
  }

  ghost predicate GetsTurn(c: Case)
    requires |c.tables| == |c.runs| + 1
  {
    exists i :: 0 <= i < |c.runs| && CheckedBy(c.tables, c.runs, i, c.id)
  }

  /** The same table and the same run, over and over. */
  function StarvingCase(budget: nat, failing: nat, recheck: nat, length: nat): Case {
    Case(Upto(failing + 1), seq(length + 1, i => Ledger(failing)), seq(length, i => StuckRun(failing, budget, recheck)),
         recheck, ToSet(Upto(failing)), failing + 1)
  }

  lemma Numbered(n: nat, id: int)
    requires 1 <= id <= n
    ensures id in Upto(n)
  {
    assert Upto(n)[id - 1] == id;
  }

  lemma UntroubledIsLast(failing: nat, id: int)
    requires id in Upto(failing + 1) && id !in ToSet(Upto(failing))
    ensures id == failing + 1
  {
    if id <= failing {
      Numbered(failing, id);
    }
  }

  lemma StuckRunIsGood(failing: nat, budget: nat, recheck: nat)
    requires budget <= failing
    ensures GoodRun(Upto(failing + 1), Ledger(failing), StuckRun(failing, budget, recheck), recheck, budget,
                    ToSet(Upto(failing)))
  {
    var run := StuckRun(failing, budget, recheck);
    StuckCandidates(failing, budget);
    forall id | id in Upto(failing + 1) && id !in ToSet(Upto(failing))
      ensures id in run.answers && Completes(run.lookups(id))
    {
      UntroubledIsLast(failing, id);
    }
  }

  lemma StarvingTurn(budget: nat, failing: nat, recheck: nat, length: nat, i: nat)
    requires budget <= failing && i < length
    ensures var c := StarvingCase(budget, failing, recheck, length);
            IsTurn(c.named, c.tables, c.runs, recheck, budget, c.troubled, i) && !CheckedBy(c.tables, c.runs, i, c.id)
  {
    var c := StarvingCase(budget, failing, recheck, length);
    assert c.tables[i] == Ledger(failing) && c.tables[i + 1] == Ledger(failing)
        && c.runs[i] == StuckRun(failing, budget, recheck);
    StuckRunIsGood(failing, budget, recheck);
    LedgerStays(failing, budget, recheck);
  }

  lemma LedgerTracks(failing: nat)
    ensures Tracks(Upto(failing + 1), Ledger(failing), ToSet(Upto(failing)))
  {
    forall id | id in Ledger(failing)
      ensures id in ToSet(Upto(failing + 1))
    {
      assert Upto(failing + 1)[id - 1] == id;
    }
  }

  /** For any budget and at least as many failing accounts, over any number of runs. */
  lemma StarvingRotation(budget: nat, failing: nat, recheck: nat, length: nat) returns (c: Case)
    requires budget <= failing && length >= failing + 1
    ensures IsCase(c, budget, failing) && |c.runs| == length && !GetsTurn(c)
  {
    c := StarvingCase(budget, failing, recheck, length);
    forall i | 0 <= i < length
      ensures IsTurn(c.named, c.tables, c.runs, recheck, budget, c.troubled, i)
      ensures !CheckedBy(c.tables, c.runs, i, c.id)
    {
      StarvingTurn(budget, failing, recheck, length, i);
    }
    LedgerTracks(failing);
    ToSetSize(Upto(failing));
    assert c.named[failing] == c.id;
    assert c.tables[0] == Ledger(failing) && c.runs[0].now == recheck + 1;
  }

  // ---- Exactly when the rotation is fair ------------------------------------------------------

  /** Every due untroubled account is checked within as many runs as there are accounts. */
  ghost predicate Fair(budget: nat, failing: nat) {
    forall c: Case :: IsCase(c, budget, failing) ==> GetsTurn(c)
  }

  lemma RunsForFits(accounts: nat, budget: nat)
    requires budget >= 1
    ensures RunsFor(accounts, budget) <= accounts
  {
    var q := RunsFor(accounts, budget);
    if q > accounts {
      MultiplesGrow(accounts + 1, q, budget);
      OneMoreTime(accounts, budget);
      MultiplesGrow(1, budget, accounts);
    }
  }

  lemma RunsNeededFits(named: seq<int>, budget: nat, troubled: set<int>)
    requires |troubled| < budget
    ensures RunsNeeded(named, budget, troubled) <= |named|
  {
    var untroubled := ToSet(named) - troubled;
    RunsForFits(|untroubled|, budget - |troubled|);
    ToSetSize(named);
    SubsetIsSmaller(untroubled, ToSet(named));
  }

  lemma CaseGetsTurn(c: Case, budget: nat, failing: nat)
    requires IsCase(c, budget, failing) && failing < budget
    ensures GetsTurn(c)
  {
    RunsNeededFits(c.named, budget, c.troubled);
    var i := DueAccountGetsItsTurn(c.named, c.tables, c.runs, c.recheck, budget, c.troubled, 0, c.id);
  }

  /** The rotation is fair to everybody else exactly when fewer accounts are in trouble than the budget. */
  lemma FairIff(budget: nat, failing: nat)
    ensures Fair(budget, failing) <==> failing < budget
  {
    if failing < budget {
      forall c: Case | IsCase(c, budget, failing)
        ensures GetsTurn(c)
      {
        CaseGetsTurn(c, budget, failing);
      }
    } else {
      var c := StarvingRotation(budget, failing, 0, failing + 1);
      assert IsCase(c, budget, failing) && !GetsTurn(c);
    }
  }
}
