/**
 * From CentralAuth to the reader: a sanction lock on a named account takes its name off every
 * answer built after the run that reads it, and the rotation reads it in time.
 */
module Withholding {
  import opened Options
  import opened Policy
  import opened WorkQueue
  import opened Repository
  import opened Standing
  import opened Rotation
  import opened Presentation

  /** CentralAuth reports a lock whose reason is a sanction. */
  predicate ReportsSanction(lookup: LockLookup, wording: Wording) {
    && lookup.LockedFor? && lookup.reason.Some? && lookup.reason.value != ""
    && wording.lockSanction(lookup.reason.value)
  }

  predicate HasSanction(known: map<int, StandingRecord>, id: int, wording: Wording) {
    id in known && IsSanctionLock(known[id].standing, wording)
  }

  /** The standings an answer is built with. */
  function StandingsIn(known: map<int, StandingRecord>): int -> Option<AccountStanding> {
    id => if id in known then Some(known[id].standing) else None
  }

  /** A check that completes stores the lock, and until the next one the record is carried over. */
  lemma SanctionIsKept(named: seq<int>, known: map<int, StandingRecord>, run: Run, budget: nat, id: int,
                       wording: Wording)
    requires id in named && id in run.answers && ReportsSanction(run.lookups(id), wording)
    ensures var after := After(named, known, run, budget);
            && (HasSanction(known, id, wording) ==> HasSanction(after, id, wording))
            && (id in after && id in Due(named, known, run.candidates, budget) ==> HasSanction(after, id, wording))
  {}

  /** A check of this run shows: the time changed. */
  lemma CheckedMeansSanctioned(named: seq<int>, known: map<int, StandingRecord>, run: Run, recheck: nat, budget: nat,
                               id: int,
                               wording: Wording)
    requires id in named && id in run.answers && ReportsSanction(run.lookups(id), wording)
    requires id in known && LockIsDue(known[id], run.now - recheck)
    requires var after := After(named, known, run, budget); id in after && after[id].lockCheckedAt == Some(run.now)
    ensures HasSanction(After(named, known, run, budget), id, wording)
  {
    SanctionIsKept(named, known, run, budget, id, wording);
  }

  /** Every run reports the lock to whoever asks for it. */
  ghost predicate LockedThroughout(runs: seq<Run>, first: nat, id: int, wording: Wording) {
    forall k :: first <= k < |runs| ==> ReportsSanction(runs[k].lookups(id), wording)
  }

  lemma {:induction false} SanctionStays(named: seq<int>, tables: seq<map<int, StandingRecord>>, runs: seq<Run>,
                                         recheck: nat,
                                         budget: nat, troubled: set<int>, i: nat, j: nat, id: int, wording: Wording)
    requires IsRotation(named, tables, runs, recheck, budget, troubled) && i <= j <= |runs|
    requires id in named && id !in troubled && LockedThroughout(runs, i, id, wording)
    requires HasSanction(tables[i], id, wording)
    ensures HasSanction(tables[j], id, wording)
  {
    if i < j {
      SanctionStays(named, tables, runs, recheck, budget, troubled, i, j - 1, id, wording);
      assert IsTurn(named, tables, runs, recheck, budget, troubled, j - 1);
      SanctionIsKept(named, tables[j - 1], runs[j - 1], budget, id, wording);
    }
  }

  /** An account that is due stays due, unchanged, until a run checks it. */
  lemma {:induction false} DueUntilChecked(named: seq<int>, tables: seq<map<int, StandingRecord>>, runs: seq<Run>,
                                           recheck: nat,
                                           budget: nat, troubled: set<int>, first: nat, k: nat, id: int)
    requires IsRotation(named, tables, runs, recheck, budget, troubled) && first + k < |runs|
    requires id in named && id !in troubled && id in tables[first]
             && LockIsDue(tables[first][id], runs[first].now - recheck)
    requires forall i :: first <= i < first + k ==> !CheckedBy(tables, runs, i, id)
    ensures id in tables[first + k] && tables[first + k][id].lockCheckedAt == tables[first][id].lockCheckedAt
    ensures LockIsDue(tables[first + k][id], runs[first + k].now - recheck)
  {
    if k > 0 {
      DueUntilChecked(named, tables, runs, recheck, budget, troubled, first, k - 1, id);
      var i := first + k - 1;
      assert IsTurn(named, tables, runs, recheck, budget, troubled, i);
      assert !CheckedBy(tables, runs, i, id) && runs[first].now <= runs[first + k].now;
    }
  }

  /** The first run that checks it. */
  lemma {:induction false} FirstCheck(tables: seq<map<int, StandingRecord>>, runs: seq<Run>, first: nat, i: nat,
                                      id: int) returns (k: nat)
    requires |tables| == |runs| + 1 && first <= i < |runs| && CheckedBy(tables, runs, i, id)
    ensures first + k <= i && CheckedBy(tables, runs, first + k, id)
    ensures forall j :: first <= j < first + k ==> !CheckedBy(tables, runs, j, id)
    decreases i
  {
    if j :| first <= j < i && CheckedBy(tables, runs, j, id) {
      k := FirstCheck(tables, runs, first, j, id);
    } else {
      k := i - first;
    }
  }

  /** A locked account is shown to nobody, whatever the answer and the opt-out list. */
  lemma SanctionedIsNotShown(known: map<int, StandingRecord>, id: int, answer: Answer, optedOut: bool, rule: Rule,
                             c: Contributor)
    requires HasSanction(known, id, rule.wording) && rule.hide && c.userId == id
    ensures c !in AttributionFields(answer, optedOut, StandingsIn(known), rule).contributors
  {
    WithheldExactlyWhenLastinglyExcluded(known[id].standing, rule.maxVisibleBlock, rule.now, rule.wording);
    ShowableMembers(answer.contributors, StandingsIn(known), rule, c);
  }

  ghost predicate NeverShown(known: map<int, StandingRecord>, id: int, wording: Wording) {
    forall answer, optedOut, rule: Rule, c: Contributor ::
      rule.hide && rule.wording == wording && c.userId == id ==>
        c !in AttributionFields(answer, optedOut, StandingsIn(known), rule).contributors
  }

  lemma SanctionedNeverShown(known: map<int, StandingRecord>, id: int, wording: Wording)
    requires HasSanction(known, id, wording)
    ensures NeverShown(known, id, wording)
  {
    forall answer, optedOut, rule: Rule, c: Contributor | rule.hide && rule.wording == wording && c.userId == id
      ensures c !in AttributionFields(answer, optedOut, StandingsIn(known), rule).contributors
    {
      SanctionedIsNotShown(known, id, answer, optedOut, rule, c);
    }
  }

  /**
   * With F troubled accounts and a budget N above F: an untroubled named account that is due,
   * and is locked as a sanction from then on, is shown in no answer built after a run that
   * comes within ceil((K - F) / (N - F)) runs.
   */
  lemma SanctionIsEnforcedInTime(named: seq<int>, tables: seq<map<int, StandingRecord>>, runs: seq<Run>, recheck: nat,
                                 budget: nat,
                                 troubled: set<int>, first: nat, id: int, wording: Wording) returns (i: nat)
    requires IsRotation(named, tables, runs, recheck, budget, troubled) && |troubled| < budget
    requires first < |runs| && first + RunsNeeded(named, budget, troubled) <= |runs|
    requires Tracks(named, tables[first], troubled) && id in named && id !in troubled && id in tables[first]
    requires LockIsDue(tables[first][id], runs[first].now - recheck) && LockedThroughout(runs, first, id, wording)
    ensures first < i <= first + RunsNeeded(named, budget, troubled)
    ensures forall j :: i <= j <= |runs| ==> HasSanction(tables[j], id, wording) && NeverShown(tables[j], id, wording)
  {
    var late := DueAccountGetsItsTurn(named, tables, runs, recheck, budget, troubled, first, id);
    var k := FirstCheck(tables, runs, first, late, id);
    DueUntilChecked(named, tables, runs, recheck, budget, troubled, first, k, id);
    var n := first + k;
    assert IsTurn(named, tables, runs, recheck, budget, troubled, n);
    CheckedMeansSanctioned(named, tables[n], runs[n], recheck, budget, id, wording);
    i := n + 1;
    forall j | i <= j <= |runs|
      ensures HasSanction(tables[j], id, wording) && NeverShown(tables[j], id, wording)
    {
      SanctionStays(named, tables, runs, recheck, budget, troubled, i, j, id, wording);
      SanctionedNeverShown(tables[j], id, wording);
    }
  }
}
