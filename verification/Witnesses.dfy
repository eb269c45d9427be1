/** Concrete runs and inputs for what the queue does not promise. */
module Witnesses {
  import opened Options
  import opened WorkQueue
  import opened QueueRuns
  import opened QueueSafety
  import opened Draining
  import Pagination
  import OptOutPage
  import opened Policy
  import opened Repository
  import Standing

  const PAGE := PageRef("frwiki", 100, "v1")

  function At(revision: int): Key { Key(PAGE, revision) }

  // ---- A page left without work --------------------------------------------------------------

  /** Revision 5 was asked for, claimed and superseded. */
  lemma FiveSuperseded() returns (states: seq<Sys>, steps: seq<Step>)
    ensures DisciplinedRun(states, steps) && |steps| == 3
    ensures var s := states[3];
            && s.db.work.Keys == {0} && s.db.nextWork == 1 && s.db.work[0].key == At(5)
               && s.db.work[0].state.Superseded?
            && s.held == map[] && s.now == 0
  {
    states, steps := Begin();
    states, steps := GoOn(states, steps, Ask(At(5), 100));
    assert states[1].db.work == map[0 := FreshRow(At(5), 100, 0)];
    states, steps := GoOn(states, steps, Step.Claim("worker", 0, 300));
    states, steps := GoOn(states, steps, Step.Supersede("worker", "off namespace"));
  }

  /**
   * From empty tables: revision 5 is asked for and superseded, revision 4 is asked for, and
   * asking for revision 5 again leaves the page without work.
   */
  lemma AskingStrandsAPage() returns (states: seq<Sys>, steps: seq<Step>)
    ensures DisciplinedRun(states, steps) && |steps| == 5 && steps[4] == Ask(At(5), 100)
    ensures PageActive(states[4].db.work, PAGE) && !PageActive(states[5].db.work, PAGE)
  {
    states, steps := FiveSuperseded();
    states, steps := GoOn(states, steps, Ask(At(4), 100));
    assert states[4].db.work[1] == FreshRow(At(4), 100, 0);
    assert Active(states[4].db.work[1]);
    states, steps := GoOn(states, steps, Ask(At(5), 100));
    assert HasWork(states[4].db.work, At(5)) by { assert states[4].db.work[0].key == At(5); }
    RunsKeepInv(states, steps, 4);
    EnqueueStrandsPageIff(states[4].db, 0, At(5), 100);
  }

  // ---- A priority that drops ------------------------------------------------------------------

  /** From empty tables: a reader asks with priority 100, and a backfill that loses its insert to it leaves 10. */
  lemma LosingAnInsertLowersAPriority() returns (states: seq<Sys>, steps: seq<Step>)
    ensures DisciplinedRun(states, steps) && steps == [Ask(At(5), 100), AskRace(At(5), 10)]
    ensures 0 in states[1].db.work && states[1].db.work[0].priority == 100
    ensures 0 in states[2].db.work && states[2].db.work[0].priority == 10
  {
    states, steps := Begin();
    states, steps := GoOn(states, steps, Ask(At(5), 100));
    assert states[1].db.work == map[0 := FreshRow(At(5), 100, 0)];
    states, steps := GoOn(states, steps, AskRace(At(5), 10));
  }

  // ---- An answer ---------------------------------------------------------------------------------

  const ANSWER := Answer("Title", TokenMetric, [], 0, false, 0)

  /** Revision 5 was asked for and answered at time 0. */
  lemma FiveAnswered() returns (states: seq<Sys>, steps: seq<Step>)
    ensures DisciplinedRun(states, steps) && |steps| == 4
    ensures states[4] == Sys(Db(map[], 1, map[0 := ResultRow(At(5), ANSWER, 0)], 1), 0, map[], {0})
  {
    states, steps := Begin();
    states, steps := GoOn(states, steps, Ask(At(5), 100));
    assert states[1].db.work == map[0 := FreshRow(At(5), 100, 0)];
    states, steps := GoOn(states, steps, Step.Claim("worker", 0, 300));
    states, steps := GoOn(states, steps, Step.Save("worker", ANSWER, 0));
    states, steps := GoOn(states, steps, Step.Complete("worker"));
    assert states[4].db.work == map[];
    assert states[4].held == map[];
  }

  // ---- A stale answer that is not queued -------------------------------------------------------

  /** From empty tables: an answer of exactly the freshness window's age is stale, and asking for it queues nothing. */
  lemma StaleAnswerIsNotQueued(freshness: nat) returns (states: seq<Sys>, steps: seq<Step>)
    ensures DisciplinedRun(states, steps) && |steps| == 5
    ensures var s := states[5];
            && IsLatest(s.db.results, PAGE, 0) && !(s.db.results[0].computedAt + freshness > s.now)
            && s.db.work == map[] && EnqueueIfStale(s.db, s.now, At(5), 100, freshness) == s.db
  {
    states, steps := FiveAnswered();
    states, steps := GoOn(states, steps, Tick(freshness));
    assert states[5].db.results[0].key.page == PAGE;
  }

  // ---- A requeue that queues nothing -----------------------------------------------------------

  /**
   * From empty tables: revision 5 was answered any time ago, an older revision is asked for,
   * and the worker that finds the page at revision 5 leaves no work for it.
   */
  lemma RequeueQueuesNothing(age: nat) returns (states: seq<Sys>, steps: seq<Step>, pass: Pass)
    ensures DisciplinedRun(states, steps) && |steps| == 6
    ensures states[6].now == age && states[6].db.results == map[0 := ResultRow(At(5), ANSWER, 0)]
    ensures Possible(states[6].db, pass, _ => 5) && pass.outcome.Requeue? && pass.outcome.revision == 5
    ensures !Backed(RunPass(states[6].db, pass, 8).work, At(5))
  {
    states, steps := FiveAnswered();
    states, steps := GoOn(states, steps, Tick(age));
    states, steps := GoOn(states, steps, Ask(At(4), 100));
    var db := states[6].db;
    assert db.work == map[1 := FreshRow(At(4), 100, age)];
    pass := Pass(1, "worker", 300, age, age, Requeue(5, "moved on"));
    RunsKeepInv(states, steps, 6);
    RequeueBacks(db, pass, _ => 5, 8);
    assert db.work - {1} == map[];
    assert db.results[0].key == At(5);
  }

  // ---- A list reported as cut ------------------------------------------------------------------

  /** One member, a cap of one, and an empty last batch: nothing is missing, and the list is reported as cut. */
  method WholeListReportedAsCut() returns (members: seq<int>, truncated: bool)
    ensures members == Pagination.Joined([[7], []]) && truncated
  {
    assert [[7], []][..1] == [[7]];
    assert Pagination.Joined([[7]]) == [7] by { assert [[7]][..0] == []; }
    assert Pagination.Continued([[7], []]) == [[7]];
    assert Pagination.Joined([[7], []]) == [7];
    members, truncated := Pagination.CategoryMembers([[7], []], 1);
  }

  // ---- A title that changes ---------------------------------------------------------------------

  lemma UnderscoreIsNoBlankYet()
    ensures OptOutPage.Cleaned("_A") == " A"
  {
    OptOutPage.TrimPasses("", "_A", "");
    assert "" + "_A" + "" == "_A" && "" + "_A" == "_A";
    OptOutPage.SkipPasses("", "_A", OptOutPage.IsColon);
    assert OptOutPage.Spaced("_A") == " A";
  }

  lemma UnderscoreTarget()
    ensures OptOutPage.UpToStop(OptOutPage.Skip("_A]]", OptOutPage.IsSpace)) == "_A"
  {
    assert "" + "_A]]" == "_A]]" && "_A" + "]]" == "_A]]";
    OptOutPage.SkipPasses("", "_A]]", OptOutPage.IsSpace);
    OptOutPage.UpToStopPasses("_A", "]]");
  }

  /** The underscore becomes a blank after blanks are trimmed. */
  lemma UnderscoreBecomesALeadingBlank()
    ensures OptOutPage.ParseLine("* [[_A]]") == Some(" A") && !OptOutPage.IsTitle("_A")
  {
    assert "* [[_A]]" == "" + ("*" + (" " + ("[[" + "_A]]")));
    OptOutPage.BulletThenLink("", "*", " ", "_A]]");
    UnderscoreTarget();
    UnderscoreIsNoBlankYet();
    assert "_A"[0] == '_';
  }

  // ---- A lock read by half ------------------------------------------------------------------------

  /** The lock is found and its reason is not: the flag is stored, and the time of the check is not. */
  method HalfReadLockStoresTheFlag(block: AccountStanding, now: int) returns (record: StandingRecord, checked: bool)
    ensures record.standing.globallyLocked && record.lockCheckedAt.None? && !checked
  {
    record, checked := Standing.RefreshOne(1, None, block, true, Standing.ReasonFailed, now);
  }
}
