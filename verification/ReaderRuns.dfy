/** Runs of readers beside workers: a promise nobody keeps, and the answers that are served. */
module ReaderRuns {
  import opened Options
  import opened Policy
  import opened WorkQueue
  import opened QueueRuns
  import opened QueueSafety
  import opened Requests
  import Draining
  import Endpoints
  import opened Worker
  import opened Presentation

  // ---- A run in which a 202 has nothing behind it --------------------------------------

  /** Workers act within their leases. */
  ghost predicate DisciplinedWorld(worlds: seq<World>, events: seq<Event>) {
    && IsWorldRun(worlds, events)
    && forall i :: 0 <= i < |events| ==> events[i].Other? ==> Disciplined(worlds[i].sys, events[i].step)
  }

  lemma Happens(worlds: seq<World>, events: seq<Event>, e: Event) returns (more: seq<World>, longer: seq<Event>)
    requires DisciplinedWorld(worlds, events) && Can(worlds[|events|], e)
    requires e.Other? ==> Disciplined(worlds[|events|].sys, e.step)
    ensures DisciplinedWorld(more, longer)
    ensures more == worlds + [Follow(worlds[|events|], e)] && longer == events + [e]
  {
    more, longer := worlds + [Follow(worlds[|events|], e)], events + [e];
    forall i | 0 <= i < |longer|
      ensures Moved(more, longer, i) && (longer[i].Other? ==> Disciplined(more[i].sys, longer[i].step))
    {
      if i < |events| {
        assert Moved(worlds, events, i);
        assert more[i] == worlds[i] && more[i + 1] == worlds[i + 1] && longer[i] == events[i];
      }
    }
  }

  /** A worker holds the only row. */
  predicate WorkerHolds(s: Sys, key: Key) {
    && s.db.work.Keys == {0} && s.db.work[0].key == key && s.db.work[0].state.Leased?
    && s.db.work[0].attempts == 1 && s.db.results == map[] && s.now == 0
    && s.held.Keys == {"worker"} && s.held["worker"] == Held(LeaseOf(0, s.db.work[0]), 300, false)
  }

  lemma WorkerTakesRow(key: Key) returns (worlds: seq<World>, events: seq<Event>)
    ensures DisciplinedWorld(worlds, events) && |events| == 2
    ensures WorkerHolds(worlds[2].sys, key) && worlds[2].gets == map[]
  {
    worlds, events := [World(Start(), map[])], [];
    worlds, events := Happens(worlds, events, Other(Ask(key, 100)));
    assert worlds[1].sys.db.work == map[0 := FreshRow(key, 100, 0)];
    worlds, events := Happens(worlds, events, Other(QueueRuns.Step.Claim("worker", 0, 300)));
  }

  /** A request for the row arrives and finds no answer. */
  lemma LeasedRowRun(key: Key) returns (worlds: seq<World>, events: seq<Event>)
    ensures DisciplinedWorld(worlds, events) && |events| == 5
    ensures WorkerHolds(worlds[5].sys, key) && worlds[5].gets == map[0 := Get(key, Exact, None, 0, Checking, {})]
  {
    worlds, events := WorkerTakesRow(key);
    worlds, events := Happens(worlds, events, Arrive(0, key, Exact));
    worlds, events := Happens(worlds, events, Miss(0));
    worlds, events := Happens(worlds, events, Look(0, Some(0), 0));
  }

  /**
   * From empty tables, with the worker inside its lease: the reader sees the row leased, the
   * worker fails it for good, and the reader is told 202 with no job, no answer and no
   * superseded row behind it.
   */
  lemma PromiseNobodyKeeps(key: Key) returns (worlds: seq<World>, events: seq<Event>)
    ensures DisciplinedWorld(worlds, events) && |events| == 8
    ensures 0 in worlds[8].gets && worlds[8].gets[0].stage == Done(Promised)
    ensures !Draining.Backed(worlds[8].sys.db.work, key) && worlds[8].sys.db.results == map[]
    ensures worlds[8].sys.db.work.Keys == {0} && worlds[8].sys.db.work[0].state.Dead?
            && worlds[8].sys.db.work[0].isPermanent
  {
    worlds, events := LeasedRowRun(key);
    worlds, events := Happens(worlds, events,
                              Other(QueueRuns.Step.Fail("worker", Failure("invalid_page", "", true), 8)));
    worlds, events := Happens(worlds, events, Check(0));
    assert HasWork(worlds[7].sys.db.work, key);
    worlds, events := Happens(worlds, events, Put(0));
  }

  // ---- A run in which a permanent failure is queued again -----------------------------------

  /** The only row is dead, not for good, and ripe; nobody is at work. */
  predicate RipeDeadRow(s: Sys, key: Key, deadRetry: int) {
    && s.db.work.Keys == {0} && s.db.work[0].key == key && s.db.results == map[] && s.held == map[]
    && Endpoints.Ripe(s.db.work[0], s.now, deadRetry)
  }

  lemma FailedOnceWorld(key: Key, deadRetry: nat) returns (worlds: seq<World>, events: seq<Event>)
    ensures DisciplinedWorld(worlds, events) && |events| == 4
    ensures RipeDeadRow(worlds[4].sys, key, deadRetry) && worlds[4].gets == map[]
  {
    worlds, events := WorkerTakesRow(key);
    var failure := Failure("upstream_unavailable", "", false);
    assert worlds[2].sys.held.Keys == {"worker"};
    worlds, events := Happens(worlds, events, Other(QueueRuns.Step.Fail("worker", failure, 1)));
    assert worlds[3].gets == map[] && worlds[3].sys.held == map[];
    worlds, events := Happens(worlds, events, Other(QueueRuns.Step.Tick(deadRetry)));
    assert worlds[4].gets == map[];
  }

  /** One more request arrives, finds no answer, and sees the row ripe. */
  lemma ReaderLooks(worlds: seq<World>, events: seq<Event>, key: Key, deadRetry: int, r: nat)
    returns (more: seq<World>, longer: seq<Event>)
    requires DisciplinedWorld(worlds, events)
    requires RipeDeadRow(worlds[|events|].sys, key, deadRetry) && r !in worlds[|events|].gets
    ensures DisciplinedWorld(more, longer) && |longer| == |events| + 3
    ensures longer == events + [Arrive(r, key, Exact), Miss(r), Look(r, Some(0), deadRetry)]
    ensures more[|longer|] == World(worlds[|events|].sys,
                                    worlds[|events|].gets[r := Get(key, Exact, None, 0, Reviving(0), {})])
  {
    more, longer := Happens(worlds, events, Arrive(r, key, Exact));
    more, longer := Happens(more, longer, Miss(r));
    more, longer := Happens(more, longer, Look(r, Some(0), deadRetry));
    assert longer == events + [Arrive(r, key, Exact), Miss(r), Look(r, Some(0), deadRetry)];
    assert more[|longer|].gets == worlds[|events|].gets[r := Get(key, Exact, None, 0, Reviving(0), {})];
  }

  lemma TwoReadersLook(key: Key, deadRetry: nat) returns (worlds: seq<World>, events: seq<Event>)
    ensures DisciplinedWorld(worlds, events) && |events| == 10
    ensures RipeDeadRow(worlds[10].sys, key, deadRetry)
    ensures var looked := Get(key, Exact, None, 0, Reviving(0), {}); worlds[10].gets == map[0 := looked, 1 := looked]
  {
    worlds, events := FailedOnceWorld(key, deadRetry);
    worlds, events := ReaderLooks(worlds, events, key, deadRetry, 0);
    worlds, events := ReaderLooks(worlds, events, key, deadRetry, 1);
  }

  /** The first reader revives the row and a worker takes it. */
  lemma FirstReaderRevives(key: Key, deadRetry: nat) returns (worlds: seq<World>, events: seq<Event>)
    ensures DisciplinedWorld(worlds, events) && |events| == 12
    ensures var s := worlds[12].sys;
            && s.db.work.Keys == {0} && s.db.work[0].state.Leased?
            && "worker" in s.held && s.held["worker"].lease.id == 0 && s.now <= s.held["worker"].until
    ensures 1 in worlds[12].gets && worlds[12].gets[1].stage == Reviving(0)
  {
    worlds, events := TwoReadersLook(key, deadRetry);
    worlds, events := Happens(worlds, events, Revival(0));
    assert Claimable(worlds[11].sys.db.work[0], worlds[11].sys.now);
    worlds, events := Happens(worlds, events, Other(QueueRuns.Step.Claim("worker", 0, 300)));
  }

  /**
   * From empty tables, with every worker inside its lease and both readers past the
   * endpoint's own guard: the first reader revives the row, a worker fails it for good, and
   * the second reader's revival queues the permanent failure again.
   */
  lemma TwoReadersReviveAPermanentFailure(key: Key, deadRetry: nat) returns (worlds: seq<World>, events: seq<Event>)
    ensures DisciplinedWorld(worlds, events) && |events| == 14 && events[13] == Revival(1)
    ensures 0 in worlds[13].sys.db.work && worlds[13].sys.db.work[0].state.Dead?
            && worlds[13].sys.db.work[0].isPermanent
    ensures 0 in worlds[14].sys.db.work && worlds[14].sys.db.work[0].state.Pending?
  {
    worlds, events := FirstReaderRevives(key, deadRetry);
    worlds, events := Happens(worlds, events,
                              Other(QueueRuns.Step.Fail("worker", Failure("invalid_page", "", true), 1)));
    worlds, events := Happens(worlds, events, Revival(1));
  }

  // ---- What is served ---------------------------------------------------------------------

  /** A request is refused exactly when it has nothing to serve and finds the row dead, for good or not yet ripe. */
  lemma RefusedIff(w: World, e: Event)
    requires WorldOk(w) && Can(w, e) && e.Look?
    ensures NextGet(w, e).stage == Done(Refused)
            <==> w.gets[e.r].stale.None? && Endpoints.Refuses(w.sys.db, w.sys.now, w.gets[e.r].key, e.deadRetry)
  {
    if e.seen.Some? {
      assert forall id :: id in w.sys.db.work && w.sys.db.work[id].key == w.gets[e.r].key ==> id == e.seen.value;
    }
  }

  ghost predicate ServesOk(get: Get, settings: Settings) {
    && (get.stale.Some? ==> AnswerOk(get.stale.value.answer, settings.minimumTokens, settings.minimumShare))
    && (get.stage.Done? && get.stage.reply.Served? ==>
          AnswerOk(get.stage.reply.row.answer, settings.minimumTokens, settings.minimumShare))
  }

  ghost predicate AnswersOk(w: World, settings: Settings) {
    RowsOk(w.sys, settings) && forall r :: r in w.gets ==> ServesOk(w.gets[r], settings)
  }

  lemma EventKeepsAnswersOk(w: World, e: Event, settings: Settings)
    requires Can(w, e) && AnswersOk(w, settings) && (e.Other? ==> StoresComputed(settings, w.sys, e.step))
    ensures AnswersOk(Follow(w, e), settings)
  {
    var v := Follow(w, e);
    if StepOf(w, e).Some? {
      StepKeepsRowsOk(w.sys, StepOf(w, e).value, settings);
    }
    forall r | r in v.gets
      ensures ServesOk(v.gets[r], settings)
    {
      if r in w.gets {
        assert ServesOk(w.gets[r], settings);
      }
    }
  }

  lemma {:induction false} WorldsAnswerOk(worlds: seq<World>, events: seq<Event>, n: nat, settings: Settings)
    requires IsWorldRun(worlds, events) && n < |worlds|
    requires forall i :: 0 <= i < |events| ==> events[i].Other? ==>
             StoresComputed(settings, worlds[i].sys, events[i].step)
    ensures AnswersOk(worlds[n], settings)
  {
    if n > 0 {
      WorldsAnswerOk(worlds, events, n - 1, settings);
      assert Moved(worlds, events, n - 1);
      EventKeepsAnswersOk(worlds[n - 1], events[n - 1], settings);
    }
  }

  /**
   * In every run in which workers store what they compute, every answer either endpoint
   * serves has as many contributors shown and hidden together as the article has, whatever
   * the opt-out list, the standings and the rule say when it is built, and names nobody who
   * is not in the stored row.
   */
  lemma EveryServedAnswerAddsUp(worlds: seq<World>, events: seq<Event>, n: nat, settings: Settings, r: nat,
                                optedOut: bool, standing: int -> Option<AccountStanding>, rule: Rule, c: Contributor)
    requires IsWorldRun(worlds, events) && n < |worlds|
    requires forall i :: 0 <= i < |events| ==> events[i].Other? ==>
             StoresComputed(settings, worlds[i].sys, events[i].step)
    requires r in worlds[n].gets && worlds[n].gets[r].stage.Done? && worlds[n].gets[r].stage.reply.Served?
    ensures var answer := worlds[n].gets[r].stage.reply.row.answer;
            var fields := AttributionFields(answer, optedOut, standing, rule);
            && |fields.contributors| + fields.other == fields.distinct == answer.distinct
            && (c in fields.contributors ==> c in answer.contributors && !optedOut)
            && AnswerOk(answer, settings.minimumTokens, settings.minimumShare)
  {
    WorldsAnswerOk(worlds, events, n, settings);
    assert ServesOk(worlds[n].gets[r], settings);
    ShownAndOthersAddUp(worlds[n].gets[r].stage.reply.row.answer, optedOut, standing, rule, c);
  }
}
