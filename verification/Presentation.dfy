/** What a ready answer shows (app.py): opt-outs drop every name, sanctions drop one, the count stays. */
module Presentation {
  import opened Options
  import opened Policy
  import opened WorkQueue
  import opened QueueRuns
  import Draining
  import opened Worker

  datatype Fields = Fields(contributors: seq<Contributor>, distinct: int, other: int, optedOut: bool)

  /** The rule as configured for one wiki at one moment. */
  datatype Rule = Rule(hide: bool, maxVisibleBlock: int, now: int, wording: Wording)

  predicate MayShow(contributor: Contributor, standing: int -> Option<AccountStanding>, rule: Rule) {
    IsNameable(standing(contributor.userId), rule.maxVisibleBlock, rule.now, rule.wording)
  }

  /** The contributors that may be shown, in stored order. */
  function Showable(contributors: seq<Contributor>, standing: int -> Option<AccountStanding>,
                    rule: Rule): seq<Contributor> {
    if contributors == [] then []
    else
      var last := contributors[|contributors| - 1];
      Showable(contributors[..|contributors| - 1], standing, rule) + if MayShow(last, standing, rule) then [last]
          else []
  }

  function Nameable(contributors: seq<Contributor>, standing: int -> Option<AccountStanding>,
                    rule: Rule): seq<Contributor> {
    if !rule.hide || contributors == [] then contributors else Showable(contributors, standing, rule)
  }

  function AttributionFields(answer: Answer, optedOut: bool, standing: int -> Option<AccountStanding>,
                             rule: Rule): Fields {
    var contributors := if optedOut then [] else Nameable(answer.contributors, standing, rule);
    Fields(contributors, answer.distinct, Max(0, answer.distinct - |contributors|), optedOut)
  }

  /** `part` is `whole` with some elements left out. */
  ghost predicate Subsequence<X>(part: seq<X>, whole: seq<X>) {
    exists at: seq<int> ::
      && |at| == |part|
      && (forall i :: 0 <= i < |at| ==> 0 <= at[i] < |whole| && whole[at[i]] == part[i])
      && (forall i, j :: 0 <= i < j < |at| ==> at[i] < at[j])
  }

  lemma {:induction false} SubsequenceGrows<X>(part: seq<X>, whole: seq<X>, x: X)
    requires Subsequence(part, whole)
    ensures Subsequence(part, whole + [x])
    ensures Subsequence(part + [x], whole + [x])
  {
    var at: seq<int> :| |at| == |part|
                        && (forall i :: 0 <= i < |at| ==> 0 <= at[i] < |whole| && whole[at[i]] == part[i])
                        && (forall i, j :: 0 <= i < j < |at| ==> at[i] < at[j]);
    assert Subsequence(part, whole + [x]) by {
      assert forall i :: 0 <= i < |at| ==> 0 <= at[i] < |whole + [x]| && (whole + [x])[at[i]] == part[i];
    }
    var more := at + [|whole|];
    assert |more| == |part + [x]|;
    assert forall i :: 0 <= i < |more| ==> 0 <= more[i] < |whole + [x]| && (whole + [x])[more[i]] == (part + [x])[i];
  }

  lemma EmptyIsSubsequence<X>()
    ensures Subsequence<X>([], [])
  {
    var none: seq<X> := [];
    var at: seq<int> := [];
    assert |at| == |none|;
  }

  /** Relaxing the rule, or letting time pass, only ever adds names back, in their stored places. */
  lemma {:induction false} RelaxingNeverDropsNames(contributors: seq<Contributor>,
                                                   standing: int -> Option<AccountStanding>, strict: Rule, lax: Rule)
    requires strict.wording == lax.wording && strict.maxVisibleBlock <= lax.maxVisibleBlock && strict.now <= lax.now
    ensures Subsequence(Showable(contributors, standing, strict), Showable(contributors, standing, lax))
    ensures Subsequence(Showable(contributors, standing, lax), contributors)
  {
    if contributors == [] {
      EmptyIsSubsequence<Contributor>();
    } else {
      var n := |contributors| - 1;
      var last := contributors[n];
      RelaxingNeverDropsNames(contributors[..n], standing, strict, lax);
      assert contributors == contributors[..n] + [last];
      SubsequenceGrows(Showable(contributors[..n], standing, strict), Showable(contributors[..n], standing, lax), last);
      SubsequenceGrows(Showable(contributors[..n], standing, lax), contributors[..n], last);
      if MayShow(last, standing, strict) {
        NameabilityOnlyGrows(standing(last.userId), strict.maxVisibleBlock, lax.maxVisibleBlock, strict.now, lax.now,
                             strict.wording);
      }
    }
  }

  lemma {:induction false} ShowableMembers(contributors: seq<Contributor>, standing: int -> Option<AccountStanding>,
                                           rule: Rule, c: Contributor)
    ensures c in Showable(contributors, standing, rule) <==> c in contributors && MayShow(c, standing, rule)
    ensures |Showable(contributors, standing, rule)| <= |contributors|
  {
    if contributors != [] {
      assert contributors == contributors[..|contributors| - 1] + [contributors[|contributors| - 1]];
      ShowableMembers(contributors[..|contributors| - 1], standing, rule, c);
    }
  }

  /**
   * Nothing is lost in the count: for a stored answer, whatever the opt-out list, the
   * standings and the rule say, the names shown and the others add up to the distinct
   * contributors, and a name is shown exactly when it is stored, the article is not opted
   * out, and the rule is off or lets it pass.
   */
  lemma ShownAndOthersAddUp(answer: Answer, optedOut: bool, standing: int -> Option<AccountStanding>, rule: Rule,
                            c: Contributor)
    requires answer.distinct >= |answer.contributors|
    ensures var fields := AttributionFields(answer, optedOut, standing, rule);
            && |fields.contributors| + fields.other == fields.distinct == answer.distinct
            && (c in fields.contributors
                <==> !optedOut && c in answer.contributors && (!rule.hide || MayShow(c, standing, rule)))
  {
    ShowableMembers(answer.contributors, standing, rule, c);
  }

  // ---- Every stored answer, in every run --------------------------------------------------

  /** Some reaction of the upstreams makes a worker with this lease store the answer. */
  ghost predicate Computed(settings: Settings, lease: WorkLease, answer: Answer) {
    exists up :: ProcessOutcome(settings, lease, up) == Draining.Outcome.Store(answer)
  }

  /** What a step stores, a worker has computed for the row it holds. */
  ghost predicate StoresComputed(settings: Settings, s: Sys, step: Step) {
    step.Save? && step.worker in s.held ==> Computed(settings, s.held[step.worker].lease, step.answer)
  }

  ghost predicate RowsOk(s: Sys, settings: Settings) {
    forall id :: id in s.db.results ==> AnswerOk(s.db.results[id].answer, settings.minimumTokens, settings.minimumShare)
  }

  lemma ComputedIsOk(settings: Settings, lease: WorkLease, answer: Answer)
    requires Computed(settings, lease, answer)
    ensures AnswerOk(answer, settings.minimumTokens, settings.minimumShare)
  {
    var up :| ProcessOutcome(settings, lease, up) == Draining.Outcome.Store(answer);
    StoredAnswersAreOk(settings, lease, up);
  }

  lemma StepKeepsRowsOk(s: Sys, step: Step, settings: Settings)
    requires Enabled(s, step) && StoresComputed(settings, s, step) && RowsOk(s, settings)
    ensures RowsOk(Apply(s, step), settings)
  {
    var t := Apply(s, step);
    if step.Save? {
      ComputedIsOk(settings, s.held[step.worker].lease, step.answer);
    }
    forall id | id in t.db.results
      ensures AnswerOk(t.db.results[id].answer, settings.minimumTokens, settings.minimumShare)
    {
      assert (id in s.db.results && t.db.results[id] == s.db.results[id])
          || (step.Save? && t.db.results[id].answer == step.answer);
    }
  }

  /**
   * In every state of every run in which workers store what they compute from whatever the
   * upstreams say, every stored row has at least as many distinct contributors as names,
   * and token names rest on evidence.
   */
  lemma {:induction false} StoredRowsAreOk(states: seq<Sys>, steps: seq<Step>, n: nat, settings: Settings)
    requires IsRun(states, steps) && Initial(states[0]) && n < |states|
    requires forall i :: 0 <= i < |steps| ==> StoresComputed(settings, states[i], steps[i])
    ensures RowsOk(states[n], settings)
  {
    if n > 0 {
      StoredRowsAreOk(states, steps, n - 1, settings);
      assert Taken(states, steps, n - 1) && StoresComputed(settings, states[n - 1], steps[n - 1]);
      StepKeepsRowsOk(states[n - 1], steps[n - 1], settings);
    }
  }

  /** So whatever row a ready answer is built from, its shown names and its others add up. */
  lemma EveryStoredRowAddsUp(states: seq<Sys>, steps: seq<Step>, n: nat, settings: Settings, id: nat,
                             optedOut: bool, standing: int -> Option<AccountStanding>, rule: Rule)
    requires IsRun(states, steps) && Initial(states[0]) && n < |states| && id in states[n].db.results
    requires forall i :: 0 <= i < |steps| ==> StoresComputed(settings, states[i], steps[i])
    ensures var fields := AttributionFields(states[n].db.results[id].answer, optedOut, standing, rule);
            |fields.contributors| + fields.other == fields.distinct == states[n].db.results[id].answer.distinct
  {
    StoredRowsAreOk(states, steps, n, settings);
    ShownAndOthersAddUp(states[n].db.results[id].answer, optedOut, standing, rule, Contributor(0, "", 0, 0.0));
  }
}
