/** The two loops that execute a plan: the command line's and the terminal interface's. */
module PlanExec {
  import opened Seqs
  import opened Text
  import opened Plan
  import opened Review

  const REGRESSION: string := "no step undid another step's work (no regression introduced)"
  const SEPARATOR: string := "\n\n---\n\n"

  datatype Ran = Ran(output: string, model: string)

  /** What routing and running the step at a position comes to; None is an error. */
  type Executor = (nat, Step) -> Option<Ran>

  // ------------------------------------------------------------ what a plan needs to be accepted

  function StepQuery(s: Step, ran: Ran): Query {
    Query(ForStep(s.task, s.kind, s.risk), SplitCriteria(s.successCriteria), ran.output, ran.model)
  }

  ghost predicate StepPasses(exec: Executor, reviewer: Reviewer, steps: seq<Step>, i: nat)
    requires i < |steps|
  {
    var ran := exec(i, steps[i]);
    && ran.Some?
    && (|SplitCriteria(steps[i].successCriteria)| == 0 || Passes(reviewer, StepQuery(steps[i], ran.value)))
  }

  function AllCriteria(steps: seq<Step>): seq<string> {
    if |steps| == 0 then []
    else AllCriteria(steps[..|steps| - 1]) + SplitCriteria(steps[|steps| - 1].successCriteria)
  }

  function OutputOf(ran: Option<Ran>): seq<string> {
    if ran.Some? then [ran.value.output] else []
  }

  function Outputs(exec: Executor, steps: seq<Step>): seq<string> {
    if |steps| == 0 then []
    else Outputs(exec, steps[..|steps| - 1]) + OutputOf(exec(|steps| - 1, steps[|steps| - 1]))
  }

  function Combined(outputs: seq<string>): string {
    if |outputs| == 0 then ""
    else if |outputs| == 1 then outputs[0]
    else outputs[0] + SEPARATOR + Combined(outputs[1..])
  }

  /** The final review of a plan whose steps all passed. */
  function FinalQuery(exec: Executor, p: Plan): Query {
    Query(ForPlan(p.title, |p.steps|), AllCriteria(p.steps) + [REGRESSION], Combined(Outputs(exec, p.steps)), "")
  }

  ghost predicate AllPass(exec: Executor, reviewer: Reviewer, steps: seq<Step>) {
    forall i: nat :: i < |steps| ==> StepPasses(exec, reviewer, steps, i)
  }

  ghost predicate FinalPasses(exec: Executor, reviewer: Reviewer, p: Plan) {
    |AllCriteria(p.steps)| == 0 || Passes(reviewer, FinalQuery(exec, p))
  }

  function FinalAsked(exec: Executor, p: Plan): Option<Query> {
    if |AllCriteria(p.steps)| == 0 then None else Some(FinalQuery(exec, p))
  }

  lemma StepTaken(exec: Executor, steps: seq<Step>, i: nat)
    requires i < |steps|
    ensures AllCriteria(steps[..i + 1]) == AllCriteria(steps[..i]) + SplitCriteria(steps[i].successCriteria)
    ensures Outputs(exec, steps[..i + 1]) == Outputs(exec, steps[..i]) + OutputOf(exec(i, steps[i]))
  {
    hide SplitCriteria;
    assert steps[..i + 1][..i] == steps[..i];
  }

  /** Once every step has passed, there is an output for the final review to read. */
  lemma {:induction false} OutputsOfPassing(exec: Executor, reviewer: Reviewer, steps: seq<Step>)
    requires AllPass(exec, reviewer, steps)
    ensures |Outputs(exec, steps)| == |steps|
  {
    hide SplitCriteria, Passes;
    if |steps| > 0 {
      var front := steps[..|steps| - 1];
      assert forall i: nat :: i < |front| ==>
        (StepPasses(exec, reviewer, front, i) <==> StepPasses(exec, reviewer, steps, i));
      OutputsOfPassing(exec, reviewer, front);
      assert StepPasses(exec, reviewer, steps, |steps| - 1);
    }
  }

  // ------------------------------------------------------------ the command line

  /** handleStepFailure; answers says where a user at a terminal would type y. */
  predicate GoesOn(mode: string, answers: nat -> bool, i: nat) {
    mode == "continue" || (mode != "abort" && answers(i))
  }

  /** accepted is exit status 0, attempted the number of steps begun, final the final review asked for. */
  datatype Report = Report(accepted: bool, attempted: nat, outputs: seq<string>, final: Option<Query>)

  ghost predicate CliAccepts(exec: Executor, reviewer: Reviewer, p: Plan, mode: string, answers: nat -> bool) {
    if AllPass(exec, reviewer, p.steps) then FinalPasses(exec, reviewer, p)
    else
      && mode != "continue"
      && forall i: nat :: i < |p.steps| && !StepPasses(exec, reviewer, p.steps, i) ==> GoesOn(mode, answers, i)
  }

  /** The steps are begun in order, up to the first failure that is not gone on from. */
  ghost predicate StopsAtFailure(
    exec: Executor, reviewer: Reviewer, steps: seq<Step>, mode: string, answers: nat -> bool, attempted: nat)
  {
    && attempted <= |steps|
    && (forall i: nat :: i + 1 < attempted ==> StepPasses(exec, reviewer, steps, i) || GoesOn(mode, answers, i))
    && (attempted < |steps| ==>
         && attempted > 0
         && !StepPasses(exec, reviewer, steps, attempted - 1)
         && !GoesOn(mode, answers, attempted - 1))
  }

  method RunStep(exec: Executor, reviewer: Reviewer, steps: seq<Step>, i: nat) returns (ran: Option<Ran>, passed: bool)
    requires i < |steps|
    ensures ran == exec(i, steps[i])
    ensures passed <==> StepPasses(exec, reviewer, steps, i)
  {
    hide SplitCriteria, Passes;
    ran := exec(i, steps[i]);
    if ran.None? {
      return ran, false;
    }
    var criteria := SplitCriteria(steps[i].successCriteria);
    if |criteria| == 0 {
      return ran, true;
    }
    var outcome := ReviewOutput(reviewer, StepQuery(steps[i], ran.value));
    passed := outcome == Reviewed(true);
  }

  method FinalReview(reviewer: Reviewer, p: Plan, criteria: seq<string>, outputs: seq<string>, failed: seq<nat>)
    returns (final: Option<Query>, ok: bool)
    ensures final == if |criteria| > 0 && |outputs| > 0 && |failed| == 0
                     then Some(Query(ForPlan(p.title, |p.steps|), criteria + [REGRESSION], Combined(outputs), "")) else None
    ensures ok <==> final.None? || Passes(reviewer, final.value)
  {
    hide Passes, Combined;
    if |criteria| > 0 && |outputs| > 0 && |failed| == 0 {
      var q := Query(ForPlan(p.title, |p.steps|), criteria + [REGRESSION], Combined(outputs), "");
      var outcome := ReviewOutput(reviewer, q);
      return Some(q), outcome == Reviewed(true);
    }
    return None, true;
  }

  method CmdExec(exec: Executor, reviewer: Reviewer, p: Plan, mode: string, answers: nat -> bool) returns (report: Report)
    ensures report.accepted <==> Valid(p) && CliAccepts(exec, reviewer, p, mode, answers)
    ensures report.final == if Valid(p) && AllPass(exec, reviewer, p.steps) then FinalAsked(exec, p) else None
    ensures Valid(p) ==> StopsAtFailure(exec, reviewer, p.steps, mode, answers, report.attempted)
    ensures Valid(p) ==> report.outputs == Outputs(exec, p.steps[..report.attempted])
    ensures !Valid(p) ==> report.attempted == 0 && report.outputs == []
  {
    hide Violates, StepPasses, AllCriteria, Outputs, FinalPasses, SplitCriteria, Passes, Combined;
    var violations := ValidatePlan(p);
    if |violations| > 0 {
      assert Violates(p, violations[0]);
      return Report(false, 0, [], None);
    }
    assert Valid(p);
    var failed: seq<nat> := [];
    var allOutputs, allCriteria := [], [];
    assert p.steps[..0] == [];
    NothingYet(exec);
    for i := 0 to |p.steps|
      invariant |failed| == 0 <==> forall k: nat :: k < i ==> StepPasses(exec, reviewer, p.steps, k)
      invariant forall k: nat :: k < i && !StepPasses(exec, reviewer, p.steps, k) ==> GoesOn(mode, answers, k)
      invariant allOutputs == Outputs(exec, p.steps[..i])
      invariant allCriteria == AllCriteria(p.steps[..i])
    {
      StepTaken(exec, p.steps, i);
      allCriteria := allCriteria + SplitCriteria(p.steps[i].successCriteria);
      var ran, passed := RunStep(exec, reviewer, p.steps, i);
      allOutputs := allOutputs + OutputOf(ran);
      if !passed {
        failed := failed + [i + 1];
        if !GoesOn(mode, answers, i) {
          return Report(false, i + 1, allOutputs, None);
        }
      }
    }
    assert p.steps[..|p.steps|] == p.steps;
    Closing(exec, reviewer, p);
    var final, ok := FinalReview(reviewer, p, allCriteria, allOutputs, failed);
    var accepted := ok && !(mode == "continue" && |failed| > 0);
    report := Report(accepted, |p.steps|, allOutputs, final);
  }

  lemma NothingYet(exec: Executor)
    ensures Outputs(exec, []) == [] && AllCriteria([]) == []
  {
  }

  /** With every step passed, the test for a final review comes down to the criteria. */
  lemma Closing(exec: Executor, reviewer: Reviewer, p: Plan)
    ensures AllPass(exec, reviewer, p.steps) && |AllCriteria(p.steps)| > 0 ==> |Outputs(exec, p.steps)| > 0
    ensures FinalPasses(exec, reviewer, p) <==> FinalAsked(exec, p).None? || Passes(reviewer, FinalAsked(exec, p).value)
  {
    hide Passes, StepPasses, SplitCriteria;
    if AllPass(exec, reviewer, p.steps) {
      OutputsOfPassing(exec, reviewer, p.steps);
    }
  }

  // ------------------------------------------------------------ the terminal interface

  predicate TuiMode(mode: string) {
    mode == "" || mode == "auto" || mode == "abort" || mode == "continue"
  }

  ghost predicate TuiAccepts(exec: Executor, reviewer: Reviewer, p: Plan, mode: string, cancelled: nat -> bool) {
    && TuiMode(mode)
    && (forall i: nat :: i < |p.steps| ==> !cancelled(i))
    && AllPass(exec, reviewer, p.steps)
    && FinalPasses(exec, reviewer, p)
  }

  /** cancelled says whether the context is done when the loop comes to a step. */
  method RunTuiExec(exec: Executor, reviewer: Reviewer, p: Plan, mode: string, cancelled: nat -> bool)
    returns (report: Report)
    ensures report.accepted <==> Valid(p) && TuiAccepts(exec, reviewer, p, mode, cancelled)
    ensures report.accepted ==> report.attempted == |p.steps| && report.final == FinalAsked(exec, p)
    ensures (Valid(p) && TuiMode(mode) && AllPass(exec, reviewer, p.steps) && forall i: nat :: i < |p.steps| ==> !cancelled(i))
            ==> report.final == FinalAsked(exec, p)
    ensures report.final.Some? ==> Valid(p) && AllPass(exec, reviewer, p.steps) && report.final == FinalAsked(exec, p)
    ensures report.attempted <= |p.steps| && report.outputs == Outputs(exec, p.steps[..report.attempted])
  {
    hide Violates, StepPasses, AllCriteria, Outputs, FinalPasses, SplitCriteria, Passes, Combined;
    NothingYet(exec);
    assert p.steps[..0] == [];
    var violations := ValidatePlan(p);
    if |violations| > 0 {
      assert Violates(p, violations[0]);
      return Report(false, 0, [], None);
    }
    assert Valid(p);
    var failureMode := if mode == "" || mode == "auto" then "abort" else mode;
    if failureMode != "abort" && failureMode != "continue" {
      return Report(false, 0, [], None);
    }
    var failed: seq<nat> := [];
    var outputs, allCriteria := [], [];
    for i := 0 to |p.steps|
      invariant |failed| == 0 <==> forall k: nat :: k < i ==> StepPasses(exec, reviewer, p.steps, k)
      invariant forall k: nat :: k < i ==> !cancelled(k)
      invariant outputs == Outputs(exec, p.steps[..i])
      invariant |failed| == 0 ==> allCriteria == AllCriteria(p.steps[..i])
    {
      if cancelled(i) {
        return Report(false, i, outputs, None);
      }
      StepTaken(exec, p.steps, i);
      var ran, passed := RunStep(exec, reviewer, p.steps, i);
      outputs := outputs + OutputOf(ran);
      if ran.Some? {
        allCriteria := allCriteria + SplitCriteria(p.steps[i].successCriteria);
      }
      if !passed {
        failed := failed + [i + 1];
        if failureMode != "continue" {
          return Report(false, i + 1, outputs, None);
        }
      } else {
        assert ran.Some? by { Ranned(exec, reviewer, p.steps, i); }
      }
    }
    assert p.steps[..|p.steps|] == p.steps;
    Closing(exec, reviewer, p);
    var final, ok := FinalReview(reviewer, p, allCriteria, outputs, failed);
    report := Report(ok && |failed| == 0, |p.steps|, outputs, final);
  }

  lemma Ranned(exec: Executor, reviewer: Reviewer, steps: seq<Step>, i: nat)
    requires i < |steps| && StepPasses(exec, reviewer, steps, i)
    ensures exec(i, steps[i]).Some?
  {
  }

  /** The terminal interface knows four modes, and three of them are one. */
  lemma TuiModesAgree(exec: Executor, reviewer: Reviewer, p: Plan, mode: string, cancelled: nat -> bool)
    ensures TuiAccepts(exec, reviewer, p, mode, cancelled)
            <==> mode in {"", "auto", "abort", "continue"} && TuiAccepts(exec, reviewer, p, "abort", cancelled)
  {
  }

  // ------------------------------------------------------------ both

  /** In the modes both know, uncancelled, they accept the same plans. */
  lemma ExecutorsAgree(
    exec: Executor, reviewer: Reviewer, p: Plan, mode: string, answers: nat -> bool, cancelled: nat -> bool)
    requires mode == "abort" || mode == "continue"
    requires forall i: nat :: i < |p.steps| ==> !cancelled(i)
    ensures CliAccepts(exec, reviewer, p, mode, answers) <==> TuiAccepts(exec, reviewer, p, mode, cancelled)
  {
    hide StepPasses, FinalPasses;
    if !AllPass(exec, reviewer, p.steps) {
      var i: nat :| i < |p.steps| && !StepPasses(exec, reviewer, p.steps, i);
      assert mode == "abort" ==> !GoesOn(mode, answers, i);
    }
  }

  ghost predicate AllAnswered(exec: Executor, reviewer: Reviewer, p: Plan, answers: nat -> bool) {
    forall i: nat :: i < |p.steps| && !StepPasses(exec, reviewer, p.steps, i) ==> answers(i)
  }

  /** When the command line exits with status 0 though a step failed: exactly when it asks, and is always told to go on. */
  lemma FailureIsAcceptedExactlyWhenAsked(exec: Executor, reviewer: Reviewer, p: Plan, mode: string, answers: nat -> bool)
    requires !AllPass(exec, reviewer, p.steps)
    ensures CliAccepts(exec, reviewer, p, mode, answers)
            <==> mode != "abort" && mode != "continue" && AllAnswered(exec, reviewer, p, answers)
  {
    hide StepPasses;
    var i: nat :| i < |p.steps| && !StepPasses(exec, reviewer, p.steps, i);
    assert mode == "abort" ==> !GoesOn(mode, answers, i);
    if mode != "abort" && mode != "continue" {
      assert forall k: nat :: GoesOn(mode, answers, k) <==> answers(k);
    }
  }

  /** The reviewer named this criterion and reported it met. */
  ghost predicate ReportedMet(reviewer: Reviewer, q: Query, c: nat)
    requires c < |q.criteria|
  {
    && reviewer(q).Some?
    && c < |reviewer(q).value.criteria|
    && reviewer(q).value.criteria[c].met
    && Trim(reviewer(q).value.criteria[c].criterion) == Trim(q.criteria[c])
  }

  lemma PassingMeansReported(reviewer: Reviewer, q: Query)
    requires Passes(reviewer, q)
    ensures forall c: nat :: c < |q.criteria| ==> ReportedMet(reviewer, q, c)
  {
    hide Trim;
  }

  /** One of the two loops accepts the plan, and does not ask whether to go on after a failure. */
  ghost predicate AcceptedUnasked(
    exec: Executor, reviewer: Reviewer, p: Plan, mode: string, answers: nat -> bool, cancelled: nat -> bool)
  {
    || ((mode == "abort" || mode == "continue") && CliAccepts(exec, reviewer, p, mode, answers))
    || TuiAccepts(exec, reviewer, p, mode, cancelled)
  }

  lemma AcceptedMeansPassed(
    exec: Executor, reviewer: Reviewer, p: Plan, mode: string, answers: nat -> bool, cancelled: nat -> bool)
    requires AcceptedUnasked(exec, reviewer, p, mode, answers, cancelled)
    ensures AllPass(exec, reviewer, p.steps) && FinalPasses(exec, reviewer, p)
  {
    hide StepPasses, FinalPasses;
    if !AllPass(exec, reviewer, p.steps) {
      FailureIsAcceptedExactlyWhenAsked(exec, reviewer, p, mode, answers);
    }
  }

  /** The reviewer, asked this, answered that a criterion of these words is met. */
  ghost predicate Confirmed(reviewer: Reviewer, q: Query, words: string) {
    reviewer(q).Some? && exists c :: ConfirmedBy(reviewer(q).value, words, c)
  }

  ghost predicate ConfirmedBy(result: ReviewResult, words: string, c: int) {
    0 <= c < |result.criteria| && result.criteria[c].met && Trim(result.criteria[c].criterion) == Trim(words)
  }

  lemma CriteriaAreConfirmed(reviewer: Reviewer, q: Query, words: string)
    requires Passes(reviewer, q) && words in q.criteria
    ensures Confirmed(reviewer, q, words)
  {
    hide Trim;
    PassingMeansReported(reviewer, q);
    var c: nat :| c < |q.criteria| && q.criteria[c] == words;
    assert ReportedMet(reviewer, q, c) && ConfirmedBy(reviewer(q).value, words, c);
  }

  lemma {:induction false} AllCriteriaHaveEach(steps: seq<Step>, i: nat, words: string)
    requires i < |steps| && words in SplitCriteria(steps[i].successCriteria)
    ensures words in AllCriteria(steps)
  {
    hide SplitCriteria;
    if i < |steps| - 1 {
      AllCriteriaHaveEach(steps[..|steps| - 1], i, words);
    }
  }

  lemma {:induction false} OutputsOfRuns(exec: Executor, steps: seq<Step>)
    requires forall i: nat :: i < |steps| ==> exec(i, steps[i]).Some?
    ensures |Outputs(exec, steps)| == |steps|
    ensures forall i: nat :: i < |steps| ==> Outputs(exec, steps)[i] == exec(i, steps[i]).value.output
  {
    if |steps| > 0 {
      OutputsOfRuns(exec, steps[..|steps| - 1]);
    }
  }

  /** Every output is in the text of all, with the separator between it and the next. */
  lemma {:induction false} CombinedJoins(a: seq<string>, b: seq<string>)
    requires |a| > 0 && |b| > 0
    ensures Combined(a + b) == Combined(a) + "\n\n---\n\n" + Combined(b)
    ensures |a| == 1 ==> Combined(a) == a[0]
  {
    if |a| == 1 {
      assert (a + b)[1..] == b;
    } else {
      assert (a + b)[1..] == a[1..] + b;
      CombinedJoins(a[1..], b);
      assert a[0] + SEPARATOR + (Combined(a[1..]) + SEPARATOR + Combined(b))
          == a[0] + SEPARATOR + Combined(a[1..]) + SEPARATOR + Combined(b);
    }
  }

  /** Acceptance without questions means that every stretch of every step's criteria that is not blank was confirmed
      in its own words, by the review of the step and by the final one, which also confirmed that there is no regression. */
  lemma EveryWordIsConfirmed(
    exec: Executor, reviewer: Reviewer, p: Plan, mode: string, answers: nat -> bool, cancelled: nat -> bool,
    i: nat, before: string, piece: string, after: string)
    requires AcceptedUnasked(exec, reviewer, p, mode, answers, cancelled)
    requires i < |p.steps| && PieceOf(p.steps[i].successCriteria, before, piece, after) && !Blank(piece)
    ensures exec(i, p.steps[i]).Some?
    ensures var s, ran := p.steps[i], exec(i, p.steps[i]).value;
            Confirmed(reviewer, Query(ForStep(s.task, s.kind, s.risk), SplitCriteria(s.successCriteria), ran.output, ran.model),
                      piece)
    ensures Confirmed(reviewer, FinalQuery(exec, p), piece)
    ensures Confirmed(reviewer, FinalQuery(exec, p), "no step undid another step's work (no regression introduced)")
  {
    hide SplitCriteria, AllCriteria, Combined, Outputs, Passes, Trim, CliAccepts, TuiAccepts, Confirmed, PieceOf;
    AcceptedMeansPassed(exec, reviewer, p, mode, answers, cancelled);
    PiecesAreCriteria(p.steps[i].successCriteria, before, piece, after);
    var words := Trim(piece);
    assert StepPasses(exec, reviewer, p.steps, i);
    CriteriaAreConfirmed(reviewer, StepQuery(p.steps[i], exec(i, p.steps[i]).value), words);
    AllCriteriaHaveEach(p.steps, i, words);
    assert words in FinalQuery(exec, p).criteria && REGRESSION in FinalQuery(exec, p).criteria;
    CriteriaAreConfirmed(reviewer, FinalQuery(exec, p), words);
    CriteriaAreConfirmed(reviewer, FinalQuery(exec, p), REGRESSION);
    SameWords(reviewer, StepQuery(p.steps[i], exec(i, p.steps[i]).value), piece);
    SameWords(reviewer, FinalQuery(exec, p), piece);
  }

  lemma SameWords(reviewer: Reviewer, q: Query, piece: string)
    ensures Confirmed(reviewer, q, Trim(piece)) ==> Confirmed(reviewer, q, piece)
  {
    hide Trim;
    assert Trim(Trim(piece)) == Trim(piece) by { TrimIsTight(piece); }
    assert forall result: ReviewResult, c :: ConfirmedBy(result, Trim(piece), c) ==> ConfirmedBy(result, piece, c);
  }

  /** The final reviewer is shown the output of every step, in order. */
  lemma FinalReviewSeesEveryOutput(exec: Executor, reviewer: Reviewer, p: Plan)
    requires AllPass(exec, reviewer, p.steps)
    ensures var q, outputs := FinalQuery(exec, p), Outputs(exec, p.steps);
            && q.subject == ForPlan(p.title, |p.steps|) && q.executor == ""
            && |outputs| == |p.steps|
            && (forall i: nat :: i < |p.steps| ==>
                  exec(i, p.steps[i]).Some? && outputs[i] == exec(i, p.steps[i]).value.output)
            && forall k: nat :: 0 < k < |outputs| ==>
                 q.output == Combined(outputs[..k]) + "\n\n---\n\n" + Combined(outputs[k..])
  {
    hide Combined, Outputs, AllCriteria, SplitCriteria, Passes;
    forall i: nat | i < |p.steps| ensures exec(i, p.steps[i]).Some? {
      assert StepPasses(exec, reviewer, p.steps, i);
    }
    OutputsOfRuns(exec, p.steps);
    var outputs := Outputs(exec, p.steps);
    forall k: nat | 0 < k < |outputs|
      ensures Combined(outputs) == Combined(outputs[..k]) + "\n\n---\n\n" + Combined(outputs[k..])
    {
      CombinedJoins(outputs[..k], outputs[k..]);
      assert outputs[..k] + outputs[k..] == outputs;
    }
  }

  /** What acceptance of a valid plan rests on where nobody is asked after a failure: every step ran, after every step
      it depends on passed; every criterion was reported met by its own words; and the final review reported no
      regression. */
  lemma AcceptanceIsEarned(
    exec: Executor, reviewer: Reviewer, p: Plan, mode: string, answers: nat -> bool, cancelled: nat -> bool)
    requires Valid(p) && AcceptedUnasked(exec, reviewer, p, mode, answers, cancelled)
    ensures |p.steps| > 0
    ensures forall i: nat, d :: i < |p.steps| && d in p.steps[i].dependsOn ==>
              1 <= d <= i && StepPasses(exec, reviewer, p.steps, d - 1)
    ensures forall i: nat :: i < |p.steps| ==> exec(i, p.steps[i]).Some?
    ensures forall i: nat, c: nat :: i < |p.steps| && c < |SplitCriteria(p.steps[i].successCriteria)| ==>
              ReportedMet(reviewer, StepQuery(p.steps[i], exec(i, p.steps[i]).value), c)
    ensures forall c: nat :: |AllCriteria(p.steps)| > 0 && c < |FinalQuery(exec, p).criteria| ==>
              ReportedMet(reviewer, FinalQuery(exec, p), c)
  {
    hide SplitCriteria, AllCriteria, Combined, Outputs, ReportedMet, Passes, Trim, CliAccepts, TuiAccepts;
    AcceptedMeansPassed(exec, reviewer, p, mode, answers, cancelled);
    assert !Violates(p, NoSteps);
    forall i: nat, d | i < |p.steps| && d in p.steps[i].dependsOn
      ensures 1 <= d <= i && StepPasses(exec, reviewer, p.steps, d - 1)
    {
      assert !Violates(p, BadDependency(i + 1, d));
    }
    forall i: nat | i < |p.steps| ensures exec(i, p.steps[i]).Some? {
      assert StepPasses(exec, reviewer, p.steps, i);
    }
    forall i: nat, c: nat | i < |p.steps| && c < |SplitCriteria(p.steps[i].successCriteria)|
      ensures ReportedMet(reviewer, StepQuery(p.steps[i], exec(i, p.steps[i]).value), c)
    {
      assert StepPasses(exec, reviewer, p.steps, i);
      PassingMeansReported(reviewer, StepQuery(p.steps[i], exec(i, p.steps[i]).value));
    }
    if |AllCriteria(p.steps)| > 0 {
      PassingMeansReported(reviewer, FinalQuery(exec, p));
    }
  }
}
