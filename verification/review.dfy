/** Acceptance reviews: when a reviewer's answer is believed. */
module Review {
  import opened Seqs
  import opened Text

  datatype Criterion = Criterion(criterion: string, met: bool)

  /** The parsed answer of a reviewer. */
  datatype ReviewResult = ReviewResult(passed: bool, score: real, criteria: seq<Criterion>)

  datatype Fault = BadScore | WrongCount | Mismatch(at: nat) | PassedUnmet | FailedMet

  ghost predicate Answers(criteria: seq<string>, result: ReviewResult) {
    && |result.criteria| == |criteria|
    && forall i :: 0 <= i < |criteria| ==> Trim(result.criteria[i].criterion) == Trim(criteria[i])
  }

  ghost predicate AllMet(result: ReviewResult) {
    forall i :: 0 <= i < |result.criteria| ==> result.criteria[i].met
  }

  ghost predicate Sane(criteria: seq<string>, result: ReviewResult) {
    && 0.0 <= result.score <= 1.0
    && Answers(criteria, result)
    && (result.passed <==> AllMet(result))
  }

  /** Accepts exactly the answers that are complete, in order and consistent with themselves. */
  method ValidateReviewResult(criteria: seq<string>, result: ReviewResult) returns (fault: Option<Fault>)
    ensures fault == None <==> Sane(criteria, result)
    ensures fault == Some(BadScore) <==> result.score < 0.0 || result.score > 1.0
    ensures fault.Some? && fault.value.Mismatch? ==>
              && fault.value.at < |criteria| == |result.criteria|
              && Trim(result.criteria[fault.value.at].criterion) != Trim(criteria[fault.value.at])
  {
    hide Trim;
    if result.score < 0.0 || result.score > 1.0 {
      return Some(BadScore);
    }
    if |result.criteria| != |criteria| {
      return Some(WrongCount);
    }
    var allMet := true;
    for i := 0 to |criteria|
      invariant forall k :: 0 <= k < i ==> Trim(result.criteria[k].criterion) == Trim(criteria[k])
      invariant allMet <==> forall k :: 0 <= k < i ==> result.criteria[k].met
    {
      if Trim(result.criteria[i].criterion) != Trim(criteria[i]) {
        return Some(Mismatch(i));
      }
      allMet := allMet && result.criteria[i].met;
    }
    if result.passed && !allMet {
      return Some(PassedUnmet);
    }
    if !result.passed && allMet {
      return Some(FailedMet);
    }
    return None;
  }

  datatype Subject = ForStep(task: string, kind: string, risk: string) | ForPlan(title: string, steps: nat)

  /** What a review is asked: the executor is the model it must not be routed to. */
  datatype Query = Query(subject: Subject, criteria: seq<string>, output: string, executor: string)

  /** The routed reviewer with the parser behind it; None when it fails or cannot be parsed. */
  type Reviewer = Query -> Option<ReviewResult>

  ghost predicate Passes(reviewer: Reviewer, q: Query) {
    && |q.criteria| > 0
    && reviewer(q).Some?
    && Sane(q.criteria, reviewer(q).value)
    && reviewer(q).value.passed
  }

  datatype Outcome = Unavailable | Reviewed(passed: bool)

  /** Review behind reviewOutput: no criteria give the zero result, which has not passed. */
  method ReviewOutput(reviewer: Reviewer, q: Query) returns (outcome: Outcome)
    ensures outcome == Reviewed(true) <==> Passes(reviewer, q)
    ensures |q.criteria| == 0 ==> outcome == Reviewed(false)
  {
    if |q.criteria| == 0 {
      return Reviewed(false);
    }
    var result := reviewer(q);
    if result.None? {
      return Unavailable;
    }
    var fault := ValidateReviewResult(q.criteria, result.value);
    return if fault.Some? then Unavailable else Reviewed(result.value.passed);
  }
}
