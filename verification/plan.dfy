/** Plans: a list of steps with acceptance criteria, and when one is valid. */
module Plan {
  import opened Seqs
  import opened Text

  datatype Step = Step(task: string, kind: string, risk: string, dependsOn: seq<int>, successCriteria: string)

  datatype Plan = Plan(title: string, version: int, steps: seq<Step>)

  datatype Violation =
    | BadVersion
    | MissingTitle
    | NoSteps
    | MissingTask(step: nat)
    | BadKind(step: nat)
    | BadRisk(step: nat)
    | BadDependency(step: nat, on: int)

  predicate ValidKind(kind: string) {
    || kind == "code-change" || kind == "debug" || kind == "refactor" || kind == "summarize"
    || kind == "extract" || kind == "review" || kind == "plan"
  }

  predicate ValidRisk(risk: string) {
    risk == "low" || risk == "medium" || risk == "high"
  }

  /** What each violation says of a plan; steps are numbered from 1. */
  ghost predicate Violates(p: Plan, v: Violation) {
    match v
    case BadVersion => p.version != 1
    case MissingTitle => Trim(p.title) == ""
    case NoSteps => |p.steps| == 0
    case MissingTask(n) => 1 <= n <= |p.steps| && Trim(p.steps[n - 1].task) == ""
    case BadKind(n) => 1 <= n <= |p.steps| && !ValidKind(p.steps[n - 1].kind)
    case BadRisk(n) => 1 <= n <= |p.steps| && !ValidRisk(p.steps[n - 1].risk)
    case BadDependency(n, on) => 1 <= n <= |p.steps| && on in p.steps[n - 1].dependsOn && !(1 <= on < n)
  }

  /** Everything that is wrong with the step itself. */
  ghost predicate StepViolates(s: Step, n: nat, v: Violation) {
    match v
    case MissingTask(k) => k == n && Trim(s.task) == ""
    case BadKind(k) => k == n && !ValidKind(s.kind)
    case BadRisk(k) => k == n && !ValidRisk(s.risk)
    case BadDependency(k, on) => k == n && on in s.dependsOn && !(1 <= on < n)
    case _ => false
  }

  method ValidateStep(s: Step, n: nat) returns (errs: seq<Violation>)
    ensures forall v :: v in errs <==> StepViolates(s, n, v)
  {
    hide Trim, ValidKind, ValidRisk;
    errs := [];
    if Trim(s.task) == "" {
      errs := errs + [MissingTask(n)];
    }
    if !ValidKind(s.kind) {
      errs := errs + [BadKind(n)];
    }
    if !ValidRisk(s.risk) {
      errs := errs + [BadRisk(n)];
    }
    for d := 0 to |s.dependsOn|
      invariant forall v :: v in errs <==> StepViolates(s.(dependsOn := s.dependsOn[..d]), n, v)
    {
      var dep := s.dependsOn[d];
      if dep < 1 || dep >= n {
        errs := errs + [BadDependency(n, dep)];
      }
      assert s.dependsOn[..d + 1] == s.dependsOn[..d] + [dep];
    }
    assert s.dependsOn[..|s.dependsOn|] == s.dependsOn;
  }

  /** Lists exactly what is wrong with a plan. */
  method ValidatePlan(p: Plan) returns (errs: seq<Violation>)
    ensures forall v :: v in errs <==> Violates(p, v)
  {
    hide Trim, ValidKind, ValidRisk;
    errs := [];
    if p.version != 1 {
      errs := errs + [BadVersion];
    }
    if Trim(p.title) == "" {
      errs := errs + [MissingTitle];
    }
    if |p.steps| == 0 {
      return errs + [NoSteps];
    }
    for i := 0 to |p.steps|
      invariant forall v :: v in errs <==> Violates(p.(steps := p.steps[..i]), v) && v != NoSteps
    {
      var more := ValidateStep(p.steps[i], i + 1);
      StepsAddUp(p, i);
      errs := errs + more;
    }
    assert p.steps[..|p.steps|] == p.steps;
  }

  lemma StepsAddUp(p: Plan, i: nat)
    requires i < |p.steps|
    ensures forall v :: v != NoSteps ==>
              (Violates(p.(steps := p.steps[..i + 1]), v)
               <==> Violates(p.(steps := p.steps[..i]), v) || StepViolates(p.steps[i], i + 1, v))
  {
    hide Trim, ValidKind, ValidRisk;
  }

  /** The kinds of work and the risks a plan may name. */
  lemma KindsAreKnown(s: string)
    ensures ValidKind(s) <==> s in {"code-change", "debug", "refactor", "summarize", "extract", "review", "plan"}
    ensures ValidRisk(s) <==> s in {"low", "medium", "high"}
  {
  }

  ghost predicate Valid(p: Plan) {
    forall v :: !Violates(p, v)
  }

  // ------------------------------------------------------------ acceptance criteria

  function Newlines(s: string): string {
    seq(|s|, i requires 0 <= i < |s| => if s[i] == ';' then '\n' else s[i])
  }

  function Criterion(piece: string): Option<string> {
    if Trim(piece) == "" then None else Some(Trim(piece))
  }

  /** The pieces between newlines and semicolons, trimmed, without the blank ones. */
  function SplitCriteria(s: string): seq<string> {
    FilterMap(Split(Newlines(s), '\n'), Criterion)
  }

  lemma NewlinesSplit(a: string, sep: char, b: string)
    requires sep == '\n' || sep == ';'
    ensures Newlines(a + [sep] + b) == Newlines(a) + ['\n'] + Newlines(b)
  {
  }

  /** A newline and a semicolon both part what stands before from what stands after. */
  lemma CriteriaArePartedBySeparators(a: string, sep: char, b: string)
    requires sep == '\n' || sep == ';'
    ensures SplitCriteria(a + [sep] + b) == SplitCriteria(a) + SplitCriteria(b)
  {
    hide Split, FilterMap, Criterion, Newlines;
    NewlinesSplit(a, sep, b);
    SplitConcat(Newlines(a), Newlines(b), '\n');
    FilterMapConcat(Split(Newlines(a), '\n'), Split(Newlines(b), '\n'), Criterion);
  }

  predicate Unbroken(s: string) {
    '\n' !in s && ';' !in s
  }

  /** A text without either is one criterion, or none when it is blank. */
  lemma CriterionOfUnbroken(s: string)
    requires Unbroken(s)
    ensures SplitCriteria(s) == if Blank(s) then [] else [Trim(s)]
  {
    hide Trim;
    assert Newlines(s) == s;
    SplitPiece(s, '\n');
    FilterMapOne(s, Criterion);
  }

  /** A stretch of the text from one separator, or an end, to the next. */
  ghost predicate PieceOf(text: string, before: string, piece: string, after: string) {
    && text == before + piece + after && Unbroken(piece)
    && (before == "" || before[|before| - 1] == '\n' || before[|before| - 1] == ';')
    && (after == "" || after[0] == '\n' || after[0] == ';')
  }

  lemma PieceAndAfter(piece: string, after: string)
    requires Unbroken(piece) && (after == "" || after[0] == '\n' || after[0] == ';')
    ensures !Blank(piece) ==> Trim(piece) in SplitCriteria(piece + after)
  {
    hide Trim, SplitCriteria;
    CriterionOfUnbroken(piece);
    if after == "" {
      assert piece + after == piece;
    } else {
      assert piece + after == piece + [after[0]] + after[1..];
      CriteriaArePartedBySeparators(piece, after[0], after[1..]);
    }
  }

  /** Every stretch that is not blank is a criterion. */
  lemma PiecesAreCriteria(text: string, before: string, piece: string, after: string)
    requires PieceOf(text, before, piece, after) && !Blank(piece)
    ensures Trim(piece) in SplitCriteria(text)
  {
    hide Trim, SplitCriteria;
    PieceAndAfter(piece, after);
    if before == "" {
      assert text == piece + after;
    } else {
      var front, sep := before[..|before| - 1], before[|before| - 1];
      assert text == front + [sep] + (piece + after);
      CriteriaArePartedBySeparators(front, sep, piece + after);
    }
  }

  lemma {:induction false} PiecesAreTight(pieces: seq<string>)
    ensures forall i :: 0 <= i < |FilterMap(pieces, Criterion)| ==>
              var criterion := FilterMap(pieces, Criterion)[i]; criterion != "" && Trim(criterion) == criterion
  {
    hide Trim;
    if |pieces| > 0 {
      PiecesAreTight(pieces[1..]);
      TrimIsTight(pieces[0]);
    }
  }

  /** A criterion is never blank and has no blanks around it. */
  lemma CriteriaAreTight(s: string)
    ensures forall i :: 0 <= i < |SplitCriteria(s)| ==>
              SplitCriteria(s)[i] != "" && Trim(SplitCriteria(s)[i]) == SplitCriteria(s)[i]
  {
    PiecesAreTight(Split(Newlines(s), '\n'));
  }
}
