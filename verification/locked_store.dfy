/** A file that several processes read, change and replace under one lock, each as its own steps. */
module LockedStore {
  import opened Seqs

  /** One caller: waiting, or holding the lock with what it has read of the clock and of the file so far. */
  datatype Phase<C, R> = Waiting | Holding(request: R, at: Option<int>, basis: Option<C>)

  datatype State<C, R> = State(content: C, clock: int, callers: seq<Phase<C, R>>)

  datatype Step<R> =
    | Lock(caller: nat, request: R)
    | ReadClock(caller: nat)
    | ReadFile(caller: nat)
    | Replace(caller: nat)                // the rename, then the unlock
    | GiveUp(caller: nat)                 // an error before the rename, or the death of the process
    | Pass(to: int)

  predicate Enabled<C, R>(s: State<C, R>, step: Step<R>) {
    match step
    case Lock(c, _) => c < |s.callers| && forall i :: 0 <= i < |s.callers| ==> s.callers[i].Waiting?
    case ReadClock(c) => c < |s.callers| && s.callers[c].Holding?
    case ReadFile(c) => c < |s.callers| && s.callers[c].Holding?
    case Replace(c) => c < |s.callers| && s.callers[c].Holding? && s.callers[c].at.Some? && s.callers[c].basis.Some?
    case GiveUp(c) => c < |s.callers|
    case Pass(to) => s.clock <= to
  }

  /** apply(content, request, at) is what a caller writes for a request at a time. */
  function Next<C, R>(s: State<C, R>, step: Step<R>, apply: (C, R, int) -> C): (t: State<C, R>)
    requires Enabled(s, step)
    ensures |t.callers| == |s.callers|
  {
    match step
    case Lock(c, request) => s.(callers := s.callers[c := Holding(request, None, None)])
    case ReadClock(c) => s.(callers := s.callers[c := s.callers[c].(at := Some(s.clock))])
    case ReadFile(c) => s.(callers := s.callers[c := s.callers[c].(basis := Some(s.content))])
    case Replace(c) =>
      var h := s.callers[c];
      s.(content := apply(h.basis.value, h.request, h.at.value), callers := s.callers[c := Waiting])
    case GiveUp(c) => s.(callers := s.callers[c := Waiting])
    case Pass(to) => s.(clock := to)
  }

  ghost predicate Runs<C, R>(s: State<C, R>, steps: seq<Step<R>>, apply: (C, R, int) -> C)
    decreases |steps|, 0
  {
    |steps| > 0 ==>
      && Runs(s, steps[..|steps| - 1], apply)
      && Enabled(After(s, steps[..|steps| - 1], apply), steps[|steps| - 1])
  }

  ghost function After<C, R>(s: State<C, R>, steps: seq<Step<R>>, apply: (C, R, int) -> C): State<C, R>
    requires Runs(s, steps, apply)
    decreases |steps|, 1
  {
    if |steps| == 0 then s
    else Next(After(s, steps[..|steps| - 1], apply), steps[|steps| - 1], apply)
  }

  /** A request that took effect, with the time its caller had read. */
  datatype Done<R> = Done(request: R, at: int)

  function DoneBy<C, R>(s: State<C, R>, step: Step<R>): seq<Done<R>>
    requires Enabled(s, step)
  {
    if step.Replace? then [Done(s.callers[step.caller].request, s.callers[step.caller].at.value)] else []
  }

  ghost function Effects<C, R>(s: State<C, R>, steps: seq<Step<R>>, apply: (C, R, int) -> C): seq<Done<R>>
    requires Runs(s, steps, apply)
    decreases |steps|
  {
    if |steps| == 0 then []
    else
      var before := steps[..|steps| - 1];
      Effects(s, before, apply) + DoneBy(After(s, before, apply), steps[|steps| - 1])
  }

  /** The requests one after the other, with nobody else about. */
  function Alone<C, R>(c: C, done: seq<Done<R>>, apply: (C, R, int) -> C): C {
    if |done| == 0 then c
    else
      var last := done[|done| - 1];
      apply(Alone(c, done[..|done| - 1], apply), last.request, last.at)
  }

  ghost predicate InOrder<R>(done: seq<Done<R>>, from: int, to: int) {
    && from <= to
    && (forall i :: 0 <= i < |done| ==> from <= done[i].at <= to)
    && (forall i, j :: 0 <= i < j < |done| ==> done[i].at <= done[j].at)
  }

  /** Only one caller is inside, and what it has read of the file is still there. */
  ghost predicate Guarded<C, R>(s: State<C, R>, done: seq<Done<R>>) {
    && (forall i, j :: 0 <= i < j < |s.callers| ==> s.callers[i].Waiting? || s.callers[j].Waiting?)
    && (forall i :: 0 <= i < |s.callers| && s.callers[i].Holding? ==>
         && (s.callers[i].basis.Some? ==> s.callers[i].basis.value == s.content)
         && (s.callers[i].at.Some? ==>
              && s.callers[i].at.value <= s.clock
              && forall k :: 0 <= k < |done| ==> done[k].at <= s.callers[i].at.value))
  }

  lemma StepStaysGuarded<C, R>(s: State<C, R>, step: Step<R>, apply: (C, R, int) -> C, done: seq<Done<R>>, from: int)
    requires Guarded(s, done) && InOrder(done, from, s.clock) && Enabled(s, step)
    ensures Guarded(Next(s, step, apply), done + DoneBy(s, step))
    ensures s.clock <= Next(s, step, apply).clock
  {
    if step.Replace? {
      var t := Next(s, step, apply);
      assert forall i :: 0 <= i < |t.callers| ==> t.callers[i].Waiting?;
    } else {
      assert done + DoneBy(s, step) == done;
    }
  }

  ghost predicate Timely<C, R>(s: State<C, R>, from: int) {
    forall i :: 0 <= i < |s.callers| && s.callers[i].Holding? && s.callers[i].at.Some? ==> from <= s.callers[i].at.value
  }

  lemma StepStaysInOrder<C, R>(s: State<C, R>, step: Step<R>, apply: (C, R, int) -> C, done: seq<Done<R>>, from: int)
    requires Guarded(s, done) && InOrder(done, from, s.clock) && Timely(s, from) && Enabled(s, step)
    ensures InOrder(done + DoneBy(s, step), from, Next(s, step, apply).clock)
    ensures Timely(Next(s, step, apply), from)
  {
    if !step.Replace? {
      assert done + DoneBy(s, step) == done;
    }
  }

  ghost predicate Quiet<C, R>(s: State<C, R>) {
    forall i :: 0 <= i < |s.callers| ==> s.callers[i].Waiting?
  }

  /** However the callers interleave, die and fail, the file is what the effective requests make it alone,
      in the order of their renames, which is also the order of the times they wrote down. */
  lemma {:induction false} NoUpdateIsLost<C, R>(s: State<C, R>, steps: seq<Step<R>>, apply: (C, R, int) -> C)
    requires Quiet(s) && Runs(s, steps, apply)
    ensures var t, done := After(s, steps, apply), Effects(s, steps, apply);
            t.content == Alone(s.content, done, apply) && InOrder(done, s.clock, t.clock)
    ensures Guarded(After(s, steps, apply), Effects(s, steps, apply)) && Timely(After(s, steps, apply), s.clock)
    decreases |steps|
  {
    if |steps| > 0 {
      var before, last := steps[..|steps| - 1], steps[|steps| - 1];
      NoUpdateIsLost(s, before, apply);
      var t, done := After(s, before, apply), Effects(s, before, apply);
      StepStaysGuarded(t, last, apply, done, s.clock);
      StepStaysInOrder(t, last, apply, done, s.clock);
      if last.Replace? {
        assert (done + DoneBy(t, last))[..|done|] == done;
      } else {
        assert done + DoneBy(t, last) == done;
      }
    }
  }

  function UpdateSteps<R>(c: nat, request: R): seq<Step<R>> {
    [Lock(c, request), ReadClock(c), ReadFile(c), Replace(c)]
  }

  lemma OneStepMore<C, R>(s: State<C, R>, before: seq<Step<R>>, step: Step<R>, apply: (C, R, int) -> C, steps: seq<Step<R>>)
    requires Runs(s, before, apply) && Enabled(After(s, before, apply), step) && steps == before + [step]
    ensures Runs(s, steps, apply) && After(s, steps, apply) == Next(After(s, before, apply), step, apply)
  {
    assert steps[..|steps| - 1] == before;
  }

  /** Undisturbed, a caller gets the lock, and the file becomes what its request makes of it at the present time. */
  lemma LoneUpdateLands<C, R>(s: State<C, R>, c: nat, request: R, apply: (C, R, int) -> C)
    requires Quiet(s) && c < |s.callers|
    ensures Runs(s, UpdateSteps(c, request), apply)
    ensures After(s, UpdateSteps(c, request), apply) == s.(content := apply(s.content, request, s.clock))
  {
    hide Runs, After;
    Begin(s, apply);
    var steps := UpdateSteps(c, request);
    OneStepMore(s, [], steps[0], apply, [steps[0]]);
    OneStepMore(s, [steps[0]], steps[1], apply, [steps[0], steps[1]]);
    OneStepMore(s, [steps[0], steps[1]], steps[2], apply, [steps[0], steps[1], steps[2]]);
    OneStepMore(s, [steps[0], steps[1], steps[2]], steps[3], apply, steps);
    assert After(s, steps, apply).callers == s.callers;
  }

  lemma Begin<C, R>(s: State<C, R>, apply: (C, R, int) -> C)
    ensures Runs(s, [], apply) && After(s, [], apply) == s
  {
  }
}
