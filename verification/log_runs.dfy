/** What the event log is asked for and what it does: whole operations, and the request behind every effect of a run. */
module LogRuns {
  import opened Seqs
  import opened Text
  import opened LedgerFile
  import opened EventLog

  // ------------------------------------------------------------ operations that run to their end

  /** removeMatchingTUILedgerLines. */
  function RewriteSteps(t: Tid, path: Path, selector: Selector, spare: Inode): seq<Action> {
    [LockRewrite(t, path, selector), Load(t), Stage(t, spare), Rename(t), Finish(t)]
  }

  /** Undisturbed, a rewrite leaves the log without exactly the lines it was asked to remove, every other log as it
      was, and the lock free. */
  lemma RewriteRuns(codec: Codec, s: State, t: Tid, path: Path, selector: Selector, spare: Inode)
    requires Inv(codec, s) && t < |s.threads| && PcOf(s, t).Idle?
    requires path in s.dir && LockFree(s, path) && Fresh(s, spare)
    ensures Runs(codec, s, RewriteSteps(t, path, selector, spare))
    ensures var next := Final(codec, s, RewriteSteps(t, path, selector, spare));
            && Content(next, path) == Rewritten(codec, selector, Content(s, path))
            && (forall q: Path :: q != path ==> Content(next, q) == Content(s, q))
            && next.threads == s.threads && LockFree(next, path)
  {
    hide Rewritten, Runs, Final, Exclusive, Knows;
    var s1 := Apply(codec, s, LockRewrite(t, path, selector));
    var s2 := Apply(codec, s1, Load(t));
    var s3 := Apply(codec, s2, Stage(t, spare));
    var s4 := Apply(codec, s3, Rename(t));
    var s5 := Apply(codec, s4, Finish(t));
    assert s5.threads == s.threads;
    assert Content(s5, path) == Rewritten(codec, selector, Content(s, path));
    NoSteps(codec, s5);
    Prepend(codec, s4, Finish(t), [], [Finish(t)]);
    Prepend(codec, s3, Rename(t), [Finish(t)], [Rename(t), Finish(t)]);
    Prepend(codec, s2, Stage(t, spare), [Rename(t), Finish(t)], [Stage(t, spare), Rename(t), Finish(t)]);
    Prepend(codec, s1, Load(t), [Stage(t, spare), Rename(t), Finish(t)], [Load(t), Stage(t, spare), Rename(t), Finish(t)]);
    Prepend(codec, s, LockRewrite(t, path, selector), [Load(t), Stage(t, spare), Rename(t), Finish(t)],
            RewriteSteps(t, path, selector, spare));
  }

  function RemoveSteps(t: Tid, path: Path): seq<Action> {
    [LockRemove(t, path), Unlink(t), Finish(t)]
  }

  /** Undisturbed, a removal empties the log it was asked to remove and no other. */
  lemma RemoveRuns(codec: Codec, s: State, t: Tid, path: Path)
    requires Inv(codec, s) && t < |s.threads| && PcOf(s, t).Idle? && LockFree(s, path)
    ensures Runs(codec, s, RemoveSteps(t, path))
    ensures var next := Final(codec, s, RemoveSteps(t, path));
            && path !in next.dir && Content(next, path) == ""
            && (forall q: Path :: q != path ==> Content(next, q) == Content(s, q))
            && next.threads == s.threads
  {
    hide Runs, Final, Exclusive, Knows;
    var s1 := Apply(codec, s, LockRemove(t, path));
    var s2 := Apply(codec, s1, Unlink(t));
    var s3 := Apply(codec, s2, Finish(t));
    assert s3.threads == s.threads;
    NoSteps(codec, s3);
    Prepend(codec, s2, Finish(t), [], [Finish(t)]);
    Prepend(codec, s1, Unlink(t), [Finish(t)], [Unlink(t), Finish(t)]);
    Prepend(codec, s, LockRemove(t, path), [Unlink(t), Finish(t)], RemoveSteps(t, path));
  }

  function OpenSteps(t: Tid, path: Path, spare: Inode): seq<Action> {
    [OpenLog(t, path, spare), InstallLog(t)]
  }

  /** Opening a log, old or new, and appending to it. */
  lemma OpenedLogTakesAppends(codec: Codec, s: State, t: Tid, path: Path, spare: Inode, line: string)
    requires Inv(codec, s) && t < |s.threads| && PcOf(s, t).Idle? && IsLine(line)
    requires (path in s.dir || Fresh(s, spare)) && MutexFree(s, s.threads[t].proc) && LockFree(s, path)
    ensures var actions := OpenSteps(t, path, spare) + AppendSteps(t, line);
            Runs(codec, s, actions) && Content(Final(codec, s, actions), path) == Content(s, path) + (line + "\n")
  {
    hide Runs, Final, Exclusive, Knows, IsLine, AppendSteps;
    var s1 := Apply(codec, s, OpenLog(t, path, spare));
    var s2 := Apply(codec, s1, InstallLog(t));
    assert s2.threads == s.threads && Content(s2, path) == Content(s, path);
    AppendRuns(codec, s2, t, path, line);
    var steps := AppendSteps(t, line);
    Prepend(codec, s1, InstallLog(t), steps, [InstallLog(t)] + steps);
    Prepend(codec, s, OpenLog(t, path, spare), [InstallLog(t)] + steps, OpenSteps(t, path, spare) + steps);
  }

  lemma ReopenedWrites(codec: Codec, s: State, t: Tid, path: Path, spare: Inode, line: string)
    requires WellFormed(s) && Linked(s) && t < |s.threads| && PcOf(s, t) == Stale(path, line)
    requires path in s.dir || Fresh(s, spare)
    ensures Runs(codec, s, [Reopen(t, spare), Write(t)])
    ensures Content(Final(codec, s, [Reopen(t, spare), Write(t)]), path) == Content(s, path) + (line + "\n")
  {
    hide Runs, Final, IsLine, LockFree, MutexFree;
    var s1 := Apply(codec, s, Reopen(t, spare));
    var s2 := Apply(codec, s1, Write(t));
    assert Content(s1, path) == Content(s, path);
    NoSteps(codec, s2);
    Prepend(codec, s1, Write(t), [], [Write(t)]);
    Prepend(codec, s, Reopen(t, spare), [Write(t)], [Reopen(t, spare), Write(t)]);
  }

  /** An append that finds another file at the path of its open one, or none. */
  function RefreshSteps(t: Tid, line: string, spare: Inode): seq<Action> {
    [BeginAppend(t, line), LockAppend(t), StatOther(t)] + [Reopen(t, spare), Write(t)]
  }

  /** It goes into the file that is at the path by now. */
  lemma RefreshedAppendLands(codec: Codec, s: State, t: Tid, path: Path, spare: Inode, line: string)
    requires Inv(codec, s) && t < |s.threads| && PcOf(s, t).Idle? && IsLine(line)
    requires HandleOf(s, t).Open? && HandleOf(s, t).path == path && (path in s.dir || Fresh(s, spare))
    requires MutexFree(s, s.threads[t].proc) && LockFree(s, path)
    ensures Runs(codec, s, RefreshSteps(t, line, spare))
    ensures Content(Final(codec, s, RefreshSteps(t, line, spare)), path) == Content(s, path) + (line + "\n")
  {
    hide Runs, Final, Exclusive, Knows, IsLine;
    var s1 := Apply(codec, s, BeginAppend(t, line));
    var s2 := Apply(codec, s1, LockAppend(t));
    var s3 := Apply(codec, s2, StatOther(t));
    assert s3.dir == s.dir && s3.files == s.files;
    assert Linked(s3) && (path in s3.dir || Fresh(s3, spare));
    ReopenedWrites(codec, s3, t, path, spare, line);
    var steps := [Reopen(t, spare), Write(t)];
    Prepend(codec, s2, StatOther(t), steps, [StatOther(t)] + steps);
    Prepend(codec, s1, LockAppend(t), [StatOther(t)] + steps, [LockAppend(t), StatOther(t)] + steps);
    Prepend(codec, s, BeginAppend(t, line), [LockAppend(t), StatOther(t)] + steps, RefreshSteps(t, line, spare));
  }

  /** A process that dies keeps no lock, no mutex and no open log, and nobody else loses one. */
  lemma DeathFreesTheLocks(codec: Codec, s: State, proc: Proc)
    requires WellFormed(s) && Enabled(s, Crash(proc))
    ensures var next := Apply(codec, s, Crash(proc));
            && next.handles[proc].Closed? && next.files == s.files && next.dir == s.dir
            && forall u :: 0 <= u < |s.threads| ==>
                 if s.threads[u].proc == proc then LockOf(PcOf(next, u)).None? && !InMutex(PcOf(next, u))
                 else next.threads[u] == s.threads[u] && HandleOf(next, u) == HandleOf(s, u)
  {
  }

  // ------------------------------------------------------------ the request behind an effect

  datatype Request = ToAppend(line: string) | ToCut(path: Path, selector: Selector) | ToEmpty(path: Path)

  /** The request an action makes. */
  function Asks(a: Action): Option<Request> {
    match a
    case BeginAppend(_, line) => Some(ToAppend(line))
    case LockRewrite(_, path, selector) => Some(ToCut(path, selector))
    case LockRemove(_, path) => Some(ToEmpty(path))
    case _ => None
  }

  /** The effect is what was asked for, all of it or, of an append, the front. */
  predicate Answers(e: Effect, r: Request) {
    match e
    case Append(_, line) => r == ToAppend(line)
    case Torn(_, part) => r.ToAppend? && part <= r.line
    case Cut(path, selector) => r == ToCut(path, selector)
    case Empty(path) => r == ToEmpty(path)
    case Quiet => true
  }

  /** The request a thread still has to answer. */
  function Wants(pc: Pc): Option<Request> {
    match pc
    case Appending(line) => Some(ToAppend(line))
    case Locked(_, line) => Some(ToAppend(line))
    case Stale(_, line) => Some(ToAppend(line))
    case Ready(_, line) => Some(ToAppend(line))
    case Rewriting(path, selector) => Some(ToCut(path, selector))
    case Loaded(path, selector, _) => Some(ToCut(path, selector))
    case Staged(path, selector, _, _) => Some(ToCut(path, selector))
    case Removing(path) => Some(ToEmpty(path))
    case _ => None
  }

  predicate ByThread(a: Action, t: Tid) {
    !a.Crash? && a.t == t
  }

  /** Among the first j actions, the last request of the thread is r. */
  ghost predicate LastAsked(actions: seq<Action>, j: nat, t: Tid, r: Request)
    requires j <= |actions|
  {
    exists k :: 0 <= k < j && ByThread(actions[k], t) && Asks(actions[k]) == Some(r) && NoneAsked(actions, k + 1, j, t)
  }

  ghost predicate NoneAsked(actions: seq<Action>, from: nat, to: nat, t: Tid)
    requires from <= to <= |actions|
  {
    forall m :: from <= m < to && ByThread(actions[m], t) ==> Asks(actions[m]).None?
  }

  lemma StepKeepsWants(codec: Codec, s: State, a: Action, t: Tid, r: Request)
    requires WellFormed(s) && Enabled(s, a) && t < |s.threads| && Wants(PcOf(Apply(codec, s, a), t)) == Some(r)
    ensures if ByThread(a, t) && Asks(a).Some? then Asks(a) == Some(r) else Wants(PcOf(s, t)) == Some(r)
  {
    hide Rewritten, IsLine;
  }

  lemma EffectAnswersWants(s: State, a: Action)
    requires WellFormed(s) && Enabled(s, a) && !EffectOf(s, a).Quiet? && !a.Rotate?
    ensures !a.Crash? && a.t < |s.threads|
    ensures Wants(PcOf(s, a.t)).Some? && Answers(EffectOf(s, a), Wants(PcOf(s, a.t)).value)
  {
  }

  lemma OneEarlier(actions: seq<Action>, j: nat, t: Tid, r: Request)
    requires 0 < j < |actions|
    ensures LastAsked(actions[1..], j - 1, t, r) ==> LastAsked(actions, j, t, r)
    ensures NoneAsked(actions[1..], 0, j - 1, t) ==> NoneAsked(actions, 1, j, t)
  {
    hide Asks;
    var rest := actions[1..];
    assert forall m :: 1 <= m < j ==> actions[m] == rest[m - 1];
    if LastAsked(rest, j - 1, t, r) {
      var k :| 0 <= k < j - 1 && ByThread(rest[k], t) && Asks(rest[k]) == Some(r) && NoneAsked(rest, k + 1, j - 1, t);
      assert actions[k + 1] == rest[k];
      assert NoneAsked(actions, k + 2, j, t);
    }
  }

  lemma {:induction false} EffectIsPendingOrAsked(codec: Codec, s: State, actions: seq<Action>, j: nat) returns (r: Request)
    requires WellFormed(s) && Runs(codec, s, actions) && j < |actions|
    requires |Effects(codec, s, actions)| == |actions| && !Effects(codec, s, actions)[j].Quiet? && !actions[j].Rotate?
    ensures !actions[j].Crash? && actions[j].t < |s.threads| && Answers(Effects(codec, s, actions)[j], r)
    ensures || LastAsked(actions, j, actions[j].t, r)
            || (NoneAsked(actions, 0, j, actions[j].t) && Wants(PcOf(s, actions[j].t)) == Some(r))
    decreases j
  {
    hide Apply, Enabled, EffectOf, Asks, Wants, LastAsked, Answers, Harmless;
    if j == 0 {
      EffectAnswersWants(s, actions[0]);
      r := Wants(PcOf(s, actions[0].t)).value;
    } else {
      var next := Apply(codec, s, actions[0]);
      r := EffectIsPendingOrAsked(codec, next, actions[1..], j - 1);
      var t := actions[j].t;
      OneEarlier(actions, j, t, r);
      if !LastAsked(actions, j, t, r) {
        StepKeepsWants(codec, s, actions[0], t, r);
        AskedFirst(actions, j, t, r);
      }
    }
  }

  lemma AskedFirst(actions: seq<Action>, j: nat, t: Tid, r: Request)
    requires 0 < j < |actions| && NoneAsked(actions, 1, j, t)
    ensures ByThread(actions[0], t) && Asks(actions[0]) == Some(r) ==> LastAsked(actions, j, t, r)
    ensures !(ByThread(actions[0], t) && Asks(actions[0]).Some?) ==> NoneAsked(actions, 0, j, t)
  {
    hide Asks;
  }

  lemma {:induction false} OneEffectEach(codec: Codec, s: State, actions: seq<Action>)
    requires WellFormed(s) && Runs(codec, s, actions)
    ensures |Effects(codec, s, actions)| == |actions|
    decreases |actions|
  {
    hide Apply, Enabled, EffectOf, Harmless;
    if |actions| > 0 {
      OneEffectEach(codec, Apply(codec, s, actions[0]), actions[1..]);
    }
  }

  /** In every run, whatever happens to a log is what the thread that does it was last asked for, or a rotation. */
  lemma EffectsAnswerRequests(codec: Codec, s: State, actions: seq<Action>, j: nat)
    requires Init(s) && Runs(codec, s, actions) && j < |actions|
    ensures |Effects(codec, s, actions)| == |actions|
    ensures var e := Effects(codec, s, actions)[j];
            if actions[j].Rotate? then e == Empty(actions[j].path)
            else e.Quiet? || (!actions[j].Crash? && exists r :: LastAsked(actions, j, actions[j].t, r) && Answers(e, r))
  {
    hide Answers, LastAsked, Asks;
    OneEffectEach(codec, s, actions);
    if actions[j].Rotate? {
      RotateEmpties(codec, s, actions, j);
    } else if !Effects(codec, s, actions)[j].Quiet? {
      var r := EffectIsPendingOrAsked(codec, s, actions, j);
    }
  }

  lemma {:induction false} RotateEmpties(codec: Codec, s: State, actions: seq<Action>, j: nat)
    requires WellFormed(s) && Runs(codec, s, actions) && j < |actions| && actions[j].Rotate?
    requires |Effects(codec, s, actions)| == |actions|
    ensures Effects(codec, s, actions)[j] == Empty(actions[j].path)
    decreases j
  {
    hide Apply, Enabled, Harmless;
    if j > 0 {
      RotateEmpties(codec, Apply(codec, s, actions[0]), actions[1..], j - 1);
    }
  }
}
