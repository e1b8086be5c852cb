/** The control service: one action of each id at a time, and a monitor no snapshot may lose. */
module ControlService {
  import opened Seqs
  import opened Runner

  datatype Monitor = Monitor(
    activeSessions: int, activeTools: int, pendingApprovals: int, artifacts: int,
    lastModel: string, lastProvider: string, lastRuntime: string,
    usage: Option<Usage>, cost: Option<real>, latency: Option<int>)

  datatype Snapshot = Snapshot(
    status: string, activeAction: string, model: string, provider: string,
    providers: seq<string>, models: seq<string>, plans: seq<string>, monitor: Monitor)

  /** A lifecycle event of the runner, with the model it is about. */
  datatype Report = Report(event: Event, model: string, provider: string, runtime: string)

  datatype Tool =
    | ToolStarted | ToolCompleted | ToolError
    | ApprovalRequested | ApprovalGranted | ApprovalDenied
    | Artifact(count: int)

  datatype Choice = Choice(model: string, provider: string, runtime: string, known: bool)

  // ------------------------------------------------------------ what each locked section computes

  function Recorded(m: Monitor, r: Report): Monitor {
    match r.event.kind
    case Started => m.(activeSessions := m.activeSessions + 1)
    case _ =>
      var ended := if m.activeSessions > 0 then m.(activeSessions := m.activeSessions - 1) else m;
      var named := if r.model != ""
                   then ended.(lastModel := r.model, lastProvider := r.provider, lastRuntime := r.runtime) else ended;
      named.(usage := r.event.metrics.usage, cost := r.event.metrics.cost, latency := r.event.metrics.latency)
  }

  function Less(count: int): int {
    if count > 0 then count - 1 else count
  }

  function Tooled(m: Monitor, tool: Tool): Monitor {
    match tool
    case ToolStarted => m.(activeTools := m.activeTools + 1)
    case ToolCompleted => m.(activeTools := Less(m.activeTools))
    case ToolError => m.(activeTools := Less(m.activeTools))
    case ApprovalRequested => m.(pendingApprovals := m.pendingApprovals + 1)
    case ApprovalGranted => m.(pendingApprovals := Less(m.pendingApprovals))
    case ApprovalDenied => m.(pendingApprovals := Less(m.pendingApprovals))
    case Artifact(count) => m.(artifacts := m.artifacts + if count < 1 then 1 else count)
  }

  function Chosen(m: Monitor, choice: Choice): Monitor {
    var named := m.(lastModel := choice.model);
    if choice.known then named.(lastProvider := choice.provider, lastRuntime := choice.runtime) else named
  }

  /** publishRouteEvent on an accepted model. */
  function Selected(s: Snapshot, choice: Choice): Snapshot {
    s.(model := choice.model, monitor := Chosen(s.monitor, choice),
       provider := if choice.known then choice.provider else s.provider)
  }

  /** setSnapshot: the new values, with the monitor and unset selections carried over. */
  function Replaced(current: Snapshot, next: Snapshot): Snapshot {
    next.(
      monitor := current.monitor,
      model := if next.model == "" then current.model else next.model,
      provider := if next.provider == "" then current.provider else next.provider,
      providers := if |next.providers| == 0 then current.providers else next.providers,
      models := if |next.models| == 0 then current.models else next.models,
      plans := if |next.plans| == 0 then current.plans else next.plans)
  }

  // ------------------------------------------------------------ all threads together

  /** A thread outside Execute; in it between the check and the delete, with its cancel function and the reports
      its runner has still to make; or in the rest of the deferred function, saving history. */
  datatype Thread = Outside | Working(action: string, cancel: nat, todo: seq<Report>) | Saving(action: string)

  /** `leaked` counts the runs that ended without closing their start. */
  datatype State = State(snapshot: Snapshot, active: map<string, nat>, threads: seq<Thread>, leaked: nat)

  datatype Step =
    | Enter(t: nat, action: string, cancel: nat, attempt: Attempt, todo: seq<Report>)
    | Emit(t: nat)
    | Observe(tool: Tool)
    | Choose(choice: Choice)
    | Show(t: nat, next: Snapshot)
    | Drop(t: nat)                        // the deferred delete
    | Return(t: nat)

  function EventsIn(reports: seq<Report>): seq<Event> {
    seq(|reports|, i requires 0 <= i < |reports| => reports[i].event)
  }

  function Kinds(reports: seq<Report>): seq<Kind> {
    KindsOf(EventsIn(reports))
  }

  /** Only the run action reaches the runner, and it reports what Runner.Execute emits for its attempt. */
  predicate Reports(action: string, attempt: Attempt, todo: seq<Report>) {
    if action == "run" then EventsIn(todo) == EventsOf(attempt) else todo == []
  }

  predicate InFlight(thread: Thread, action: string) {
    !thread.Outside? && thread.action == action
  }

  predicate WorksOn(thread: Thread, action: string) {
    thread.Working? && thread.action == action
  }

  predicate Enabled(s: State, step: Step) {
    match step
    case Enter(t, action, _, attempt, todo) =>
      t < |s.threads| && s.threads[t].Outside? && action !in s.active && Reports(action, attempt, todo)
    case Emit(t) => t < |s.threads| && s.threads[t].Working? && |s.threads[t].todo| > 0
    case Show(t, next) => t < |s.threads| && InFlight(s.threads[t], next.activeAction)
    case Drop(t) => t < |s.threads| && s.threads[t].Working? && |s.threads[t].todo| == 0
    case Return(t) => t < |s.threads| && s.threads[t].Saving?
    case _ => true
  }

  function Apply(s: State, step: Step): (next: State)
    requires Enabled(s, step)
    ensures |next.threads| == |s.threads|
  {
    match step
    case Enter(t, action, cancel, _, todo) =>
      s.(active := s.active[action := cancel], threads := s.threads[t := Working(action, cancel, todo)])
    case Emit(t) =>
      var todo := s.threads[t].todo;
      s.(snapshot := s.snapshot.(monitor := Recorded(s.snapshot.monitor, todo[0])),
         threads := s.threads[t := s.threads[t].(todo := todo[1..])],
         leaked := if todo[0].event.kind.Started? && |todo| == 1 then s.leaked + 1 else s.leaked)
    case Observe(tool) => s.(snapshot := s.snapshot.(monitor := Tooled(s.snapshot.monitor, tool)))
    case Choose(choice) => s.(snapshot := Selected(s.snapshot, choice))
    case Show(t, next) => s.(snapshot := Replaced(s.snapshot, next))
    case Drop(t) =>
      s.(active := s.active - {s.threads[t].action}, threads := s.threads[t := Saving(s.threads[t].action)])
    case Return(t) => s.(threads := s.threads[t := Outside])
  }

  /** The thread is between the start of an execution and its end. */
  predicate Executing(thread: Thread) {
    thread.Working? && |thread.todo| == 1 && !thread.todo[0].event.kind.Started?
  }

  ghost predicate SomeExecuting(s: State) {
    exists t :: 0 <= t < |s.threads| && Executing(s.threads[t])
  }

  predicate TodoShape(todo: seq<Report>) {
    || |todo| == 0
    || |todo| == 1
    || (|todo| == 2 && todo[0].event.kind.Started? && !todo[1].event.kind.Started?)
  }

  ghost predicate OneEach(s: State) {
    forall t, u :: 0 <= t < u < |s.threads| && s.threads[t].Working? && s.threads[u].Working? ==>
      s.threads[t].action != s.threads[u].action
  }

  ghost predicate Entered(s: State) {
    forall t :: 0 <= t < |s.threads| && s.threads[t].Working? ==>
      s.threads[t].action in s.active && s.active[s.threads[t].action] == s.threads[t].cancel
  }

  ghost predicate Covered(s: State) {
    forall a :: a in s.active ==> exists t :: 0 <= t < |s.threads| && WorksOn(s.threads[t], a)
  }

  /** The table holds the actions being worked on, each by one thread, with the cancel function of that thread. */
  ghost predicate TableFits(s: State) {
    OneEach(s) && Entered(s) && Covered(s)
  }

  ghost predicate TodosFit(s: State) {
    forall t :: 0 <= t < |s.threads| && s.threads[t].Working? ==>
      TodoShape(s.threads[t].todo) && (|s.threads[t].todo| > 0 ==> s.threads[t].action == "run")
  }

  ghost predicate SessionsFit(s: State) {
    s.snapshot.monitor.activeSessions == s.leaked + if SomeExecuting(s) then 1 else 0
  }

  ghost predicate Inv(s: State) {
    TableFits(s) && TodosFit(s) && SessionsFit(s)
  }

  lemma ReportsShape(todo: seq<Report>, a: Attempt)
    requires EventsIn(todo) == EventsOf(a)
    ensures TodoShape(todo) && (|todo| == 1 ==> todo[0].event.kind.Started?)
  {
    var events := EventsIn(todo);
    assert |events| == |todo|;
    assert |events| > 0 ==> events[0] == todo[0].event;
    assert |events| > 1 ==> events[1] == todo[1].event;
  }

  lemma CoverKept(s: State, step: Step)
    requires Covered(s) && Enabled(s, step)
    ensures Covered(Apply(s, step))
  {
    hide Recorded, Tooled, Selected, Replaced, Reports;
    var next := Apply(s, step);
    forall a | a in next.active ensures exists t :: 0 <= t < |next.threads| && WorksOn(next.threads[t], a) {
      if step.Enter? && a == step.action {
        assert WorksOn(next.threads[step.t], a);
      } else {
        var t :| 0 <= t < |s.threads| && WorksOn(s.threads[t], a);
        assert WorksOn(next.threads[t], a);
      }
    }
  }

  lemma TableKept(s: State, step: Step)
    requires TableFits(s) && Enabled(s, step)
    ensures TableFits(Apply(s, step))
  {
    hide Recorded, Tooled, Selected, Replaced, Reports, Covered;
    CoverKept(s, step);
  }

  lemma TodosKept(s: State, step: Step)
    requires Inv(s) && Enabled(s, step)
    ensures TodosFit(Apply(s, step))
  {
    hide Recorded, Tooled, Selected, Replaced, TableFits, SessionsFit, EventsOf;
    if step.Enter? && step.action == "run" {
      ReportsShape(step.todo, step.attempt);
    }
  }

  lemma OnlyTheRunExecutes(s: State, t: nat)
    requires Inv(s) && t < |s.threads| && WorksOn(s.threads[t], "run")
    ensures forall u :: 0 <= u < |s.threads| && u != t ==> !Executing(s.threads[u])
  {
  }

  lemma EmitKeepsSessions(s: State, t: nat)
    requires Inv(s) && Enabled(s, Emit(t))
    ensures SessionsFit(Apply(s, Emit(t)))
  {
    var todo, next := s.threads[t].todo, Apply(s, Emit(t));
    OnlyTheRunExecutes(s, t);
    if todo[0].event.kind.Started? {
      assert !SomeExecuting(s);
      if |todo| == 2 {
        assert Executing(next.threads[t]);
      }
    } else {
      assert Executing(s.threads[t]);
    }
  }

  lemma SessionsKept(s: State, step: Step)
    requires Inv(s) && Enabled(s, step)
    ensures SessionsFit(Apply(s, step))
  {
    hide TableFits, TodosFit, EventsOf;
    var next := Apply(s, step);
    if step.Emit? {
      EmitKeepsSessions(s, step.t);
    } else {
      if step.Enter? && step.action == "run" {
        ReportsShape(step.todo, step.attempt);
      }
      assert forall u :: 0 <= u < |s.threads| ==> (Executing(next.threads[u]) <==> Executing(s.threads[u]));
    }
  }

  /** Every locked section, in any interleaving, keeps the table, the reports to come and the session count in step. */
  lemma StepKeepsInv(s: State, step: Step)
    requires Inv(s) && Enabled(s, step)
    ensures Inv(Apply(s, step))
  {
    hide TableFits, TodosFit, SessionsFit;
    TableKept(s, step);
    TodosKept(s, step);
    SessionsKept(s, step);
  }

  lemma StartKeepsInv(s: State)
    requires Init(s)
    ensures Inv(s)
  {
  }

  // ------------------------------------------------------------ the object

  lemma TableTells(s: State, action: string)
    requires Inv(s)
    ensures action !in s.active <==> forall u :: 0 <= u < |s.threads| ==> !WorksOn(s.threads[u], action)
  {
    hide TodosFit, SessionsFit;
  }

  /** The service with its lock held; the threads that share it are ghosts. Each locked section is one step. */
  class Service {
    var snapshot: Snapshot
    var active: map<string, nat>          // action id to its cancel function
    ghost var threads: seq<Thread>
    ghost var leaked: nat

    ghost function Now(): State
      reads this
    {
      State(snapshot, active, threads, leaked)
    }

    constructor (ghost callers: nat)
      ensures Init(Now()) && Inv(Now()) && |threads| == callers
    {
      snapshot := Snapshot("idle", "", "", "", [], [], [], Monitor(0, 0, 0, 0, "", "", "", None, None, None));
      active := map[];
      threads := seq(callers, _ => Outside);
      leaked := 0;
      new;
      StartKeepsInv(Now());
    }

    /** The locked check at the head of Execute: refused exactly while another thread works on the action. */
    method Begin(ghost t: nat, action: string, cancel: nat, ghost attempt: Attempt, ghost todo: seq<Report>)
      returns (ok: bool)
      requires Inv(Now()) && t < |threads| && threads[t].Outside? && Reports(action, attempt, todo)
      modifies this
      ensures Inv(Now())
      ensures ok <==> forall u :: 0 <= u < |old(threads)| ==> !WorksOn(old(threads)[u], action)
      ensures ok ==> Enabled(old(Now()), Enter(t, action, cancel, attempt, todo))
      ensures ok ==> Now() == Apply(old(Now()), Enter(t, action, cancel, attempt, todo))
      ensures !ok ==> Now() == old(Now())
    {
      hide TableFits, TodosFit, SessionsFit, Reports;
      TableTells(Now(), action);
      ok := action !in active;
      if ok {
        StepKeepsInv(Now(), Enter(t, action, cancel, attempt, todo));
        active := active[action := cancel];
        threads := threads[t := Working(action, cancel, todo)];
      }
    }

    /** The deferred delete: the action can be entered again, and every other one stays as it was. */
    method End(ghost t: nat, action: string)
      requires Inv(Now()) && Enabled(Now(), Drop(t)) && threads[t].action == action
      modifies this
      ensures Inv(Now()) && Now() == Apply(old(Now()), Drop(t))
      ensures forall a :: a in active <==> exists u :: 0 <= u < |old(threads)| && u != t && WorksOn(old(threads)[u], a)
    {
      hide TableFits, TodosFit, SessionsFit;
      StepKeepsInv(Now(), Drop(t));
      active := active - {action};
      threads := threads[t := Saving(action)];
      DropFreesOnlyItsAction(old(Now()), t);
    }

    /** Finds the cancel function of the one thread that works on the action, if there is one. */
    method Cancel(action: string) returns (cancel: Option<nat>)
      requires Inv(Now())
      ensures cancel.None? <==> forall u :: 0 <= u < |threads| ==> !WorksOn(threads[u], action)
      ensures forall u :: 0 <= u < |threads| && WorksOn(threads[u], action) ==> cancel == Some(threads[u].cancel)
    {
      hide TodosFit, SessionsFit;
      cancel := if action in active then Some(active[action]) else None;
    }

    method RecordExecution(ghost t: nat, r: Report)
      requires Inv(Now()) && Enabled(Now(), Emit(t)) && threads[t].todo[0] == r
      modifies this
      ensures Inv(Now()) && Now() == Apply(old(Now()), Emit(t))
      ensures !r.event.kind.Started? ==> snapshot.monitor.activeSessions == old(snapshot).monitor.activeSessions - 1
    {
      hide TableFits, TodosFit, SessionsFit;
      if !r.event.kind.Started? {
        EndFindsASession(Now(), t);
      }
      StepKeepsInv(Now(), Emit(t));
      var monitor := snapshot.monitor;
      match r.event.kind {
        case Started =>
          monitor := monitor.(activeSessions := monitor.activeSessions + 1);
        case _ =>
          if monitor.activeSessions > 0 {
            monitor := monitor.(activeSessions := monitor.activeSessions - 1);
          }
          if r.model != "" {
            monitor := monitor.(lastModel := r.model, lastProvider := r.provider, lastRuntime := r.runtime);
          }
          monitor := monitor.(usage := r.event.metrics.usage);
          monitor := monitor.(cost := r.event.metrics.cost);
          monitor := monitor.(latency := r.event.metrics.latency);
      }
      snapshot := snapshot.(monitor := monitor);
      ghost var todo := threads[t].todo;
      threads := threads[t := threads[t].(todo := todo[1..])];
      leaked := if r.event.kind.Started? && |todo| == 1 then leaked + 1 else leaked;
    }

    method RecordTool(tool: Tool)
      requires Inv(Now())
      modifies this
      ensures Inv(Now()) && Now() == Apply(old(Now()), Observe(tool))
    {
      hide TableFits, TodosFit, SessionsFit;
      StepKeepsInv(Now(), Observe(tool));
      var monitor := snapshot.monitor;
      match tool {
        case ToolStarted =>
          monitor := monitor.(activeTools := monitor.activeTools + 1);
        case ApprovalRequested =>
          monitor := monitor.(pendingApprovals := monitor.pendingApprovals + 1);
        case Artifact(count) =>
          var added := count;
          if added < 1 {
            added := 1;
          }
          monitor := monitor.(artifacts := monitor.artifacts + added);
        case _ =>
          if tool.ToolCompleted? || tool.ToolError? {
            if monitor.activeTools > 0 {
              monitor := monitor.(activeTools := monitor.activeTools - 1);
            }
          } else if monitor.pendingApprovals > 0 {
            monitor := monitor.(pendingApprovals := monitor.pendingApprovals - 1);
          }
      }
      snapshot := snapshot.(monitor := monitor);
    }

    method RecordChoice(choice: Choice)
      requires Inv(Now())
      modifies this
      ensures Inv(Now()) && Now() == Apply(old(Now()), Choose(choice))
    {
      hide TableFits, TodosFit, SessionsFit;
      StepKeepsInv(Now(), Choose(choice));
      snapshot := snapshot.(model := choice.model, monitor := snapshot.monitor.(lastModel := choice.model));
      if choice.known {
        snapshot := snapshot.(
          provider := choice.provider,
          monitor := snapshot.monitor.(lastProvider := choice.provider, lastRuntime := choice.runtime));
      }
    }

    method SetSnapshot(ghost t: nat, next: Snapshot)
      requires Inv(Now()) && Enabled(Now(), Show(t, next))
      modifies this
      ensures Inv(Now()) && Now() == Apply(old(Now()), Show(t, next))
      ensures snapshot.monitor == old(snapshot).monitor
      ensures snapshot.status == next.status && snapshot.activeAction == next.activeAction
      ensures snapshot.model == (if next.model != "" then next.model else old(snapshot).model)
      ensures snapshot.provider == (if next.provider != "" then next.provider else old(snapshot).provider)
    {
      hide TableFits, TodosFit, SessionsFit;
      StepKeepsInv(Now(), Show(t, next));
      var merged := next.(monitor := snapshot.monitor);
      if merged.model == "" { merged := merged.(model := snapshot.model); }
      if merged.provider == "" { merged := merged.(provider := snapshot.provider); }
      if |merged.providers| == 0 { merged := merged.(providers := snapshot.providers); }
      if |merged.models| == 0 { merged := merged.(models := snapshot.models); }
      if |merged.plans| == 0 { merged := merged.(plans := snapshot.plans); }
      snapshot := merged;
    }
  }

  lemma DropFreesOnlyItsAction(s: State, t: nat)
    requires Inv(s) && Enabled(s, Drop(t))
    ensures forall a :: a in Apply(s, Drop(t)).active <==> exists u :: 0 <= u < |s.threads| && u != t && WorksOn(s.threads[u], a)
  {
    hide TodosFit, SessionsFit;
    forall a | a in s.active && a != s.threads[t].action
      ensures exists u :: 0 <= u < |s.threads| && u != t && WorksOn(s.threads[u], a)
    {
      var u :| 0 <= u < |s.threads| && WorksOn(s.threads[u], a);
    }
  }

  /** The decrement guard never fires. */
  lemma EndFindsASession(s: State, t: nat)
    requires Inv(s) && Enabled(s, Emit(t)) && !s.threads[t].todo[0].event.kind.Started?
    ensures s.snapshot.monitor.activeSessions > 0
  {
    assert Executing(s.threads[t]);
  }

  // ------------------------------------------------------------ whole runs

  ghost predicate Valid(s: State, steps: seq<Step>)
    decreases |steps|
  {
    |steps| == 0 || (Enabled(s, steps[0]) && Valid(Apply(s, steps[0]), steps[1..]))
  }

  ghost function Final(s: State, steps: seq<Step>): State
    requires Valid(s, steps)
    decreases |steps|
  {
    if |steps| == 0 then s else Final(Apply(s, steps[0]), steps[1..])
  }

  ghost predicate Init(s: State) {
    && s.active == map[] && s.leaked == 0
    && s.snapshot.status == "idle" && s.snapshot.monitor == Monitor(0, 0, 0, 0, "", "", "", None, None, None)
    && forall t :: 0 <= t < |s.threads| ==> s.threads[t].Outside?
  }

  lemma {:induction false} RunsKeepInv(s: State, steps: seq<Step>)
    requires Inv(s) && Valid(s, steps)
    ensures Inv(Final(s, steps)) && |Final(s, steps).threads| == |s.threads|
    decreases |steps|
  {
    hide Inv, Enabled, Apply;
    if |steps| > 0 {
      StepKeepsInv(s, steps[0]);
      RunsKeepInv(Apply(s, steps[0]), steps[1..]);
    }
  }

  // ------------------------------------------------------------ the table

  /** In every reachable state the table is exactly the actions between check and delete, each in one thread, with the
      cancel function of that thread. */
  lemma TableIsTheUndeletedActions(s: State, steps: seq<Step>, action: string)
    requires Init(s) && Valid(s, steps)
    ensures var f := Final(s, steps);
            && (action in f.active <==> exists t :: 0 <= t < |f.threads| && WorksOn(f.threads[t], action))
            && (forall t, u :: 0 <= t < u < |f.threads| ==> !(WorksOn(f.threads[t], action) && WorksOn(f.threads[u], action)))
            && (forall t :: 0 <= t < |f.threads| && WorksOn(f.threads[t], action) ==>
                  f.active[action] == f.threads[t].cancel)
  {
    StartKeepsInv(s);
    RunsKeepInv(s, steps);
  }

  /** An action in flight can be entered again exactly when all its Executes are past their delete. */
  lemma EnteredAgainExactlyWhileSaving(s: State, steps: seq<Step>, enter: Step)
    requires Init(s) && Valid(s, steps) && enter.Enter?
    requires var f := Final(s, steps);
             enter.t < |f.threads| && f.threads[enter.t].Outside? && Reports(enter.action, enter.attempt, enter.todo)
    ensures var f := Final(s, steps);
            Enabled(f, enter)
            <==> forall u :: 0 <= u < |f.threads| && InFlight(f.threads[u], enter.action) ==> f.threads[u].Saving?
  {
    TableIsTheUndeletedActions(s, steps, enter.action);
  }

  /** So two Executes of one action are in flight together only while one of them is saving. */
  lemma OverlapsOnlyWhileSaving(s: State, steps: seq<Step>, t: nat, u: nat, action: string)
    requires Init(s) && Valid(s, steps)
    requires t < |Final(s, steps).threads| && u < |Final(s, steps).threads| && t != u
    requires InFlight(Final(s, steps).threads[t], action) && InFlight(Final(s, steps).threads[u], action)
    ensures Final(s, steps).threads[t].Saving? || Final(s, steps).threads[u].Saving?
  {
    TableIsTheUndeletedActions(s, steps, action);
  }

  function Telling(status: string, action: string): Snapshot {
    Snapshot(status, action, "", "", [], [], [], Monitor(0, 0, 0, 0, "", "", "", None, None, None))
  }

  /** And they do: the second is running when the first, failing to save, shows its own status. */
  lemma SavingOverlaps(s: State, action: string, attempt: Attempt)
    requires Init(s) && |s.threads| >= 2 && action != "run"
    ensures exists steps: seq<Step> ::
              Valid(s, steps) && var f := Final(s, steps);
              && |f.threads| >= 2 && f.threads[0] == Saving(action) && WorksOn(f.threads[1], action)
              && f.snapshot.activeAction == action && f.snapshot.status == "error"
  {
    hide Valid, Final;
    var enter0, enter1 := Enter(0, action, 0, attempt, []), Enter(1, action, 1, attempt, []);
    var running, failed := Show(1, Telling("running", action)), Show(0, Telling("error", action));
    var s1 := Apply(s, enter0);
    var s2 := Apply(s1, Drop(0));
    var s3 := Apply(s2, enter1);
    var s4 := Apply(s3, running);
    var s5 := Apply(s4, failed);
    Stop(s5);
    Shorter(failed, running, enter1, Drop(0), enter0);
    Prepend(s4, failed, []);
    Prepend(s3, running, [failed]);
    Prepend(s2, enter1, [running, failed]);
    Prepend(s1, Drop(0), [enter1, running, failed]);
    Prepend(s, enter0, [Drop(0), enter1, running, failed]);
    var steps := [enter0] + ([Drop(0)] + ([enter1] + ([running] + ([failed] + []))));
    assert Valid(s, steps) && Final(s, steps) == s5;
  }

  lemma Shorter(e: Step, d: Step, c: Step, b: Step, a: Step)
    ensures [e] + [] == [e] && [d] + [e] == [d, e] && [c] + [d, e] == [c, d, e] && [b] + [c, d, e] == [b, c, d, e]
    ensures [a] + [b, c, d, e] == [a] + ([b] + ([c] + ([d] + ([e] + []))))
  {
  }

  lemma Stop(s: State)
    ensures Valid(s, []) && Final(s, []) == s
  {
  }

  lemma Prepend(s: State, step: Step, steps: seq<Step>)
    requires Enabled(s, step) && Valid(Apply(s, step), steps)
    ensures Valid(s, [step] + steps) && Final(s, [step] + steps) == Final(Apply(s, step), steps)
  {
    assert ([step] + steps)[1..] == steps;
  }

  // ------------------------------------------------------------ sessions

  /** A run whose start the runner never closes, as can be told before the call. */
  predicate Unclosed(step: Step) {
    step.Enter? && step.action == "run" && Stranded(step.attempt)
  }

  /** A thread whose run will make a start and never close it. */
  predicate Doomed(thread: Thread) {
    thread.Working? && Unfinished(Kinds(thread.todo))
  }

  ghost predicate SomeDoomed(s: State) {
    exists t :: 0 <= t < |s.threads| && Doomed(s.threads[t])
  }

  function UnclosedRuns(steps: seq<Step>): nat
    decreases |steps|
  {
    if |steps| == 0 then 0 else (if Unclosed(steps[0]) then 1 else 0) + UnclosedRuns(steps[1..])
  }

  lemma EmitLeavesClosed(s: State, t: nat)
    requires Inv(s) && Enabled(s, Emit(t)) && !Unfinished(Kinds(s.threads[t].todo))
    ensures Apply(s, Emit(t)).leaked == s.leaked && !Unfinished(Kinds(Apply(s, Emit(t)).threads[t].todo))
  {
    var todo := s.threads[t].todo;
    assert |todo| == 1 && todo[0].event.kind.Started? ==> Kinds(todo) == [Started];
    if |todo| == 2 {
      assert Kinds(todo[1..])[0] == todo[1].event.kind;
    }
  }

  lemma DoomedOnlyRuns(s: State, t: nat)
    requires Inv(s) && t < |s.threads| && WorksOn(s.threads[t], "run")
    ensures forall u :: 0 <= u < |s.threads| && u != t ==> !Doomed(s.threads[u])
  {
    forall u | 0 <= u < |s.threads| && u != t && s.threads[u].Working? ensures !Doomed(s.threads[u]) {
      assert |Kinds(s.threads[u].todo)| == |s.threads[u].todo| == 0;
    }
  }

  lemma EntryIsDoomedExactlyWhenStranded(step: Step)
    requires step.Enter? && Reports(step.action, step.attempt, step.todo)
    ensures Unfinished(Kinds(step.todo)) <==> Unclosed(step)
  {
    hide EventsOf, Stranded;
    if step.action == "run" {
      BracketedExactlyWhenSupported(step.attempt);
    } else {
      assert |Kinds(step.todo)| == 0;
    }
  }

  lemma EnterCountsUnclosed(s: State, step: Step)
    requires Inv(s) && step.Enter? && Enabled(s, step)
    ensures SomeDoomed(Apply(s, step)) <==> SomeDoomed(s) || Unclosed(step)
    ensures !(SomeDoomed(s) && Unclosed(step))
  {
    hide EventsOf, Stranded, Unfinished, SessionsFit;
    var next := Apply(s, step);
    EntryIsDoomedExactlyWhenStranded(step);
    assert forall u :: 0 <= u < |s.threads| && u != step.t ==> next.threads[u] == s.threads[u];
    assert Doomed(next.threads[step.t]) <==> Unclosed(step);
    if step.action == "run" {
      forall u | 0 <= u < |s.threads| ensures !Doomed(s.threads[u]) {
        NotDoomedOutsideRun(s, u);
      }
    }
  }

  lemma NotDoomedOutsideRun(s: State, u: nat)
    requires Inv(s) && u < |s.threads| && "run" !in s.active
    ensures !Doomed(s.threads[u])
  {
    if s.threads[u].Working? {
      assert |Kinds(s.threads[u].todo)| == |s.threads[u].todo| == 0;
    }
  }

  /** An unclosed run is counted from when it enters, first as doomed and then as leaked. */
  lemma StepCountsUnclosed(s: State, step: Step)
    requires Inv(s) && Enabled(s, step)
    ensures var next := Apply(s, step);
            next.leaked + (if SomeDoomed(next) then 1 else 0)
            == s.leaked + (if SomeDoomed(s) then 1 else 0) + (if Unclosed(step) then 1 else 0)
  {
    hide EventsOf, Recorded, Tooled, Selected, Replaced, Reports, TableFits, SessionsFit;
    var next := Apply(s, step);
    match step {
      case Enter(_, _, _, _, _) =>
        EnterCountsUnclosed(s, step);
      case Emit(t) =>
        EmitCountsUnclosed(s, t);
      case Drop(t) =>
        assert |Kinds(s.threads[t].todo)| == 0;
        assert forall u :: 0 <= u < |s.threads| ==> (Doomed(next.threads[u]) <==> Doomed(s.threads[u]));
      case _ =>
        assert forall u :: 0 <= u < |s.threads| ==> (Doomed(next.threads[u]) <==> Doomed(s.threads[u]));
    }
  }

  lemma EmitCountsUnclosed(s: State, t: nat)
    requires Inv(s) && Enabled(s, Emit(t))
    ensures var next := Apply(s, Emit(t));
            next.leaked + (if SomeDoomed(next) then 1 else 0) == s.leaked + (if SomeDoomed(s) then 1 else 0)
  {
    hide Recorded, SessionsFit;
    var next, thread := Apply(s, Emit(t)), s.threads[t];
    DoomedOnlyRuns(s, t);
    assert forall u :: 0 <= u < |s.threads| && u != t ==> next.threads[u] == s.threads[u];
    if Doomed(thread) {
      assert |thread.todo| == |Kinds(thread.todo)| == 1 && Kinds(thread.todo)[0] == thread.todo[0].event.kind;
      assert |Kinds(next.threads[t].todo)| == 0;
    } else {
      EmitLeavesClosed(s, t);
      assert SomeDoomed(next) <==> SomeDoomed(s);
    }
  }

  lemma {:induction false} LeaksCountUnclosedRuns(s: State, steps: seq<Step>)
    requires Inv(s) && Valid(s, steps)
    ensures Final(s, steps).leaked + (if SomeDoomed(Final(s, steps)) then 1 else 0)
            == s.leaked + (if SomeDoomed(s) then 1 else 0) + UnclosedRuns(steps)
    decreases |steps|
  {
    hide Inv, Enabled, Apply, SomeDoomed, Unclosed;
    if |steps| > 0 {
      StepKeepsInv(s, steps[0]);
      StepCountsUnclosed(s, steps[0]);
      LeaksCountUnclosedRuns(Apply(s, steps[0]), steps[1..]);
    }
  }

  lemma {:induction false} NoUnclosedRuns(steps: seq<Step>)
    ensures UnclosedRuns(steps) == 0 <==> forall i :: 0 <= i < |steps| ==> !Unclosed(steps[i])
    decreases |steps|
  {
    hide Unclosed;
    if |steps| > 0 {
      NoUnclosedRuns(steps[1..]);
      assert forall i :: 1 <= i < |steps| ==> steps[i] == steps[1..][i - 1];
    }
  }

  /** The session count is the number of runs between their start and their end, plus every run ever made
      whose adapter could not execute it and whose start is already out. */
  lemma SessionsCountExecutions(s: State, steps: seq<Step>)
    requires Init(s) && Valid(s, steps)
    ensures var f := Final(s, steps);
            && f.snapshot.monitor.activeSessions + (if SomeDoomed(f) then 1 else 0)
               == (if SomeExecuting(f) then 1 else 0) + UnclosedRuns(steps)
            && forall t: nat :: Enabled(f, Emit(t)) && !f.threads[t].todo[0].event.kind.Started? ==>
                 f.snapshot.monitor.activeSessions > 0
  {
    StartKeepsInv(s);
    RunsKeepInv(s, steps);
    LeaksCountUnclosedRuns(s, steps);
    var f := Final(s, steps);
    forall t: nat | Enabled(f, Emit(t)) && !f.threads[t].todo[0].event.kind.Started?
      ensures f.snapshot.monitor.activeSessions > 0
    {
      EndFindsASession(f, t);
    }
  }

  /** Once no action is being worked on, the count is zero exactly when every routed run found an adapter that could
      execute it. */
  lemma IdleCountIsZeroExactlyWithoutUnclosedRuns(s: State, steps: seq<Step>)
    requires Init(s) && Valid(s, steps) && Final(s, steps).active == map[]
    ensures Final(s, steps).snapshot.monitor.activeSessions == 0
            <==> forall i :: 0 <= i < |steps| && steps[i].Enter? && steps[i].action == "run" ==>
                   (steps[i].attempt.routed && steps[i].attempt.runtime.Some? ==> Supported(steps[i].attempt))
  {
    hide Supported;
    SessionsCountExecutions(s, steps);
    StartKeepsInv(s);
    RunsKeepInv(s, steps);
    NoUnclosedRuns(steps);
  }

  /** One run on an adapter without a way to execute leaves the count one too high for good. */
  lemma UnsupportedRunLeaks(s: State, attempt: Attempt, report: Report)
    requires Init(s) && |s.threads| > 0 && Stranded(attempt) && report.event == START
    ensures exists steps: seq<Step> ::
              Valid(s, steps) && Final(s, steps).active == map[]
              && Final(s, steps).snapshot.monitor.activeSessions == 1
  {
    hide Valid, Final;
    var enter := Enter(0, "run", 0, attempt, [report]);
    assert EventsIn([report]) == [START] == EventsOf(attempt);
    var first := Apply(s, enter);
    var second := Apply(first, Emit(0));
    var third := Apply(second, Drop(0));
    Stop(third);
    Prepend(second, Drop(0), []);
    Prepend(first, Emit(0), [Drop(0)] + []);
    Prepend(s, enter, [Emit(0)] + ([Drop(0)] + []));
    var steps := [enter] + ([Emit(0)] + ([Drop(0)] + []));
    assert Valid(s, steps) && Final(s, steps) == third;
  }

  // ------------------------------------------------------------ tools, approvals, artifacts

  datatype Move = Up | Down

  /** A count that a guard keeps from going below zero. */
  function Clipped(n: int, moves: seq<Move>): int
    decreases |moves|
  {
    if |moves| == 0 then n else Clipped(if moves[0].Up? then n + 1 else Less(n), moves[1..])
  }

  function Net(moves: seq<Move>): int {
    if |moves| == 0 then 0 else (if moves[0].Up? then 1 else -1) + Net(moves[1..])
  }

  /** No prefix has more ends than there was to end. */
  ghost predicate NeverBelow(n: int, moves: seq<Move>) {
    forall k :: 0 <= k <= |moves| ==> n + Net(moves[..k]) >= 0
  }

  lemma NetStep(moves: seq<Move>, k: nat)
    requires 0 < k <= |moves|
    ensures Net(moves[..k]) == (if moves[0].Up? then 1 else -1) + Net(moves[1..][..k - 1])
  {
    assert moves[..k][1..] == moves[1..][..k - 1];
  }

  lemma NeverBelowStep(n: int, moves: seq<Move>)
    requires |moves| > 0
    ensures NeverBelow(n, moves) <==> n >= 0 && NeverBelow(if moves[0].Up? then n + 1 else n - 1, moves[1..])
  {
    hide Net;
    var next := if moves[0].Up? then n + 1 else n - 1;
    forall k | 0 < k <= |moves| ensures n + Net(moves[..k]) == next + Net(moves[1..][..k - 1]) {
      NetStep(moves, k);
    }
    NetOfNone(moves);
    if NeverBelow(n, moves) {
      forall k | 0 <= k <= |moves[1..]| ensures next + Net(moves[1..][..k]) >= 0 {
        assert n + Net(moves[..k + 1]) >= 0;
      }
    }
  }

  lemma NetOfNone(moves: seq<Move>)
    ensures Net(moves[..0]) == 0
  {
  }

  /** The guarded count is ups minus downs exactly when the guard never fired, and otherwise more. */
  lemma {:induction false} ClippedIsNetExactlyUnguarded(n: int, moves: seq<Move>)
    requires n >= 0
    ensures Clipped(n, moves) >= 0 && Clipped(n, moves) >= n + Net(moves)
    ensures Clipped(n, moves) == n + Net(moves) <==> NeverBelow(n, moves)
    decreases |moves|
  {
    hide NeverBelow;
    if |moves| == 0 {
      assert NeverBelow(n, moves) by { NothingBelow(n, moves); }
    } else {
      NeverBelowStep(n, moves);
      if moves[0].Down? && n == 0 {
        ClippedIsNetExactlyUnguarded(0, moves[1..]);
        NotBelowZero(moves[1..]);
      } else {
        ClippedIsNetExactlyUnguarded(if moves[0].Up? then n + 1 else n - 1, moves[1..]);
      }
    }
  }

  lemma NothingBelow(n: int, moves: seq<Move>)
    requires n >= 0 && |moves| == 0
    ensures NeverBelow(n, moves)
  {
  }

  lemma NotBelowZero(moves: seq<Move>)
    ensures !NeverBelow(-1, moves)
  {
    NetOfNone(moves);
    assert -1 + Net(moves[..0]) < 0;
  }

  function ToolMoves(step: Step): seq<Move> {
    if step.Observe? && step.tool.ToolStarted? then [Up]
    else if step.Observe? && (step.tool.ToolCompleted? || step.tool.ToolError?) then [Down]
    else []
  }

  function ApprovalMoves(step: Step): seq<Move> {
    if step.Observe? && step.tool.ApprovalRequested? then [Up]
    else if step.Observe? && (step.tool.ApprovalGranted? || step.tool.ApprovalDenied?) then [Down]
    else []
  }

  function AllMoves(steps: seq<Step>, moves: Step -> seq<Move>): seq<Move>
    decreases |steps|
  {
    if |steps| == 0 then [] else moves(steps[0]) + AllMoves(steps[1..], moves)
  }

  function Produced(steps: seq<Step>): int
    decreases |steps|
  {
    if |steps| == 0 then 0
    else
      var step := steps[0];
      (if step.Observe? && step.tool.Artifact? then (if step.tool.count < 1 then 1 else step.tool.count) else 0)
      + Produced(steps[1..])
  }

  lemma StepCounts(s: State, step: Step)
    requires Enabled(s, step)
    ensures var m, n := s.snapshot.monitor, Apply(s, step).snapshot.monitor;
            && n.activeTools == Clipped(m.activeTools, ToolMoves(step))
            && n.pendingApprovals == Clipped(m.pendingApprovals, ApprovalMoves(step))
            && n.artifacts == m.artifacts + Produced([step])
  {
    assert [step][1..] == [];
    assert forall move: Move :: [move][1..] == [];
  }

  lemma {:induction false} CountsFollow(s: State, steps: seq<Step>)
    requires Valid(s, steps)
    ensures var m, n := s.snapshot.monitor, Final(s, steps).snapshot.monitor;
            && n.activeTools == Clipped(m.activeTools, AllMoves(steps, ToolMoves))
            && n.pendingApprovals == Clipped(m.pendingApprovals, AllMoves(steps, ApprovalMoves))
            && n.artifacts == m.artifacts + Produced(steps)
    decreases |steps|
  {
    hide Enabled, Apply, ToolMoves, ApprovalMoves;
    if |steps| > 0 {
      var step, next := steps[0], Apply(s, steps[0]);
      StepCounts(s, step);
      CountsFollow(next, steps[1..]);
      assert [step][1..] == [];
      ClippedConcat(s.snapshot.monitor.activeTools, ToolMoves(step), AllMoves(steps[1..], ToolMoves));
      ClippedConcat(s.snapshot.monitor.pendingApprovals, ApprovalMoves(step), AllMoves(steps[1..], ApprovalMoves));
    }
  }

  lemma {:induction false} ClippedConcat(n: int, a: seq<Move>, b: seq<Move>)
    ensures Clipped(n, a + b) == Clipped(Clipped(n, a), b)
    decreases |a|
  {
    if |a| == 0 {
      assert a + b == b;
    } else {
      assert (a + b)[1..] == a[1..] + b;
      ClippedConcat(if a[0].Up? then n + 1 else Less(n), a[1..], b);
    }
  }

  /** Whatever snapshots are set in between, no monitor update is lost: the tools and approvals shown are those
      started less those ended, exactly when none ended that had not started, and every artifact is counted. */
  lemma MonitorCountsAreExact(s: State, steps: seq<Step>)
    requires Init(s) && Valid(s, steps)
    ensures var m := Final(s, steps).snapshot.monitor;
            var tools, approvals := AllMoves(steps, ToolMoves), AllMoves(steps, ApprovalMoves);
            && m.activeTools >= 0 && m.pendingApprovals >= 0
            && (m.activeTools == Net(tools) <==> NeverBelow(0, tools))
            && (m.pendingApprovals == Net(approvals) <==> NeverBelow(0, approvals))
            && m.artifacts == Produced(steps)
  {
    hide Valid, Final, NeverBelow, Net;
    CountsFollow(s, steps);
    ClippedIsNetExactlyUnguarded(0, AllMoves(steps, ToolMoves));
    ClippedIsNetExactlyUnguarded(0, AllMoves(steps, ApprovalMoves));
  }
}
