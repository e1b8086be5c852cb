/** What the monitor and the snapshot show: always the last thing that was reported, chosen or set. */
module MonitorShows {
  import opened Seqs
  import opened Runner
  import opened ControlService

  function LastOr<T>(s: seq<T>, none: T): T {
    if |s| == 0 then none else s[|s| - 1]
  }

  /** What a source has to say at each step of a run, in order. */
  ghost function Collected<T>(s: State, steps: seq<Step>, source: (State, Step) -> Option<T>): seq<T>
    requires Valid(s, steps)
    decreases |steps|
  {
    if |steps| == 0 then [] else AsSeq(source(s, steps[0])) + Collected(Apply(s, steps[0]), steps[1..], source)
  }

  /** A field follows a source when a step changes it to what the source says, and not at all when it says nothing. */
  ghost predicate Follows<T(!new)>(field: Snapshot -> T, source: (State, Step) -> Option<T>) {
    forall s: State, step: Step :: FollowsAt(field, source, s, step)
  }

  ghost predicate FollowsAt<T>(field: Snapshot -> T, source: (State, Step) -> Option<T>, s: State, step: Step) {
    Enabled(s, step) ==>
      field(Apply(s, step).snapshot) == if source(s, step).Some? then source(s, step).value else field(s.snapshot)
  }

  lemma LastOfMore<T>(x: Option<T>, rest: seq<T>, before: T)
    ensures LastOr(AsSeq(x) + rest, before) == LastOr(rest, if x.Some? then x.value else before)
  {
  }

  /** Then it is, after any run, the last thing the source has said. */
  lemma {:induction false} FieldIsTheLast<T(!new)>(
    s: State, steps: seq<Step>, field: Snapshot -> T, source: (State, Step) -> Option<T>)
    requires Valid(s, steps) && Follows(field, source)
    ensures field(Final(s, steps).snapshot) == LastOr(Collected(s, steps, source), field(s.snapshot))
    decreases |steps|
  {
    hide Enabled, Apply, LastOr, AsSeq;
    if |steps| > 0 {
      var next := Apply(s, steps[0]);
      FieldIsTheLast(next, steps[1..], field, source);
      LastOfMore(source(s, steps[0]), Collected(next, steps[1..], source), field(s.snapshot));
      assert FollowsAt(field, source, s, steps[0]);
    } else {
      NothingSaid(field(s.snapshot));
    }
  }

  lemma NothingSaid<T>(none: T)
    ensures LastOr([], none) == none
  {
  }

  // ------------------------------------------------------------ who says what

  /** The report of an execution that has ended. */
  function Ended(s: State, step: Step): Option<Report> {
    if step.Emit? && step.t < |s.threads| && s.threads[step.t].Working? && |s.threads[step.t].todo| > 0
       && s.threads[step.t].todo[0].event.kind != Started
    then Some(s.threads[step.t].todo[0]) else None
  }

  datatype Spent = Spent(usage: Option<Usage>, cost: Option<real>, latency: Option<int>)

  function EndSpent(s: State, step: Step): Option<Spent> {
    match Ended(s, step)
    case Some(r) => Some(Spent(r.event.metrics.usage, r.event.metrics.cost, r.event.metrics.latency))
    case None => None
  }

  function ShownSpent(s: Snapshot): Spent {
    Spent(s.monitor.usage, s.monitor.cost, s.monitor.latency)
  }

  /** A model named: by the end of an execution that knows its model, or by a choice. */
  function NamedModel(s: State, step: Step): Option<string> {
    if step.Choose? then Some(step.choice.model)
    else if Ended(s, step).Some? && Ended(s, step).value.model != "" then Some(Ended(s, step).value.model)
    else None
  }

  datatype Place = Place(provider: string, runtime: string)

  /** A provider and a runtime named: by such an end, or by the choice of a model of the snapshot. */
  function NamedPlace(s: State, step: Step): Option<Place> {
    if step.Choose? then (if step.choice.known then Some(Place(step.choice.provider, step.choice.runtime)) else None)
    else if Ended(s, step).Some? && Ended(s, step).value.model != "" then
      Some(Place(Ended(s, step).value.provider, Ended(s, step).value.runtime))
    else None
  }

  function ShownPlace(s: Snapshot): Place {
    Place(s.monitor.lastProvider, s.monitor.lastRuntime)
  }

  function SetModel(s: State, step: Step): Option<string> {
    if step.Choose? then Some(step.choice.model)
    else if step.Show? && step.next.model != "" then Some(step.next.model)
    else None
  }

  function SetProvider(s: State, step: Step): Option<string> {
    if step.Choose? && step.choice.known then Some(step.choice.provider)
    else if step.Show? && step.next.provider != "" then Some(step.next.provider)
    else None
  }

  /** A list set to something. */
  function SetList(list: Snapshot -> seq<string>): (State, Step) -> Option<seq<string>> {
    (s: State, step: Step) => if step.Show? && |list(step.next)| > 0 then Some(list(step.next)) else None
  }

  function SetStatus(s: State, step: Step): Option<(string, string)> {
    if step.Show? then Some((step.next.status, step.next.activeAction)) else None
  }

  function OfLastModel(s: Snapshot): string { s.monitor.lastModel }
  function OfModel(s: Snapshot): string { s.model }
  function OfProvider(s: Snapshot): string { s.provider }
  function OfProviders(s: Snapshot): seq<string> { s.providers }
  function OfModels(s: Snapshot): seq<string> { s.models }
  function OfPlans(s: Snapshot): seq<string> { s.plans }
  function OfStatus(s: Snapshot): (string, string) { (s.status, s.activeAction) }

  // ------------------------------------------------------------ all of it over any run

  lemma MonitorFollows(s: State, step: Step)
    ensures FollowsAt(ShownSpent, EndSpent, s, step)
    ensures FollowsAt(OfLastModel, NamedModel, s, step)
    ensures FollowsAt(ShownPlace, NamedPlace, s, step)
  {
    hide Reports;
  }

  lemma SnapshotFollows(s: State, step: Step)
    ensures FollowsAt(OfModel, SetModel, s, step)
    ensures FollowsAt(OfProvider, SetProvider, s, step)
    ensures FollowsAt(OfProviders, SetList(OfProviders), s, step)
    ensures FollowsAt(OfModels, SetList(OfModels), s, step)
    ensures FollowsAt(OfPlans, SetList(OfPlans), s, step)
    ensures FollowsAt(OfStatus, SetStatus, s, step)
  {
    hide Reports;
    if step.Show? {
      assert OfProviders(step.next) == step.next.providers && OfModels(step.next) == step.next.models;
      assert OfPlans(step.next) == step.next.plans;
    }
  }

  /** Usage, cost and latency shown are those of the last execution that ended, with nothing known before one; the last
      model, provider and runtime are those it or a later choice named. No snapshot set in between changes them. */
  lemma MonitorShowsTheLast(s: State, steps: seq<Step>)
    requires Init(s) && Valid(s, steps)
    ensures var m := Final(s, steps).snapshot.monitor;
            && Spent(m.usage, m.cost, m.latency) == LastOr(Collected(s, steps, EndSpent), Spent(None, None, None))
            && m.lastModel == LastOr(Collected(s, steps, NamedModel), "")
            && Place(m.lastProvider, m.lastRuntime) == LastOr(Collected(s, steps, NamedPlace), Place("", ""))
  {
    hide FollowsAt, Valid, Final, Collected, LastOr;
    forall r: State, step: Step
      ensures FollowsAt(ShownSpent, EndSpent, r, step) && FollowsAt(OfLastModel, NamedModel, r, step)
              && FollowsAt(ShownPlace, NamedPlace, r, step)
    {
      MonitorFollows(r, step);
    }
    assert ShownSpent(s.snapshot) == Spent(None, None, None) && ShownPlace(s.snapshot) == Place("", "");
    FieldIsTheLast(s, steps, ShownSpent, EndSpent);
    FieldIsTheLast(s, steps, OfLastModel, NamedModel);
    FieldIsTheLast(s, steps, ShownPlace, NamedPlace);
  }

  /** Model, provider and lists shown are the last ones set to something or chosen; the status is the last one set. */
  lemma SnapshotShowsTheLast(s: State, steps: seq<Step>)
    requires Valid(s, steps)
    ensures var f, b := Final(s, steps).snapshot, s.snapshot;
            && f.model == LastOr(Collected(s, steps, SetModel), b.model)
            && f.provider == LastOr(Collected(s, steps, SetProvider), b.provider)
            && f.providers == LastOr(Collected(s, steps, SetList(OfProviders)), b.providers)
            && f.models == LastOr(Collected(s, steps, SetList(OfModels)), b.models)
            && f.plans == LastOr(Collected(s, steps, SetList(OfPlans)), b.plans)
            && (f.status, f.activeAction) == LastOr(Collected(s, steps, SetStatus), (b.status, b.activeAction))
  {
    hide FollowsAt, Valid, Final, Collected, LastOr;
    forall r: State, step: Step
      ensures FollowsAt(OfModel, SetModel, r, step) && FollowsAt(OfProvider, SetProvider, r, step)
              && FollowsAt(OfProviders, SetList(OfProviders), r, step) && FollowsAt(OfModels, SetList(OfModels), r, step)
              && FollowsAt(OfPlans, SetList(OfPlans), r, step) && FollowsAt(OfStatus, SetStatus, r, step)
    {
      SnapshotFollows(r, step);
    }
    FieldIsTheLast(s, steps, OfModel, SetModel);
    FieldIsTheLast(s, steps, OfProvider, SetProvider);
    FieldIsTheLast(s, steps, OfProviders, SetList(OfProviders));
    FieldIsTheLast(s, steps, OfModels, SetList(OfModels));
    FieldIsTheLast(s, steps, OfPlans, SetList(OfPlans));
    FieldIsTheLast(s, steps, OfStatus, SetStatus);
  }
}
