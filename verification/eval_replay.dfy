/** The offline replay of routing policies over a corpus of recorded tasks. */
module EvalReplay {
  import opened Seqs
  import opened Sorting
  import opened Floats
  import opened Percentile

  datatype Model = Model(name: string, tier: string)

  datatype Outcome = Outcome(
    accepted: bool, success: bool, confidence: Option<real>, score: Option<real>, cost: Option<real>, latency: Option<int>)

  const NO_OUTCOME: Outcome := Outcome(false, false, None, None, None, None)

  /** A budget of zero is none. */
  datatype Task = Task(id: string, kind: string, maxCost: real, outcomes: map<string, Outcome>)

  datatype Corpus = Corpus(version: int, models: seq<Model>, tasks: seq<Task>)

  const CORPUS_VERSION: int := 1

  // ------------------------------------------------------------ a corpus

  ghost predicate NamesAreUnique(models: seq<Model>) {
    forall i, j :: 0 <= i < j < |models| ==> models[i].name != models[j].name
  }

  ghost predicate WellFormed(c: Corpus) {
    && c.version == CORPUS_VERSION
    && |c.models| > 0 && |c.tasks| > 0
    && (forall i :: 0 <= i < |c.models| ==> c.models[i].name != "")
    && NamesAreUnique(c.models)
    && (forall i :: 0 <= i < |c.tasks| ==> c.tasks[i].id != "" && c.tasks[i].kind != "")
    && (forall i, j :: 0 <= i < j < |c.tasks| ==> c.tasks[i].id != c.tasks[j].id)
    && (forall i, name :: 0 <= i < |c.tasks| && name in c.tasks[i].outcomes ==> name in Names(c.models))
  }

  function Names(models: seq<Model>): set<string> {
    set i | 0 <= i < |models| :: models[i].name
  }

  method Validate(c: Corpus) returns (ok: bool)
    ensures ok <==> WellFormed(c)
  {
    if c.version != CORPUS_VERSION || |c.models| == 0 || |c.tasks| == 0 {
      return false;
    }
    var names: set<string> := {};
    for i := 0 to |c.models|
      invariant names == Names(c.models[..i])
      invariant forall k :: 0 <= k < i ==> c.models[k].name != ""
      invariant NamesAreUnique(c.models[..i])
    {
      var name := c.models[i].name;
      if name == "" {
        return false;
      }
      if name in names {
        var k :| 0 <= k < i && c.models[k].name == name;
        return false;
      }
      names := names + {name};
      assert c.models[..i + 1] == c.models[..i] + [c.models[i]];
    }
    assert c.models[..|c.models|] == c.models;
    ok := ValidTasks(c.tasks, names);
  }

  method ValidTasks(tasks: seq<Task>, names: set<string>) returns (ok: bool)
    ensures ok <==>
            && (forall i :: 0 <= i < |tasks| ==> tasks[i].id != "" && tasks[i].kind != "")
            && (forall i, j :: 0 <= i < j < |tasks| ==> tasks[i].id != tasks[j].id)
            && (forall i, name :: 0 <= i < |tasks| && name in tasks[i].outcomes ==> name in names)
  {
    var ids: set<string> := {};
    for i := 0 to |tasks|
      invariant forall id :: id in ids <==> exists k :: 0 <= k < i && tasks[k].id == id
      invariant forall k :: 0 <= k < i ==> tasks[k].id != "" && tasks[k].kind != ""
      invariant forall j, k :: 0 <= j < k < i ==> tasks[j].id != tasks[k].id
      invariant forall k, name :: 0 <= k < i && name in tasks[k].outcomes ==> name in names
    {
      var task := tasks[i];
      if task.id == "" || task.id in ids {
        return false;
      }
      ids := ids + {task.id};
      if task.kind == "" {
        return false;
      }
      if !(task.outcomes.Keys <= names) {
        var name :| name in task.outcomes && name !in names;
        return false;
      }
    }
    return true;
  }

  // ------------------------------------------------------------ ranking

  /** By a key, and by name among equal keys. */
  predicate Ranks(key: Model -> real, a: Model, b: Model) {
    key(a) < key(b) || (key(a) == key(b) && Less(a.name, b.name))
  }

  function Order(key: Model -> real): (Model, Model) -> bool {
    (a, b) => Ranks(key, a, b)
  }

  lemma OrderIsStrictWeak(key: Model -> real)
    ensures StrictWeak(Order(key))
  {
    forall x: Model ensures !Order(key)(x, x) {
      LessIsTotal(x.name, x.name);
    }
    forall x: Model, y: Model, z: Model | Order(key)(x, y) && Order(key)(y, z) ensures Order(key)(x, z) {
      if key(x) == key(y) == key(z) {
        LessIsTransitive(x.name, y.name, z.name);
      }
    }
    forall x: Model, y: Model, z: Model | !Order(key)(x, y) && !Order(key)(y, z) ensures !Order(key)(x, z) {
      NotRanksIsTransitive(key, x, y, z);
    }
  }

  lemma NotRanksIsTransitive(key: Model -> real, x: Model, y: Model, z: Model)
    requires !Ranks(key, x, y) && !Ranks(key, y, z)
    ensures !Ranks(key, x, z)
  {
    hide Less;
    LessIsTotal(x.name, y.name);
    LessIsTotal(y.name, z.name);
    LessIsTotal(x.name, z.name);
    if Ranks(key, x, z) && x.name != y.name && y.name != z.name {
      LessIsTransitive(y.name, x.name, z.name);
    }
  }

  function TierRank(tier: string): int {
    if tier == "large" then 3 else if tier == "mid" then 2 else 1
  }

  /** router.EstimatedCost and router.HardFilter, which this model leaves open. */
  datatype Router = Router(cost: (Model, Task) -> real, filter: (Task, seq<Model>) -> seq<Model>)

  function CostKey(r: Router, task: Task): Model -> real {
    (m: Model) => r.cost(m, task)
  }

  function StrengthKey(m: Model): real {
    (-TierRank(m.tier)) as real
  }

  function RankCheapest(r: Router, task: Task, models: seq<Model>): seq<Model> {
    Sort(r.filter(task, models), Order(CostKey(r, task)))
  }

  function RankStrongest(r: Router, task: Task, models: seq<Model>): seq<Model> {
    Sort(r.filter(task, models), Order(StrengthKey))
  }

  // ------------------------------------------------------------ selecting

  datatype Selection = Selection(
    task: string, model: string, selected: bool, success: bool,
    confidence: Option<real>, score: Option<real>, cost: Option<real>, latency: Option<int>, attempts: nat)

  /** What is recorded of a task no model accepts. */
  function Unresolved(task: Task, attempts: nat): Selection {
    Selection(task.id, "", false, false, None, None, None, None, attempts)
  }

  function Resolved(task: Task, m: Model, outcome: Outcome, attempts: nat): Selection {
    Selection(task.id, m.name, true, outcome.success, outcome.confidence, outcome.score, outcome.cost, outcome.latency, attempts)
  }

  function OutcomeOf(task: Task, m: Model): Outcome {
    if m.name in task.outcomes then task.outcomes[m.name] else NO_OUTCOME
  }

  predicate Accepts(task: Task, m: Model) {
    OutcomeOf(task, m).accepted
  }

  /** How many of the ranked models decline before the first that accepts. */
  function Declined(task: Task, ranked: seq<Model>): (k: nat)
    ensures k <= |ranked|
  {
    if |ranked| == 0 || Accepts(task, ranked[0]) then 0 else 1 + Declined(task, ranked[1..])
  }

  function Selecting(task: Task, ranked: seq<Model>): Selection {
    var k := Declined(task, ranked);
    if k == |ranked| then Unresolved(task, |ranked|)
    else Resolved(task, ranked[k], OutcomeOf(task, ranked[k]), k + 1)
  }

  lemma {:induction false} DeclinedIsFirst(task: Task, ranked: seq<Model>)
    ensures var k := Declined(task, ranked);
            && (forall i :: 0 <= i < k ==> !Accepts(task, ranked[i]))
            && (k < |ranked| ==> Accepts(task, ranked[k]))
  {
    if |ranked| > 0 && !Accepts(task, ranked[0]) {
      DeclinedIsFirst(task, ranked[1..]);
      assert forall i :: 1 <= i < |ranked| ==> ranked[i] == ranked[1..][i - 1];
    }
  }

  lemma {:induction false} DeclinedFrom(task: Task, ranked: seq<Model>, i: nat)
    requires i <= |ranked| && forall j :: 0 <= j < i ==> !Accepts(task, ranked[j])
    ensures Declined(task, ranked) == i + Declined(task, ranked[i..])
  {
    if i > 0 {
      assert ranked[1..][i - 1..] == ranked[i..];
      DeclinedFrom(task, ranked[1..], i - 1);
    }
  }

  ghost predicate Least(key: Model -> real, task: Task, candidates: seq<Model>, m: Model) {
    && m in candidates && Accepts(task, m)
    && forall i :: 0 <= i < |candidates| && Accepts(task, candidates[i]) ==> candidates[i] == m || Ranks(key, m, candidates[i])
  }

  /** Over candidates of different names, a sorting policy selects the least that accepts, and its number of
      attempts is its place among all the candidates. */
  lemma SortingSelectsTheLeast(key: Model -> real, task: Task, candidates: seq<Model>)
    requires NamesAreUnique(candidates)
    ensures var s := Selecting(task, Sort(candidates, Order(key)));
            && (s.selected <==> exists i :: 0 <= i < |candidates| && Accepts(task, candidates[i]))
            && (!s.selected ==> s.attempts == |candidates|)
            && (s.selected ==> exists m: Model :: SelectsAt(key, task, candidates, m, s))
  {
    hide Accepts, OutcomeOf, Sort, Ranks, Filter;
    var ranked := Sort(candidates, Order(key));
    SortedByKey(key, candidates);
    DeclinedIsFirst(task, ranked);
    Members(candidates, ranked);
    if Declined(task, ranked) < |ranked| {
      SelectedAtItsPlace(key, task, candidates, ranked);
    }
  }

  lemma SortedByKey(key: Model -> real, candidates: seq<Model>)
    ensures multiset(Sort(candidates, Order(key))) == multiset(candidates)
    ensures Sorted(Sort(candidates, Order(key)), Order(key))
  {
    hide Ranks;
    OrderIsStrictWeak(key);
    SortSorts(candidates, Order(key));
    SortPermutes(candidates, Order(key));
  }

  lemma SelectedAtItsPlace(key: Model -> real, task: Task, candidates: seq<Model>, ranked: seq<Model>)
    requires multiset(ranked) == multiset(candidates) && Sorted(ranked, Order(key)) && NamesAreUnique(candidates)
    requires Declined(task, ranked) < |ranked|
    ensures SelectsAt(key, task, candidates, ranked[Declined(task, ranked)], Selecting(task, ranked))
  {
    hide Accepts, OutcomeOf, Ranks, Filter, Sorted, NamesAreUnique, Least, Declined;
    var k := Declined(task, ranked);
    DeclinedIsFirst(task, ranked);
    SelectedIsLeast(key, task, candidates, ranked, k);
    PlaceIsRank(key, candidates, ranked, k);
  }

  /** Selected is the cheapest, respectively the strongest, candidate that accepts; names break ties. */
  lemma PoliciesSelectTheLeast(r: Router, task: Task, models: seq<Model>)
    requires NamesAreUnique(r.filter(task, models))
    ensures var s := Selecting(task, RankCheapest(r, task, models));
            s.selected ==> exists m: Model :: SelectsAt(CostKey(r, task), task, r.filter(task, models), m, s)
    ensures var s := Selecting(task, RankStrongest(r, task, models));
            s.selected ==> exists m: Model :: SelectsAt(StrengthKey, task, r.filter(task, models), m, s)
  {
    hide SelectsAt, Sort, Selecting;
    SortingSelectsTheLeast(CostKey(r, task), task, r.filter(task, models));
    SortingSelectsTheLeast(StrengthKey, task, r.filter(task, models));
  }

  lemma LeastHasLeastKey(key: Model -> real, task: Task, candidates: seq<Model>, m: Model)
    requires Least(key, task, candidates, m)
    ensures forall i :: 0 <= i < |candidates| && Accepts(task, candidates[i]) ==> key(m) <= key(candidates[i])
  {
    hide Less, Accepts;
  }

  /** What the cheapest policy selects costs no more than any candidate that would accept, by the estimate. */
  lemma CheapestIsCheapest(r: Router, task: Task, models: seq<Model>, c: Model)
    requires NamesAreUnique(r.filter(task, models)) && c in r.filter(task, models)
    requires c.name in task.outcomes && task.outcomes[c.name].accepted
    ensures var s := Selecting(task, RankCheapest(r, task, models));
            s.selected && exists m: Model ::
              m in r.filter(task, models) && m.name == s.model && r.cost(m, task) <= r.cost(c, task)
  {
    hide Sort, Selecting, SelectsAt, Least;
    SortingSelectsTheLeast(CostKey(r, task), task, r.filter(task, models));
    var s := Selecting(task, RankCheapest(r, task, models));
    assert Accepts(task, c);
    var m: Model :| SelectsAt(CostKey(r, task), task, r.filter(task, models), m, s);
    SelectedMeets(CostKey(r, task), task, r.filter(task, models), m, s, c);
  }

  lemma SelectedMeets(key: Model -> real, task: Task, candidates: seq<Model>, m: Model, s: Selection, c: Model)
    requires SelectsAt(key, task, candidates, m, s) && c in candidates && Accepts(task, c)
    ensures m in candidates && m.name == s.model && key(m) <= key(c)
  {
    hide Less, Accepts, Filter;
    LeastHasLeastKey(key, task, candidates, m);
  }

  /** What the strongest policy selects is large if a large candidate would accept, and otherwise mid if a mid one would. */
  lemma StrongestIsStrongest(r: Router, task: Task, models: seq<Model>, c: Model)
    requires NamesAreUnique(r.filter(task, models)) && c in r.filter(task, models)
    requires c.name in task.outcomes && task.outcomes[c.name].accepted
    ensures var s := Selecting(task, RankStrongest(r, task, models));
            s.selected && exists m: Model ::
              && m in r.filter(task, models) && m.name == s.model
              && (c.tier == "large" ==> m.tier == "large") && (c.tier == "mid" ==> m.tier == "large" || m.tier == "mid")
  {
    hide Sort, Selecting, SelectsAt, Least;
    SortingSelectsTheLeast(StrengthKey, task, r.filter(task, models));
    var s := Selecting(task, RankStrongest(r, task, models));
    assert Accepts(task, c);
    var m: Model :| SelectsAt(StrengthKey, task, r.filter(task, models), m, s);
    SelectedMeets(StrengthKey, task, r.filter(task, models), m, s, c);
    TiersAreRanked(m, c);
  }

  lemma TiersAreRanked(m: Model, c: Model)
    requires StrengthKey(m) <= StrengthKey(c)
    ensures c.tier == "large" ==> m.tier == "large"
    ensures c.tier == "mid" ==> m.tier == "large" || m.tier == "mid"
  {
    assert TierRank(c.tier) <= TierRank(m.tier);
  }

  /** A selection reports the recorded outcome of the model it names, and an unresolved one reports nothing. */
  lemma SelectionsReport(task: Task, ranked: seq<Model>)
    ensures var s := Selecting(task, ranked);
            && s.task == task.id && s.attempts <= |ranked|
            && (s.selected ==>
                  && s.model in task.outcomes && task.outcomes[s.model].accepted
                  && 0 < s.attempts && ranked[s.attempts - 1].name == s.model
                  && var o := task.outcomes[s.model];
                     && s.success == o.success && s.confidence == o.confidence && s.score == o.score
                     && s.cost == o.cost && s.latency == o.latency)
            && (!s.selected ==>
                  && s.attempts == |ranked| && s.model == "" && !s.success
                  && s.confidence.None? && s.score.None? && s.cost.None? && s.latency.None?)
  {
    DeclinedIsFirst(task, ranked);
  }

  ghost predicate SelectsAt(key: Model -> real, task: Task, candidates: seq<Model>, m: Model, s: Selection) {
    && Least(key, task, candidates, m)
    && s.attempts == 1 + |Filter(candidates, (c: Model) => Ranks(key, c, m))|
    && s == Resolved(task, m, OutcomeOf(task, m), s.attempts)
  }

  lemma Members(a: seq<Model>, b: seq<Model>)
    requires multiset(a) == multiset(b)
    ensures forall i :: 0 <= i < |a| ==> a[i] in b
    ensures forall i :: 0 <= i < |b| ==> b[i] in a
    ensures |a| == |b|
  {
    forall i | 0 <= i < |a| ensures a[i] in b { assert a[i] in multiset(b); }
    forall i | 0 <= i < |b| ensures b[i] in a { assert b[i] in multiset(a); }
    assert |multiset(a)| == |a| && |multiset(b)| == |b|;
  }

  lemma SelectedIsLeast(key: Model -> real, task: Task, candidates: seq<Model>, ranked: seq<Model>, k: nat)
    requires multiset(ranked) == multiset(candidates) && Sorted(ranked, Order(key)) && NamesAreUnique(candidates)
    requires k < |ranked| && Accepts(task, ranked[k]) && forall i :: 0 <= i < k ==> !Accepts(task, ranked[i])
    ensures Least(key, task, candidates, ranked[k])
  {
    hide Accepts, Less;
    Members(candidates, ranked);
    var m := ranked[k];
    forall i | 0 <= i < |candidates| && Accepts(task, candidates[i])
      ensures candidates[i] == m || Ranks(key, m, candidates[i])
    {
      var c := candidates[i];
      var j :| 0 <= j < |ranked| && ranked[j] == c;
      if c != m {
        assert k < j;
        assert !Order(key)(c, m);
        NamesDiffer(candidates, c, m);
        LessIsTotal(c.name, m.name);
      }
    }
  }

  lemma NamesDiffer(models: seq<Model>, a: Model, b: Model)
    requires NamesAreUnique(models) && a in models && b in models && a != b
    ensures a.name != b.name
  {
    var i :| 0 <= i < |models| && models[i] == a;
    var j :| 0 <= j < |models| && models[j] == b;
    assert i < j || j < i;
  }

  lemma {:induction false} UniqueModels(a: seq<Model>, b: seq<Model>)
    requires NamesAreUnique(a) && multiset(a) == multiset(b)
    ensures forall i, j :: 0 <= i < j < |b| ==> b[i] != b[j]
  {
    forall i, j | 0 <= i < j < |b| ensures b[i] != b[j] {
      if b[i] == b[j] {
        assert b == b[..i] + [b[i]] + b[i + 1..j] + [b[j]] + b[j + 1..];
        assert multiset(b)[b[i]] >= 2;
        OccursOnce(a, b[i]);
      }
    }
  }

  lemma {:induction false} OccursOnce(a: seq<Model>, m: Model)
    requires NamesAreUnique(a)
    ensures multiset(a)[m] <= 1
  {
    if |a| > 0 {
      OccursOnce(a[1..], m);
      assert a == [a[0]] + a[1..];
      forall i | 0 <= i < |a[1..]| ensures a[1..][i] != a[0] {
        assert a[1..][i] == a[i + 1];
      }
    }
  }

  /** In sorted order, exactly the models before a place rank before the model there. */
  lemma PlaceIsRank(key: Model -> real, candidates: seq<Model>, ranked: seq<Model>, k: nat)
    requires multiset(ranked) == multiset(candidates) && Sorted(ranked, Order(key)) && NamesAreUnique(candidates)
    requires k < |ranked|
    ensures |Filter(candidates, (c: Model) => Ranks(key, c, ranked[k]))| == k
  {
    hide Less, Filter;
    var before := (c: Model) => Ranks(key, c, ranked[k]);
    FilterPermutes(candidates, ranked, before);
    Members(candidates, ranked);
    UniqueModels(candidates, ranked);
    forall i | 0 <= i < k ensures before(ranked[i]) {
      assert !Order(key)(ranked[k], ranked[i]);
      NamesDiffer(candidates, ranked[i], ranked[k]);
      LessIsTotal(ranked[i].name, ranked[k].name);
    }
    LessIsTotal(ranked[k].name, ranked[k].name);
    forall i | k <= i < |ranked| ensures !before(ranked[i]) {
      assert i > k ==> !Order(key)(ranked[i], ranked[k]);
    }
    assert ranked == ranked[..k] + ranked[k..];
    FilterConcat(ranked[..k], ranked[k..], before);
    FilterAll(ranked[..k], before);
    FilterNone(ranked[k..], before);
  }

  // ------------------------------------------------------------ replaying all tasks

  /** A policy with the history it learns from; only the adaptive one writes to it. */
  datatype Policy<!H> = Policy(
    adaptive: bool, rank: (Task, H) -> seq<Model>,
    log: (H, Task, Model, bool) -> H, record: (H, Task, Model, Outcome) -> H)

  function Replay<H>(p: Policy<H>, history: H): Task -> Option<Selection> {
    (t: Task) => Some(Selecting(t, p.rank(t, history)))
  }

  /** The history after the first n of the ranked models were asked, each with its answer. */
  function Logged<H>(p: Policy<H>, task: Task, ranked: seq<Model>, n: nat, before: H): H
    requires n <= |ranked|
  {
    if n == 0 then before
    else p.log(Logged(p, task, ranked, n - 1, before), task, ranked[n - 1], Accepts(task, ranked[n - 1]))
  }

  /** What an adaptive policy knows after a task: all it asked, and the outcome of the one that accepted. */
  function Learned<H>(p: Policy<H>, task: Task, before: H): H {
    var ranked := p.rank(task, before);
    var k := Declined(task, ranked);
    if !p.adaptive then before
    else if k == |ranked| then Logged(p, task, ranked, k, before)
    else p.record(Logged(p, task, ranked, k + 1, before), task, ranked[k], OutcomeOf(task, ranked[k]))
  }

  /** And after the first n tasks. */
  function LearnedFrom<H>(p: Policy<H>, tasks: seq<Task>, start: H, n: nat): H
    requires n <= |tasks|
  {
    if n == 0 then start else Learned(p, tasks[n - 1], LearnedFrom(p, tasks, start, n - 1))
  }

  lemma LearnedStep<H>(p: Policy<H>, tasks: seq<Task>, start: H, n: nat)
    requires n < |tasks|
    ensures LearnedFrom(p, tasks, start, 0) == start
    ensures LearnedFrom(p, tasks, start, n + 1) == Learned(p, tasks[n], LearnedFrom(p, tasks, start, n))
  {
    hide Learned;
  }

  /** The selection of each of the first tasks, made with what was known by then. */
  ghost predicate Replayed<H>(p: Policy<H>, tasks: seq<Task>, start: H, histories: seq<H>, selections: seq<Selection>) {
    && |selections| == |histories| <= |tasks|
    && forall k :: 0 <= k < |selections| ==>
         && histories[k] == LearnedFrom(p, tasks, start, k)
         && selections[k] == Selecting(tasks[k], p.rank(tasks[k], histories[k]))
         && selections[k].task == tasks[k].id
  }

  lemma NothingReplayed<H>(p: Policy<H>, tasks: seq<Task>, start: H)
    ensures Replayed(p, tasks, start, [], []) && LearnedFrom(p, tasks, start, 0) == start
  {
  }

  lemma ReplayedStep<H>(p: Policy<H>, tasks: seq<Task>, start: H, histories: seq<H>, selections: seq<Selection>)
    requires Replayed(p, tasks, start, histories, selections) && |selections| < |tasks|
    ensures var task, history := tasks[|selections|], LearnedFrom(p, tasks, start, |selections|);
            Replayed(p, tasks, start, histories + [history], selections + [Selecting(task, p.rank(task, history))])
  {
    hide Selecting, LearnedFrom;
    SelectingNamesTask(tasks[|selections|], p.rank(tasks[|selections|], LearnedFrom(p, tasks, start, |selections|)));
  }

  lemma AllReplayed<H>(p: Policy<H>, tasks: seq<Task>, start: H, histories: seq<H>, selections: seq<Selection>)
    requires Replayed(p, tasks, start, histories, selections) && |selections| == |tasks|
    ensures |histories| == |tasks|
    ensures forall i :: 0 <= i < |tasks| ==> histories[i] == LearnedFrom(p, tasks, start, i)
    ensures forall i :: 0 <= i < |tasks| ==> selections[i] == Selecting(tasks[i], p.rank(tasks[i], histories[i]))
    ensures forall i :: 0 <= i < |tasks| ==> selections[i].task == tasks[i].id
  {
    hide Selecting, LearnedFrom;
  }

  method SelectOne<H>(p: Policy<H>, task: Task, before: H) returns (selection: Selection, history: H)
    ensures selection == Selecting(task, p.rank(task, before))
    ensures !p.adaptive ==> history == before
    ensures history == Learned(p, task, before)
  {
    history := before;
    var ranked := p.rank(task, history);
    selection := Unresolved(task, 0);
    for i := 0 to |ranked|
      invariant selection == Unresolved(task, i)
      invariant forall k :: 0 <= k < i ==> !Accepts(task, ranked[k])
      invariant history == if p.adaptive then Logged(p, task, ranked, i, before) else before
    {
      DeclinedFrom(task, ranked, i);
      var model := ranked[i];
      selection := selection.(attempts := selection.attempts + 1);
      var outcome := OutcomeOf(task, model);
      if p.adaptive {
        history := p.log(history, task, model, outcome.accepted);
      }
      if !outcome.accepted {
        continue;
      }
      selection := selection.(model := model.name, selected := true, success := outcome.success,
                              confidence := outcome.confidence, score := outcome.score,
                              cost := outcome.cost, latency := outcome.latency);
      if p.adaptive {
        history := p.record(history, task, model, outcome);
      }
      return;
    }
    DeclinedFrom(task, ranked, |ranked|);
  }

  /** One selection for each task, in order; without adaptation each depends on its own task alone. */
  method EvaluatePolicy<H>(ar: Arith, p: Policy<H>, tasks: seq<Task>, start: H)
    returns (selections: seq<Selection>, metrics: Metrics, ghost histories: seq<H>)
    ensures |selections| == |tasks| == |histories|
    ensures forall i :: 0 <= i < |tasks| ==> selections[i].task == tasks[i].id
    ensures forall i :: 0 <= i < |tasks| ==> selections[i] == Selecting(tasks[i], p.rank(tasks[i], histories[i]))
    ensures forall i :: 0 <= i < |tasks| ==> histories[i] == LearnedFrom(p, tasks, start, i)
    ensures !p.adaptive ==> selections == FilterMap(tasks, Replay(p, start))
    ensures Summarises(ar, metrics, tasks, selections)
    ensures metrics.counts.selected + metrics.counts.unresolved == metrics.tasks == |tasks|
  {
    hide Selecting, FilterMap, Learned, LearnedFrom, Summarises, Replayed;
    var history := start;
    selections, histories := [], [];
    NothingReplayed(p, tasks, start);
    NothingMapped(Replay(p, start));
    assert tasks[..0] == [];
    for i := 0 to |tasks|
      invariant Replayed(p, tasks, start, histories, selections) && |selections| == i
      invariant i < |tasks| ==> history == LearnedFrom(p, tasks, start, i)
      invariant !p.adaptive ==> history == start && selections == FilterMap(tasks[..i], Replay(p, start))
    {
      FilterMapStep(tasks, i, Replay(p, start));
      LearnedStep(p, tasks, start, i);
      ReplayedStep(p, tasks, start, histories, selections);
      histories := histories + [history];
      var selection;
      selection, history := SelectOne(p, tasks[i], history);
      selections := selections + [selection];
    }
    assert tasks[..|tasks|] == tasks;
    AllReplayed(p, tasks, start, histories, selections);
    metrics := Summarize(ar, tasks, selections);
    SummaryCounts(ar, metrics, tasks, selections);
  }

  lemma SummaryCounts(ar: Arith, m: Metrics, tasks: seq<Task>, selections: seq<Selection>)
    requires Summarises(ar, m, tasks, selections)
    ensures m.counts.selected + m.counts.unresolved == |selections| && m.tasks == |tasks|
  {
    hide Average, IsPercentile, FilterMap;
  }

  lemma NothingMapped<T, U>(f: T -> Option<U>)
    ensures FilterMap([], f) == []
  {
  }

  lemma SelectingNamesTask(task: Task, ranked: seq<Model>)
    ensures Selecting(task, ranked).task == task.id
  {
  }

  // ------------------------------------------------------------ metrics

  datatype Counters = Counters(selected: nat, unresolved: nat, successes: nat, attempts: nat, overBudget: nat)

  datatype Metrics = Metrics(
    tasks: nat, counts: Counters, successRate: real, averageScore: real,
    averageCost: real, p95Cost: real, averageLatency: real, p95Latency: real,
    confidenceSamples: nat, confidenceError: real, confidenceBrier: real)

  function CostOf(s: Selection): Option<real> {
    if s.selected then s.cost else None
  }

  function LatencyOf(ar: Arith): Selection -> Option<real> {
    (s: Selection) => if s.selected && s.latency.Some? then Some(ar.ofInt(s.latency.value)) else None
  }

  function AttemptsOf(s: Selection): Option<real> {
    Some(s.attempts as real)
  }

  function ScoreOf(s: Selection): Option<real> {
    if s.selected then s.score else None
  }

  /** How far the confidence was from what came of it. */
  function Missed(ar: Arith, s: Selection): Option<real> {
    if s.selected && s.confidence.Some? then Some(ar.minus(s.confidence.value, if s.success then 1.0 else 0.0)) else None
  }

  function Absolute(x: real): real {
    if x < 0.0 then -x else x
  }

  function ErrorOf(ar: Arith): Selection -> Option<real> {
    (s: Selection) => if Missed(ar, s).Some? then Some(Absolute(Missed(ar, s).value)) else None
  }

  function BrierOf(ar: Arith): Selection -> Option<real> {
    (s: Selection) => if Missed(ar, s).Some? then Some(ar.times(Missed(ar, s).value, Missed(ar, s).value)) else None
  }

  predicate Chosen(s: Selection) {
    s.selected
  }

  predicate Succeeded(s: Selection) {
    s.selected && s.success
  }

  /** findTask, as far as the budget goes: the first task of the id, or none. */
  function BudgetOf(tasks: seq<Task>, id: string): real {
    if |tasks| == 0 then 0.0 else if tasks[0].id == id then tasks[0].maxCost else BudgetOf(tasks[1..], id)
  }

  predicate OverBudget(s: Selection, budget: real) {
    s.selected && s.cost.Some? && budget > 0.0 && s.cost.value > budget
  }

  function Exceeds(tasks: seq<Task>): Selection -> bool {
    (s: Selection) => OverBudget(s, BudgetOf(tasks, s.task))
  }

  ghost predicate Counts(c: Counters, tasks: seq<Task>, selections: seq<Selection>) {
    && c.selected + c.unresolved == |selections|
    && c.selected == |Filter(selections, Chosen)|
    && c.successes == |Filter(selections, Succeeded)|
    && c.overBudget == |Filter(selections, Exceeds(tasks))|
    && c.attempts as real == Total(FilterMap(selections, AttemptsOf))
  }

  ghost predicate Summarises(ar: Arith, m: Metrics, tasks: seq<Task>, selections: seq<Selection>) {
    && m.tasks == |tasks|
    && Counts(m.counts, tasks, selections)
    && m.successRate == RatioOf(ar, m.counts.successes, m.counts.selected)
    && m.averageScore == Average(ar, FilterMap(selections, ScoreOf))
    && m.averageCost == Average(ar, FilterMap(selections, CostOf))
    && IsPercentile(FilterMap(selections, CostOf), m.p95Cost)
    && m.averageLatency == Average(ar, FilterMap(selections, LatencyOf(ar)))
    && IsPercentile(FilterMap(selections, LatencyOf(ar)), m.p95Latency)
    && m.confidenceSamples == |FilterMap(selections, ErrorOf(ar))|
    && m.confidenceError == Average(ar, FilterMap(selections, ErrorOf(ar)))
    && m.confidenceBrier == Average(ar, FilterMap(selections, BrierOf(ar)))
  }

  /** ratio. */
  function RatioOf(ar: Arith, numerator: int, denominator: int): real {
    if denominator == 0 then 0.0 else ar.over(ar.ofInt(numerator), ar.ofInt(denominator))
  }

  method Budget(tasks: seq<Task>, id: string) returns (budget: real)
    ensures budget == BudgetOf(tasks, id)
  {
    for i := 0 to |tasks|
      invariant BudgetOf(tasks, id) == BudgetOf(tasks[i..], id)
    {
      assert tasks[i..][1..] == tasks[i + 1..];
      if tasks[i].id == id {
        return tasks[i].maxCost;
      }
    }
    return 0.0;
  }

  function Counted(c: Counters, s: Selection, over: bool): Counters {
    c.(attempts := c.attempts + s.attempts,
       unresolved := c.unresolved + if s.selected then 0 else 1,
       selected := c.selected + if s.selected then 1 else 0,
       successes := c.successes + if s.selected && s.success then 1 else 0,
       overBudget := c.overBudget + if over then 1 else 0)
  }

  lemma CountStep(c: Counters, tasks: seq<Task>, selections: seq<Selection>, i: nat)
    requires i < |selections| && Counts(c, tasks, selections[..i])
    ensures Counts(Counted(c, selections[i], Exceeds(tasks)(selections[i])), tasks, selections[..i + 1])
  {
    hide Filter, FilterMap, Total, OverBudget;
    var front, s := selections[..i], selections[i];
    assert selections[..i + 1] == front + [s];
    FilterStep(front, s, Chosen);
    FilterStep(front, s, Succeeded);
    FilterStep(front, s, Exceeds(tasks));
    FilterMapStep(selections, i, AttemptsOf);
    TotalConcat(FilterMap(front, AttemptsOf), [s.attempts as real]);
    TotalOne(s.attempts as real);
  }

  method Count(tasks: seq<Task>, selections: seq<Selection>, i: nat, before: Counters) returns (c: Counters)
    requires i < |selections| && Counts(before, tasks, selections[..i])
    ensures Counts(c, tasks, selections[..i + 1])
  {
    hide Counts, BudgetOf;
    var selection := selections[i];
    CountStep(before, tasks, selections, i);
    c := before.(attempts := before.attempts + selection.attempts);
    if !selection.selected {
      return c.(unresolved := c.unresolved + 1);
    }
    c := c.(selected := c.selected + 1);
    if selection.success {
      c := c.(successes := c.successes + 1);
    }
    var budget := Budget(tasks, selection.task);
    if budget > 0.0 && selection.cost.Some? && selection.cost.value > budget {
      c := c.(overBudget := c.overBudget + 1);
    }
  }

  /** The lists of known values the loop collects. */
  datatype Values = Values(scores: seq<real>, costs: seq<real>, latencies: seq<real>, errors: seq<real>, briers: seq<real>)

  ghost predicate Collected(ar: Arith, v: Values, selections: seq<Selection>) {
    && v.scores == FilterMap(selections, ScoreOf)
    && v.costs == FilterMap(selections, CostOf)
    && v.latencies == FilterMap(selections, LatencyOf(ar))
    && v.errors == FilterMap(selections, ErrorOf(ar))
    && v.briers == FilterMap(selections, BrierOf(ar))
  }

  method Collect(ar: Arith, selections: seq<Selection>, i: nat, before: Values) returns (v: Values)
    requires i < |selections| && Collected(ar, before, selections[..i])
    ensures Collected(ar, v, selections[..i + 1])
  {
    hide FilterMap, Absolute;
    FilterMapStep(selections, i, ScoreOf);
    FilterMapStep(selections, i, CostOf);
    FilterMapStep(selections, i, LatencyOf(ar));
    FilterMapStep(selections, i, ErrorOf(ar));
    FilterMapStep(selections, i, BrierOf(ar));
    v := before;
    assert before.scores + [] == before.scores && before.errors + [] == before.errors && before.briers + [] == before.briers;
    assert before.costs + [] == before.costs && before.latencies + [] == before.latencies;
    var selection := selections[i];
    if !selection.selected {
      return;
    }
    if selection.score.Some? {
      v := v.(scores := v.scores + [selection.score.value]);
    }
    if selection.confidence.Some? {
      var target := if selection.success then 1.0 else 0.0;
      var missed := ar.minus(selection.confidence.value, target);
      v := v.(errors := v.errors + [Absolute(missed)], briers := v.briers + [ar.times(missed, missed)]);
    }
    if selection.cost.Some? {
      v := v.(costs := v.costs + [selection.cost.value]);
    }
    if selection.latency.Some? {
      v := v.(latencies := v.latencies + [ar.ofInt(selection.latency.value)]);
    }
  }

  method Summarize(ar: Arith, tasks: seq<Task>, selections: seq<Selection>) returns (metrics: Metrics)
    ensures Summarises(ar, metrics, tasks, selections)
  {
    hide Filter, FilterMap, Total, Counts, Average, IsPercentile;
    var c, v := Counters(0, 0, 0, 0, 0), Values([], [], [], [], []);
    NothingSummarized(ar, tasks);
    assert selections[..0] == [];
    for i := 0 to |selections|
      invariant Counts(c, tasks, selections[..i]) && Collected(ar, v, selections[..i])
    {
      c := Count(tasks, selections, i, c);
      v := Collect(ar, selections, i, v);
    }
    assert selections[..|selections|] == selections;
    var averageScore := AverageOf(ar, v.scores);
    var averageCost := AverageOf(ar, v.costs);
    var p95Cost := Percentile95(v.costs);
    var averageLatency := AverageOf(ar, v.latencies);
    var p95Latency := Percentile95(v.latencies);
    var confidenceError := AverageOf(ar, v.errors);
    var confidenceBrier := AverageOf(ar, v.briers);
    metrics := Metrics(|tasks|, c, RatioOf(ar, c.successes, c.selected), averageScore, averageCost, p95Cost,
                       averageLatency, p95Latency, |v.errors|, confidenceError, confidenceBrier);
  }

  lemma NothingSummarized(ar: Arith, tasks: seq<Task>)
    ensures Counts(Counters(0, 0, 0, 0, 0), tasks, [])
    ensures Collected(ar, Values([], [], [], [], []), [])
  {
  }

  lemma CountsIgnoreOrder(tasks: seq<Task>, a: seq<Selection>, b: seq<Selection>, c: Counters, d: Counters)
    requires multiset(a) == multiset(b) && Counts(c, tasks, a) && Counts(d, tasks, b)
    ensures c == d
  {
    hide Filter, FilterMap, Total;
    assert |multiset(a)| == |a| && |multiset(b)| == |b|;
    FilterPermutes(a, b, Chosen);
    FilterPermutes(a, b, Succeeded);
    FilterPermutes(a, b, Exceeds(tasks));
    SameValues(a, b, AttemptsOf);
  }

  lemma OneValue(s: Selection, f: Selection -> Option<real>)
    ensures FilterMap([s], f) == AsSeq(f(s))
  {
  }

  lemma AverageOfOne(ar: Arith, x: real)
    ensures Average(ar, [x]) == ar.over(ar.plus(0.0, x), ar.ofInt(1)) && Average(ar, []) == 0.0
  {
    assert [x] == [] + [x];
    SumStep(ar, [], x);
  }

  /** The metrics of one resolved task are its own numbers, each under its own name. */
  lemma MetricsOfOne(ar: Arith, tasks: seq<Task>, s: Selection, m: Metrics)
    requires Summarises(ar, m, tasks, [s]) && s.selected
    ensures m.counts.selected == 1 && m.counts.unresolved == 0 && m.counts.attempts == s.attempts
    ensures m.counts.successes == if s.success then 1 else 0
    ensures match s.cost
            case Some(cost) => m.p95Cost == cost && m.averageCost == ar.over(ar.plus(0.0, cost), ar.ofInt(1))
            case None => m.p95Cost == 0.0 && m.averageCost == 0.0
    ensures match s.score
            case Some(score) => m.averageScore == ar.over(ar.plus(0.0, score), ar.ofInt(1))
            case None => m.averageScore == 0.0
    ensures match s.latency
            case Some(ms) =>
              && m.p95Latency == ar.ofInt(ms)
              && m.averageLatency == ar.over(ar.plus(0.0, ar.ofInt(ms)), ar.ofInt(1))
            case None => m.p95Latency == 0.0 && m.averageLatency == 0.0
    ensures match s.confidence
            case Some(confidence) =>
              var off := ar.minus(confidence, if s.success then 1.0 else 0.0);
              && m.confidenceSamples == 1
              && m.confidenceError == ar.over(ar.plus(0.0, if off < 0.0 then -off else off), ar.ofInt(1))
              && m.confidenceBrier == ar.over(ar.plus(0.0, ar.times(off, off)), ar.ofInt(1))
            case None => m.confidenceSamples == 0 && m.confidenceError == 0.0 && m.confidenceBrier == 0.0
  {
    hide FilterMap, Covers, Average, Exceeds, Sum, Total;
    OneValue(s, ScoreOf);
    OneValue(s, CostOf);
    OneValue(s, LatencyOf(ar));
    OneValue(s, ErrorOf(ar));
    OneValue(s, BrierOf(ar));
    OneValue(s, AttemptsOf);
    TotalOne(s.attempts as real);
    AverageOfOne(ar, 0.0);
    if s.score.Some? { AverageOfOne(ar, s.score.value); }
    if s.cost.Some? { AverageOfOne(ar, s.cost.value); }
    if s.latency.Some? { AverageOfOne(ar, ar.ofInt(s.latency.value)); }
    if s.confidence.Some? {
      var off := Missed(ar, s).value;
      AverageOfOne(ar, Absolute(off));
      AverageOfOne(ar, ar.times(off, off));
    }
  }

  /** The loop adds up the same in both orders: since no order of these values matters, or since nothing rounds. */
  ghost predicate AddUpAlike(ar: Arith, a: seq<real>, b: seq<real>) {
    OrdersAgree(ar, a) || (Exact(ar, a) && Exact(ar, b))
  }

  /** All but the averages are the same, and so is each average whose values add up alike. */
  ghost predicate SameUpToRounding(ar: Arith, a: seq<Selection>, b: seq<Selection>, m: Metrics, n: Metrics) {
    && m.(averageScore := n.averageScore, averageCost := n.averageCost, averageLatency := n.averageLatency,
          confidenceError := n.confidenceError, confidenceBrier := n.confidenceBrier) == n
    && (AddUpAlike(ar, FilterMap(a, ScoreOf), FilterMap(b, ScoreOf)) ==> m.averageScore == n.averageScore)
    && (AddUpAlike(ar, FilterMap(a, CostOf), FilterMap(b, CostOf)) ==> m.averageCost == n.averageCost)
    && (AddUpAlike(ar, FilterMap(a, LatencyOf(ar)), FilterMap(b, LatencyOf(ar))) ==> m.averageLatency == n.averageLatency)
    && (AddUpAlike(ar, FilterMap(a, ErrorOf(ar)), FilterMap(b, ErrorOf(ar))) ==> m.confidenceError == n.confidenceError)
    && (AddUpAlike(ar, FilterMap(a, BrierOf(ar)), FilterMap(b, BrierOf(ar))) ==> m.confidenceBrier == n.confidenceBrier)
  }

  /** Counters, rate, percentiles and samples depend on which selections there are, not on their order; the averages
      do where their additions round differently. */
  lemma MetricsIgnoreOrder(ar: Arith, tasks: seq<Task>, a: seq<Selection>, b: seq<Selection>, m: Metrics, n: Metrics)
    requires multiset(a) == multiset(b) && Summarises(ar, m, tasks, a) && Summarises(ar, n, tasks, b)
    ensures SameUpToRounding(ar, a, b, m, n)
  {
    hide Filter, FilterMap, IsPercentile, Counts, Average, AddUpAlike;
    CountsIgnoreOrder(tasks, a, b, m.counts, n.counts);
    SameAverages(ar, a, b, ScoreOf);
    SameAverages(ar, a, b, CostOf);
    SameAverages(ar, a, b, LatencyOf(ar));
    SameAverages(ar, a, b, ErrorOf(ar));
    SameAverages(ar, a, b, BrierOf(ar));
    PercentileIsOneValue(FilterMap(a, CostOf), FilterMap(b, CostOf), m.p95Cost, n.p95Cost);
    PercentileIsOneValue(FilterMap(a, LatencyOf(ar)), FilterMap(b, LatencyOf(ar)), m.p95Latency, n.p95Latency);
  }

  lemma SameValues(a: seq<Selection>, b: seq<Selection>, f: Selection -> Option<real>)
    requires multiset(a) == multiset(b)
    ensures multiset(FilterMap(a, f)) == multiset(FilterMap(b, f))
    ensures |FilterMap(a, f)| == |FilterMap(b, f)|
    ensures Total(FilterMap(a, f)) == Total(FilterMap(b, f))
  {
    hide FilterMap;
    FilterMapPermutes(a, b, f);
    var x, y := FilterMap(a, f), FilterMap(b, f);
    assert |multiset(x)| == |x| && |multiset(y)| == |y|;
    TotalPermutes(x, y);
  }

  lemma SameAverages(ar: Arith, a: seq<Selection>, b: seq<Selection>, f: Selection -> Option<real>)
    requires multiset(a) == multiset(b)
    ensures multiset(FilterMap(a, f)) == multiset(FilterMap(b, f)) && |FilterMap(a, f)| == |FilterMap(b, f)|
    ensures AddUpAlike(ar, FilterMap(a, f), FilterMap(b, f))
            ==> Average(ar, FilterMap(a, f)) == Average(ar, FilterMap(b, f))
  {
    hide FilterMap, Exact;
    SameValues(a, b, f);
    if Exact(ar, FilterMap(a, f)) && Exact(ar, FilterMap(b, f)) {
      ExactSumsAgree(ar, FilterMap(a, f), FilterMap(b, f));
    }
  }

  function Costing(task: string, cost: real): Selection {
    Selection(task, "m", true, true, None, None, Some(cost), None, 1)
  }

  /** The failing input: with the costs 0.1, 0.2 and 0.3 the average cost depends on the order. */
  lemma OrderShowsInTheAverage(ar: Arith, tasks: seq<Task>, m: Metrics, n: Metrics)
    requires Binary64(ar)
    requires var a, b, c := Costing("a", Value(TENTH)), Costing("b", Value(FIFTH)), Costing("c", Value(THREE_TENTHS));
             Summarises(ar, m, tasks, [a, b, c]) && Summarises(ar, n, tasks, [c, b, a])
    ensures m.averageCost == Value(7205759403792795) && n.averageCost == Value(7205759403792793)
    ensures m.averageCost != n.averageCost
  {
    hide Value, Binary64, Counts, IsPercentile, Sum;
    OrderShows(ar);
    Costs("a", Value(TENTH), "b", Value(FIFTH), "c", Value(THREE_TENTHS));
    Costs("c", Value(THREE_TENTHS), "b", Value(FIFTH), "a", Value(TENTH));
    ValuesDiffer();
  }

  lemma ValuesDiffer()
    ensures Value(7205759403792795) != Value(7205759403792793)
  {
  }

  lemma Costs(a: string, x: real, b: string, y: real, c: string, z: real)
    ensures FilterMap([Costing(a, x), Costing(b, y), Costing(c, z)], CostOf) == [x, y, z]
  {
    var s := [Costing(a, x), Costing(b, y), Costing(c, z)];
    assert s[1..] == [s[1], s[2]] && s[1..][1..] == [s[2]];
    assert FilterMap([s[2]], CostOf) == [z];
    assert FilterMap(s[1..], CostOf) == [y] + [z];
  }

  // ------------------------------------------------------------ latencies

  /** All milliseconds waited for, whatever their sign. */
  function Waited(selections: seq<Selection>): nat {
    if |selections| == 0 then 0 else Waited(selections[..|selections| - 1]) + WaitOf(selections[|selections| - 1])
  }

  function WaitOf(s: Selection): nat {
    if s.selected && s.latency.Some? then (if s.latency.value < 0 then -s.latency.value else s.latency.value) else 0
  }

  /** Latencies that add up to at most 2^53 milliseconds are added without rounding, in any order. */
  lemma {:induction false} LatenciesAddExactly(ar: Arith, selections: seq<Selection>) returns (total: int)
    requires ExactOnIntegers(ar) && Waited(selections) <= EXACT
    ensures Exact(ar, FilterMap(selections, LatencyOf(ar)))
    ensures Sum(ar, FilterMap(selections, LatencyOf(ar))) == total as real
    ensures total <= Waited(selections) && -total <= Waited(selections)
  {
    hide FilterMap;
    if |selections| == 0 {
      total := 0;
      NothingMapped(LatencyOf(ar));
    } else {
      var n := |selections| - 1;
      var front, s := selections[..n], selections[n];
      total := LatenciesAddExactly(ar, front);
      FilterMapStep(selections, n, LatencyOf(ar));
      assert selections[..n + 1] == selections;
      var before, all := FilterMap(front, LatencyOf(ar)), FilterMap(selections, LatencyOf(ar));
      if s.selected && s.latency.Some? {
        assert AddsExactly(ar, total, s.latency.value);
        assert all[..|all| - 1] == before;
        total := total + s.latency.value;
      } else {
        assert all == before;
      }
    }
  }

  lemma {:induction false} WaitedPermutes(a: seq<Selection>, b: seq<Selection>)
    requires multiset(a) == multiset(b)
    ensures Waited(a) == Waited(b)
  {
    WaitedIsTotal(a);
    WaitedIsTotal(b);
    SameValues(a, b, Waits);
  }

  function Waits(s: Selection): Option<real> {
    Some(WaitOf(s) as real)
  }

  lemma {:induction false} WaitedIsTotal(selections: seq<Selection>)
    ensures Waited(selections) as real == Total(FilterMap(selections, Waits))
  {
    hide FilterMap;
    if |selections| == 0 {
      NothingMapped(Waits);
    } else {
      var n := |selections| - 1;
      WaitedIsTotal(selections[..n]);
      FilterMapStep(selections, n, Waits);
      assert selections[..n + 1] == selections;
      var before, all := FilterMap(selections[..n], Waits), FilterMap(selections, Waits);
      assert all[..|all| - 1] == before;
    }
  }

  /** So the average latency never depends on the order before the waits add up to 2^53 milliseconds. */
  lemma LatencyIgnoresOrder(ar: Arith, tasks: seq<Task>, a: seq<Selection>, b: seq<Selection>, m: Metrics, n: Metrics)
    requires ExactOnIntegers(ar) && Waited(a) <= EXACT
    requires multiset(a) == multiset(b) && Summarises(ar, m, tasks, a) && Summarises(ar, n, tasks, b)
    ensures m.averageLatency == n.averageLatency
  {
    hide FilterMap, Summarises, ExactOnIntegers, Exact, OrdersAgree, LatencyOf;
    WaitedPermutes(a, b);
    var x := LatenciesAddExactly(ar, a);
    var y := LatenciesAddExactly(ar, b);
    MetricsIgnoreOrder(ar, tasks, a, b, m, n);
  }

  // ------------------------------------------------------------ the order of the tasks

  ghost predicate UniqueIds(tasks: seq<Task>) {
    forall i, j :: 0 <= i < j < |tasks| ==> tasks[i].id != tasks[j].id
  }

  lemma {:induction false} BudgetOfTask(tasks: seq<Task>, i: nat)
    requires UniqueIds(tasks) && i < |tasks|
    ensures BudgetOf(tasks, tasks[i].id) == tasks[i].maxCost
  {
    if i > 0 {
      assert tasks[0].id != tasks[i].id;
      assert forall j, k :: 0 <= j < k < |tasks[1..]| ==> tasks[1..][j] == tasks[j + 1] && tasks[1..][k] == tasks[k + 1];
      BudgetOfTask(tasks[1..], i - 1);
    }
  }

  lemma {:induction false} BudgetOfNone(tasks: seq<Task>, id: string)
    requires forall i :: 0 <= i < |tasks| ==> tasks[i].id != id
    ensures BudgetOf(tasks, id) == 0.0
  {
    if |tasks| > 0 {
      BudgetOfNone(tasks[1..], id);
    }
  }

  /** A selection for a task breaks its budget exactly when the task has one and the selected model cost more. */
  lemma BudgetIsOfTheTask(tasks: seq<Task>, i: nat, s: Selection)
    requires UniqueIds(tasks) && i < |tasks| && s.task == tasks[i].id
    ensures Exceeds(tasks)(s) <==>
              s.selected && s.cost.Some? && tasks[i].maxCost > 0.0 && s.cost.value > tasks[i].maxCost
  {
    BudgetOfTask(tasks, i);
  }

  /** Tasks of different ids have the same budgets in any order. */
  lemma BudgetsIgnoreOrder(a: seq<Task>, b: seq<Task>, id: string)
    requires multiset(a) == multiset(b) && UniqueIds(a) && UniqueIds(b)
    ensures BudgetOf(a, id) == BudgetOf(b, id)
  {
    if i :| 0 <= i < |a| && a[i].id == id {
      assert a[i] in multiset(b);
      var j :| 0 <= j < |b| && b[j] == a[i];
      BudgetOfTask(a, i);
      BudgetOfTask(b, j);
    } else {
      forall j | 0 <= j < |b| ensures b[j].id != id {
        assert b[j] in multiset(a);
      }
      BudgetOfNone(a, id);
      BudgetOfNone(b, id);
    }
  }

  lemma SameBudgetsSameCounts(a: seq<Task>, b: seq<Task>, selections: seq<Selection>, c: Counters)
    requires multiset(a) == multiset(b) && UniqueIds(a) && UniqueIds(b) && Counts(c, a, selections)
    ensures Counts(c, b, selections)
  {
    hide Filter, FilterMap, Total, BudgetOf, OverBudget, UniqueIds;
    forall i | 0 <= i < |selections| ensures Exceeds(a)(selections[i]) <==> Exceeds(b)(selections[i]) {
      BudgetsIgnoreOrder(a, b, selections[i].task);
    }
    FilterAgree(selections, Exceeds(a), Exceeds(b));
  }

  /** For a policy that does not adapt, permuting the tasks of a corpus only permutes the selections, and changes no
      metric but through the rounding of an average. */
  lemma TaskOrderIsIrrelevant<H>(ar: Arith, p: Policy<H>, start: H, a: seq<Task>, b: seq<Task>, m: Metrics, n: Metrics)
    requires !p.adaptive && multiset(a) == multiset(b) && UniqueIds(a) && UniqueIds(b)
    requires Summarises(ar, m, a, FilterMap(a, Replay(p, start))) && Summarises(ar, n, b, FilterMap(b, Replay(p, start)))
    ensures multiset(FilterMap(a, Replay(p, start))) == multiset(FilterMap(b, Replay(p, start)))
    ensures SameUpToRounding(ar, FilterMap(a, Replay(p, start)), FilterMap(b, Replay(p, start)), m, n)
  {
    hide FilterMap, Counts, Average, IsPercentile, UniqueIds, SameUpToRounding;
    assert |multiset(a)| == |a| && |multiset(b)| == |b|;
    FilterMapPermutes(a, b, Replay(p, start));
    SameBudgetsSameCounts(a, b, FilterMap(a, Replay(p, start)), m.counts);
    MetricsIgnoreOrder(ar, b, FilterMap(a, Replay(p, start)), FilterMap(b, Replay(p, start)), m, n);
  }
}
