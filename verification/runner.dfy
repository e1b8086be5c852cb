/** The route-and-execute use case: which lifecycle events it emits and what it returns. */
module Runner {
  import opened Seqs

  datatype Kind = Started | Completed | Failed

  datatype Usage = Usage(input: int, cached: Option<int>, output: int, total: int)

  /** The status strings of the telemetry. */
  datatype Status = InProgress | Complete | Truncated | Timeout | Aborted | Error

  /** What an event says was used; anything unknown is None. */
  datatype Metrics = Metrics(status: Status, latency: Option<int>, usage: Option<Usage>, cost: Option<real>)

  datatype Event = Event(kind: Kind, metrics: Metrics)

  /** The optional interfaces a runtime adapter implements. */
  datatype Runtime = Runtime(emitsEvents: bool, streams: bool, executes: bool)

  datatype Result = Result(output: string, error: Option<string>, truncated: bool, usage: Option<Usage>, cost: Option<real>)

  datatype Context = Alive | DeadlineExceeded | Canceled

  /** Dollars for a thousand tokens of the chosen model, None when unknown. */
  datatype Prices = Prices(input: Option<real>, output: Option<real>)

  /** One call: the routing answer, the adapter it resolves to, and what that adapter would do. */
  datatype Attempt = Attempt(
    routed: bool, runtime: Option<Runtime>, hasWriter: bool, prices: Prices,
    result: Result, streamed: string, streamError: Option<string>, elapsed: int, context: Context)

  /** The adapter can execute this request in one of the three ways the runner knows. */
  predicate Supported(a: Attempt) {
    a.runtime.Some? &&
    (a.runtime.value.emitsEvents || (a.hasWriter && a.runtime.value.streams) || a.runtime.value.executes)
  }

  /** A routed request on a resolved adapter that cannot execute it. */
  predicate Stranded(a: Attempt) {
    a.routed && a.runtime.Some? && !Supported(a)
  }

  /** ValidateExecutionResult. */
  predicate Rejected(r: Result) {
    r.error.Some? || r.truncated
  }

  /** The result the chosen way of executing yields. */
  function Executed(a: Attempt): Result
    requires Supported(a)
  {
    if a.runtime.value.emitsEvents then a.result.(output := if a.result.output == "" then a.streamed else a.result.output)
    else if a.hasWriter && a.runtime.value.streams then Result(a.streamed, a.streamError, false, None, None)
    else a.result
  }

  /** The cost of an execution: reported, or reckoned from known usage and known prices. */
  function CostOf(reported: Option<real>, usage: Option<Usage>, prices: Prices): Option<real> {
    if reported.Some? then reported
    else if usage.Some? && prices.input.Some? && prices.output.Some? then
      Some(usage.value.input as real / 1000.0 * prices.input.value + usage.value.output as real / 1000.0 * prices.output.value)
    else None
  }

  /** A thousand times the cost is what the tokens cost at the prices of a thousand. */
  predicate Reckoned(usage: Usage, input: real, output: real, cost: real) {
    1000.0 * cost == usage.input as real * input + usage.output as real * output
  }

  lemma CostIsReckoned(usage: Usage, input: real, output: real)
    ensures Reckoned(usage, input, output, CostOf(None, Some(usage), Prices(Some(input), Some(output))).value)
  {
    Thousandth(usage.input as real, input);
    Thousandth(usage.output as real, output);
  }

  lemma Thousandth(n: real, price: real)
    ensures 1000.0 * (n / 1000.0 * price) == n * price
  {
  }

  function StatusOf(a: Attempt, r: Result): Status {
    if !Rejected(r) then Complete
    else if r.truncated then Truncated
    else if a.context.DeadlineExceeded? then Timeout
    else if a.context.Canceled? then Aborted
    else Error
  }

  function MetricsOf(a: Attempt, r: Result): Metrics {
    Metrics(StatusOf(a, r), Some(a.elapsed), r.usage, CostOf(r.cost, r.usage, a.prices))
  }

  const START: Event := Event(Started, Metrics(InProgress, None, None, None))

  function EventsOf(a: Attempt): seq<Event> {
    if !a.routed || a.runtime.None? then []
    else if !Supported(a) then [START]
    else [START, Event(if Rejected(Executed(a)) then Failed else Completed, MetricsOf(a, Executed(a)))]
  }

  method Execute(a: Attempt) returns (events: seq<Event>, output: string, ok: bool)
    ensures events == EventsOf(a)
    ensures ok <==> a.routed && Supported(a) && !Rejected(Executed(a))
    ensures output == if a.routed && Supported(a) then Executed(a).output else ""
    ensures a.routed && Supported(a) ==>
              var r, last := Executed(a), events[|events| - 1];
              && (last.kind.Completed? <==> ok) && (last.metrics.status == Complete <==> ok)
              && (last.metrics.status == Truncated <==> r.truncated)
              && (last.metrics.status == Timeout <==> !ok && !r.truncated && a.context.DeadlineExceeded?)
              && last.metrics.usage == r.usage
              && (last.metrics.status == Aborted <==> !ok && !r.truncated && a.context.Canceled?)
              && last.metrics.latency == Some(a.elapsed)
              && (last.metrics.cost.Some?
                  <==> r.cost.Some? || (r.usage.Some? && a.prices.input.Some? && a.prices.output.Some?))
              && (r.cost.Some? ==> last.metrics.cost == r.cost)
              && (r.cost.None? && last.metrics.cost.Some? ==>
                    Reckoned(r.usage.value, a.prices.input.value, a.prices.output.value, last.metrics.cost.value))
    ensures |events| == if !a.routed || a.runtime.None? then 0
                        else if a.runtime.value.emitsEvents then 2
                        else if a.hasWriter && a.runtime.value.streams then 2
                        else if a.runtime.value.executes then 2 else 1
    ensures a.routed && a.runtime.Some? ==> events[0] == Event(Started, Metrics(InProgress, None, None, None))
    ensures a.routed && Supported(a) ==>
              if a.runtime.value.emitsEvents then
                && output == (if a.result.output != "" then a.result.output else a.streamed)
                && (ok <==> a.result.error.None? && !a.result.truncated)
                && events[|events| - 1].metrics.usage == a.result.usage
              else if a.hasWriter && a.runtime.value.streams then
                && output == a.streamed && (ok <==> a.streamError.None?)
                && events[|events| - 1].metrics.usage.None?
              else
                && output == a.result.output && (ok <==> a.result.error.None? && !a.result.truncated)
                && events[|events| - 1].metrics.usage == a.result.usage
  {
    if a.routed && Supported(a) && Executed(a).usage.Some? && a.prices.input.Some? && a.prices.output.Some? {
      CostIsReckoned(Executed(a).usage.value, a.prices.input.value, a.prices.output.value);
    }
    events, output, ok := [], "", false;
    if !a.routed { return; }
    if a.runtime.None? { return; }
    var runtime := a.runtime.value;
    events := events + [START];
    var result := a.result;
    if runtime.emitsEvents {
      output := result.output;
      if output == "" {
        output := a.streamed;
      }
    } else if a.hasWriter && runtime.streams {
      result := Result("", None, false, None, None);
      if a.streamError.Some? {
        result := result.(error := a.streamError);
      }
      output := a.streamed;
    } else if runtime.executes {
      output := result.output;
    } else {
      return;
    }
    if result.error.Some? || result.truncated {
      var status := ExecutionStatus(a.context, Error);
      if result.truncated {
        status := Truncated;
      }
      events := [START, Event(Failed, ExecutionMetrics(result, a.prices, a.elapsed, status))];
      return;
    }
    events := [START, Event(Completed, ExecutionMetrics(result, a.prices, a.elapsed, Complete))];
    ok := true;
  }

  function ExecutionStatus(context: Context, fallback: Status): Status {
    match context
    case DeadlineExceeded => Timeout
    case Canceled => Aborted
    case Alive => fallback
  }

  function ExecutionMetrics(r: Result, prices: Prices, elapsed: int, status: Status): Metrics {
    Metrics(status, Some(elapsed), r.usage, CostOf(r.cost, r.usage, prices))
  }

  /** A start without an end, which no later event closes. */
  predicate Unfinished(kinds: seq<Kind>) {
    kinds == [Started]
  }

  predicate Bracketed(kinds: seq<Kind>) {
    kinds == [] || kinds == [Started, Completed] || kinds == [Started, Failed]
  }

  function KindsOf(events: seq<Event>): seq<Kind> {
    seq(|events|, i requires 0 <= i < |events| => events[i].kind)
  }

  /** Every start is closed exactly when a resolved adapter supports the request. */
  lemma BracketedExactlyWhenSupported(a: Attempt)
    ensures Bracketed(KindsOf(EventsOf(a))) || Unfinished(KindsOf(EventsOf(a)))
    ensures Unfinished(KindsOf(EventsOf(a))) <==> Stranded(a)
    ensures Bracketed(KindsOf(EventsOf(a))) <==> !Stranded(a)
  {
    var kinds := KindsOf(EventsOf(a));
    assert |kinds| == 2 ==> kinds == [kinds[0], kinds[1]];
    assert |kinds| == 1 ==> kinds == [kinds[0]];
  }
}
