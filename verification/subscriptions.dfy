/** Subscriber channels of the control service: subscribing, cleaning up and publishing in any interleaving. */
module Subscriptions {
  import opened Seqs

  const CAPACITY := 64

  type Tid = nat
  type Id = nat

  datatype Event = Event(author: Tid, message: string)

  /** `sent` is everything ever put into the channel; the last `pending` of it is still buffered. */
  datatype Channel = Channel(sent: seq<Event>, pending: nat, closed: bool, watched: bool)

  /** A publisher holding the read lock still has to try the channels in `left`. */
  datatype Publisher = Quiet | Publishing(event: Event, left: set<Id>)

  datatype State = State(
    channels: seq<Channel>, subs: set<Id>, publishers: seq<Publisher>,
    published: seq<seq<Event>>, panicked: bool)

  datatype Step =
    | Subscribe(watched: bool)       // watched: the context can be cancelled
    | Cleanup(c: Id)                 // the goroutine of a watched subscription
    | BeginPublish(t: Tid, message: string)
    | Send(t: Tid, c: Id)
    | EndPublish(t: Tid)
    | Receive(c: Id)

  /** The write lock: no publisher holds the read lock. */
  ghost predicate NoReaders(s: State) {
    forall t :: 0 <= t < |s.publishers| ==> s.publishers[t].Quiet?
  }

  predicate WellFormed(s: State) {
    |s.published| == |s.publishers| && forall c :: c in s.subs ==> c < |s.channels|
  }

  ghost predicate Enabled(s: State, step: Step) {
    match step
    case Subscribe(_) => NoReaders(s)
    case Cleanup(c) => c < |s.channels| && s.channels[c].watched && NoReaders(s)
    case BeginPublish(t, _) => t < |s.publishers| && t < |s.published| && s.publishers[t].Quiet?
    case Send(t, c) => t < |s.publishers| && s.publishers[t].Publishing? && c in s.publishers[t].left && c < |s.channels|
    case EndPublish(t) => t < |s.publishers| && s.publishers[t].Publishing? && s.publishers[t].left == {}
    case Receive(c) => c < |s.channels| && s.channels[c].pending > 0
  }

  /** A non-blocking send drops the event when the buffer is full; on a closed channel it panics. */
  ghost function Apply(s: State, step: Step): State
    requires Enabled(s, step)
  {
    match step
    case Subscribe(watched) =>
      s.(channels := s.channels + [Channel([], 0, false, watched)], subs := s.subs + {|s.channels|})
    case Cleanup(c) =>
      s.(channels := s.channels[c := s.channels[c].(closed := true, watched := false)], subs := s.subs - {c},
         panicked := s.panicked || s.channels[c].closed)
    case BeginPublish(t, message) =>
      s.(publishers := s.publishers[t := Publishing(Event(t, message), s.subs)],
         published := s.published[t := s.published[t] + [Event(t, message)]])
    case Send(t, c) =>
      var event, channel := s.publishers[t].event, s.channels[c];
      s.(publishers := s.publishers[t := Publishing(event, s.publishers[t].left - {c})],
         channels := if channel.pending < CAPACITY
           then s.channels[c := channel.(sent := channel.sent + [event], pending := channel.pending + 1)] else s.channels,
         panicked := s.panicked || channel.closed)
    case EndPublish(t) => s.(publishers := s.publishers[t := Quiet])
    case Receive(c) => s.(channels := s.channels[c := s.channels[c].(pending := s.channels[c].pending - 1)])
  }

  // ------------------------------------------------------------ order

  /** a is b with some elements left out. */
  predicate Subsequence<T(==)>(a: seq<T>, b: seq<T>)
    decreases |b|
  {
    if |a| == 0 then true
    else if |b| == 0 then false
    else
      || (a[|a| - 1] == b[|b| - 1] && Subsequence(a[..|a| - 1], b[..|b| - 1]))
      || Subsequence(a, b[..|b| - 1])
  }

  lemma SubsequenceGrows<T>(a: seq<T>, b: seq<T>, x: T)
    requires Subsequence(a, b)
    ensures Subsequence(a + [x], b + [x]) && Subsequence(a, b + [x])
  {
    assert (a + [x])[..|a|] == a && (b + [x])[..|b|] == b;
  }

  function By(t: Tid): Event -> bool {
    (e: Event) => e.author == t
  }

  /** What one thread got into a channel, in order. */
  function From(channel: Channel, t: Tid): seq<Event> {
    Filter(channel.sent, By(t))
  }

  // ------------------------------------------------------------ invariant

  /** The events of a thread that a channel has been offered: all but one it has still to be tried with. */
  function Offered(s: State, t: Tid, c: Id): seq<Event>
    requires t < |s.publishers| && t < |s.published|
  {
    var p := s.published[t];
    if s.publishers[t].Publishing? && c in s.publishers[t].left && |p| > 0 then p[..|p| - 1] else p
  }

  ghost predicate ChannelsFine(s: State) {
    forall c :: 0 <= c < |s.channels| ==>
      var channel := s.channels[c];
      && channel.pending <= CAPACITY && channel.pending <= |channel.sent|
      && (channel.closed ==> c !in s.subs && !channel.watched)
  }

  ghost predicate PublishersFine(s: State)
    requires WellFormed(s)
  {
    forall t :: 0 <= t < |s.publishers| && s.publishers[t].Publishing? ==>
      && s.publishers[t].left <= s.subs && s.publishers[t].event.author == t
      && |s.published[t]| > 0 && s.published[t][|s.published[t]| - 1] == s.publishers[t].event
  }

  ghost predicate InOrder(s: State, t: Tid, c: Id)
    requires t < |s.publishers| && t < |s.published| && c < |s.channels|
  {
    Subsequence(From(s.channels[c], t), Offered(s, t, c))
  }

  ghost predicate Inv(s: State) {
    && WellFormed(s) && !s.panicked && ChannelsFine(s) && PublishersFine(s)
    && (forall t, c :: 0 <= t < |s.publishers| && 0 <= c < |s.channels| ==> InOrder(s, t, c))
  }

  lemma KeepsShape(s: State, step: Step)
    requires Inv(s) && Enabled(s, step)
    ensures var next := Apply(s, step);
            WellFormed(next) && !next.panicked && ChannelsFine(next) && PublishersFine(next)
  {
    hide InOrder;
  }

  lemma KeepsOrder(s: State, step: Step, t: Tid, c: Id)
    requires Inv(s) && Enabled(s, step) && t < |s.publishers| && c < |Apply(s, step).channels|
    requires WellFormed(Apply(s, step))
    ensures InOrder(Apply(s, step), t, c)
  {
    hide ChannelsFine, NoReaders;
    if c < |s.channels| {
      assert InOrder(s, t, c);
      var before := From(s.channels[c], t);
      match step {
        case BeginPublish(u, message) =>
          if u == t {
            PublishKeepsOrder(s, t, message, c);
          }
        case Send(u, d) =>
          if d == c {
            SendKeepsOrder(s, u, c, t);
          }
        case _ =>
      }
    }
  }

  lemma PublishKeepsOrder(s: State, t: Tid, message: string, c: Id)
    requires Inv(s) && Enabled(s, BeginPublish(t, message)) && t < |s.publishers| && c < |s.channels|
    ensures InOrder(Apply(s, BeginPublish(t, message)), t, c)
  {
    hide Subsequence, ChannelsFine, NoReaders, PublishersFine;
    assert InOrder(s, t, c);
    SubsequenceGrows(From(s.channels[c], t), s.published[t], Event(t, message));
    assert (s.published[t] + [Event(t, message)])[..|s.published[t]|] == s.published[t];
  }

  lemma OwnSendKeepsOrder(s: State, t: Tid, c: Id)
    requires Inv(s) && Enabled(s, Send(t, c)) && c < |s.channels|
    ensures InOrder(Apply(s, Send(t, c)), t, c)
  {
    hide Subsequence, ChannelsFine, NoReaders;
    var event, channel, p := s.publishers[t].event, s.channels[c], s.published[t];
    FilterStep(channel.sent, event, By(t));
    assert InOrder(s, t, c);
    var earlier := p[..|p| - 1];
    assert p == earlier + [event];
    SubsequenceGrows(From(channel, t), earlier, event);
  }

  lemma SendKeepsOrder(s: State, u: Tid, c: Id, t: Tid)
    requires Inv(s) && Enabled(s, Send(u, c)) && t < |s.publishers| && c < |s.channels|
    ensures InOrder(Apply(s, Send(u, c)), t, c)
  {
    hide Subsequence, ChannelsFine, NoReaders;
    if u == t {
      OwnSendKeepsOrder(s, t, c);
    } else {
      var event, channel, next := s.publishers[u].event, s.channels[c], Apply(s, Send(u, c));
      FilterStep(channel.sent, event, By(t));
      assert InOrder(s, t, c);
      assert From(channel, t) + [] == From(channel, t);
      assert From(next.channels[c], t) == From(channel, t) && Offered(next, t, c) == Offered(s, t, c);
    }
  }

  lemma StepKeepsInv(s: State, step: Step)
    requires Inv(s) && Enabled(s, step)
    ensures Inv(Apply(s, step))
  {
    KeepsShape(s, step);
    var next := Apply(s, step);
    forall t, c | 0 <= t < |next.publishers| && 0 <= c < |next.channels| ensures InOrder(next, t, c) {
      KeepsOrder(s, step, t, c);
    }
  }

  // ------------------------------------------------------------ whole runs

  ghost predicate Valid(s: State, steps: seq<Step>)
    decreases |steps|
  {
    |steps| == 0 || (Enabled(s, steps[0]) && Valid(Apply(s, steps[0]), steps[1..]))
  }

  ghost function Final(s: State, steps: seq<Step>): State
    requires Valid(s, steps)
    decreases |steps|
  {
    if |steps| == 0 then s else Final(Apply(s, steps[0]), steps[1..])
  }

  ghost predicate Init(s: State) {
    && s.channels == [] && s.subs == {} && !s.panicked && |s.published| == |s.publishers|
    && (forall t :: 0 <= t < |s.publishers| ==> s.publishers[t].Quiet? && s.published[t] == [])
  }

  lemma {:induction false} RunsKeepInv(s: State, steps: seq<Step>)
    requires Inv(s) && Valid(s, steps)
    ensures Inv(Final(s, steps))
    decreases |steps|
  {
    if |steps| > 0 {
      StepKeepsInv(s, steps[0]);
      RunsKeepInv(Apply(s, steps[0]), steps[1..]);
    }
  }

  /** No interleaving sends on a closed channel or closes one twice; every subscriber has received or
      holds, per publishing thread, an in-order subsequence of what it published, at most 64 pending. */
  lemma SubscribersAreSafe(s: State, steps: seq<Step>)
    requires Init(s) && Valid(s, steps)
    ensures var f := Final(s, steps);
            && !f.panicked
            && (forall c :: 0 <= c < |f.channels| ==> f.channels[c].pending <= 64)
            && |f.published| == |f.publishers|
            && (forall t, c :: 0 <= t < |f.published| && 0 <= c < |f.channels| ==>
                  Subsequence(From(f.channels[c], t), f.published[t]))
  {
    RunsKeepInv(s, steps);
    var f := Final(s, steps);
    forall t, c | 0 <= t < |f.published| && 0 <= c < |f.channels|
      ensures Subsequence(From(f.channels[c], t), f.published[t])
    {
      assert InOrder(f, t, c);
      var p := f.published[t];
      if Offered(f, t, c) != p {
        assert p == p[..|p| - 1] + [p[|p| - 1]];
        SubsequenceGrows(From(f.channels[c], t), p[..|p| - 1], p[|p| - 1]);
      }
    }
  }

  // ------------------------------------------------------------ what a subscriber does get

  /** The step neither unsubscribes the channel nor finds it full. */
  predicate Spares(s: State, step: Step, c: Id) {
    && (step.Cleanup? ==> step.c != c)
    && (step.Send? && step.c == c ==> c < |s.channels| && s.channels[c].pending < 64)
  }

  /** Such a step brings the channel exactly the event it was still to be tried with, if it tries it. */
  lemma StepDelivers(s: State, step: Step, t: Tid, c: Id)
    requires Inv(s) && Enabled(s, step) && t < |s.publishers| && c in s.subs && Spares(s, step, c)
    ensures var next := Apply(s, step);
            && WellFormed(next) && c in next.subs && t < |next.publishers| && c < |next.channels|
            && Offered(s, t, c) <= Offered(next, t, c)
            && From(next.channels[c], t) == From(s.channels[c], t) + Offered(next, t, c)[|Offered(s, t, c)|..]
  {
    hide NoReaders, InOrder, Filter, ChannelsFine;
    var before := From(s.channels[c], t);
    assert before + [] == before;
    if step.Send? && step.c == c {
      var event, channel := s.publishers[step.t].event, s.channels[c];
      FilterStep(channel.sent, event, By(t));
      if step.t == t {
        var p := s.published[t];
        assert p == p[..|p| - 1] + [event];
      }
    } else {
      SameOffer(s, step, t, c);
    }
  }

  lemma SameOffer(s: State, step: Step, t: Tid, c: Id)
    requires Inv(s) && Enabled(s, step) && t < |s.publishers| && c in s.subs
    requires (step.Cleanup? ==> step.c != c) && !(step.Send? && step.c == c)
    ensures var next := Apply(s, step);
            && t < |next.publishers| && t < |next.published| && c < |next.channels|
            && Offered(next, t, c) == Offered(s, t, c) && next.channels[c].sent == s.channels[c].sent
  {
    hide NoReaders, InOrder, ChannelsFine;
    if step.BeginPublish? && step.t == t {
      assert (s.published[t] + [Event(t, step.message)])[..|s.published[t]|] == s.published[t];
    }
  }

  /** A run that keeps the subscription and never finds its channel full. */
  ghost predicate NeverBehind(s: State, steps: seq<Step>, c: Id)
    requires Valid(s, steps)
    decreases |steps|
  {
    |steps| == 0 || (Spares(s, steps[0], c) && NeverBehind(Apply(s, steps[0]), steps[1..], c))
  }

  lemma Onward<T>(a: seq<T>, b: seq<T>, c: seq<T>)
    requires a <= b <= c
    ensures a <= c && c[|a|..] == b[|a|..] + c[|b|..]
  {
  }

  lemma {:induction false} RunDelivers(s: State, steps: seq<Step>, t: Tid, c: Id)
    requires Inv(s) && Valid(s, steps) && t < |s.publishers| && c in s.subs && NeverBehind(s, steps, c)
    ensures var f := Final(s, steps);
            && Inv(f) && c in f.subs && t < |f.publishers| && c < |f.channels|
            && Offered(s, t, c) <= Offered(f, t, c)
            && From(f.channels[c], t) == From(s.channels[c], t) + Offered(f, t, c)[|Offered(s, t, c)|..]
    decreases |steps|
  {
    hide Enabled, Apply, Offered, From, ChannelsFine, PublishersFine, InOrder, Spares;
    if |steps| == 0 {
      assert From(s.channels[c], t) + [] == From(s.channels[c], t);
    } else {
      var next := Apply(s, steps[0]);
      StepKeepsInv(s, steps[0]);
      StepDelivers(s, steps[0], t, c);
      RunDelivers(next, steps[1..], t, c);
      var f := Final(s, steps);
      Onward(Offered(s, t, c), Offered(next, t, c), Offered(f, t, c));
      var a, b := From(s.channels[c], t), Offered(next, t, c)[|Offered(s, t, c)|..];
      var d := Offered(f, t, c)[|Offered(next, t, c)|..];
      assert a + b + d == a + (b + d);
    }
  }

  /** A subscriber that is never 64 events behind gets everything published since it subscribed, from every thread in
      order, but for the one event a publisher may still be about to send it. */
  lemma SubscribersGetEverything(s: State, watched: bool, steps: seq<Step>, t: Tid)
    requires Inv(s) && Enabled(s, Subscribe(watched)) && t < |s.publishers|
    requires Valid(Apply(s, Subscribe(watched)), steps)
    requires NeverBehind(Apply(s, Subscribe(watched)), steps, |s.channels|)
    ensures var f, c := Final(Apply(s, Subscribe(watched)), steps), |s.channels|;
            && c < |f.channels| && t < |f.publishers| && t < |f.published|
            && |s.published[t]| <= |Offered(f, t, c)|
            && From(f.channels[c], t) == Offered(f, t, c)[|s.published[t]|..]
            && (f.publishers[t].Quiet? ==> From(f.channels[c], t) == f.published[t][|s.published[t]|..])
            && |Offered(f, t, c)| >= |f.published[t]| - 1
  {
    hide Offered, ChannelsFine, PublishersFine, InOrder, NeverBehind, Valid, Final;
    var first, c := Apply(s, Subscribe(watched)), |s.channels|;
    StepKeepsInv(s, Subscribe(watched));
    NothingYet(s, watched, t);
    RunDelivers(first, steps, t, c);
    var f := Final(first, steps);
    OfferedIsPublished(f, t, c);
    assert [] + Offered(f, t, c)[|s.published[t]|..] == Offered(f, t, c)[|s.published[t]|..];
  }

  lemma NothingYet(s: State, watched: bool, t: Tid)
    requires WellFormed(s) && Enabled(s, Subscribe(watched)) && t < |s.publishers|
    ensures var first, c := Apply(s, Subscribe(watched)), |s.channels|;
            && c in first.subs && t < |first.publishers| && From(first.channels[c], t) == []
            && Offered(first, t, c) == s.published[t]
  {
  }

  lemma OfferedIsPublished(s: State, t: Tid, c: Id)
    requires t < |s.publishers| && t < |s.published|
    ensures s.publishers[t].Quiet? ==> Offered(s, t, c) == s.published[t]
    ensures |Offered(s, t, c)| >= |s.published[t]| - 1
  {
  }

  function Received(steps: seq<Step>, c: Id): nat {
    if |steps| == 0 then 0 else (if steps[0] == Receive(c) then 1 else 0) + Received(steps[1..], c)
  }

  /** What is pending in a channel is what was sent into it and not received. */
  lemma {:induction false} PendingIsNotReceived(s: State, steps: seq<Step>, c: Id)
    requires Inv(s) && Valid(s, steps) && c < |s.channels|
    ensures var f := Final(s, steps);
            && c < |f.channels|
            && |f.channels[c].sent| - f.channels[c].pending
               == |s.channels[c].sent| - s.channels[c].pending + Received(steps, c)
    decreases |steps|
  {
    hide NoReaders, InOrder, ChannelsFine, PublishersFine;
    if |steps| > 0 {
      StepKeepsInv(s, steps[0]);
      PendingIsNotReceived(Apply(s, steps[0]), steps[1..], c);
    }
  }

  lemma ClosedIsLeftAlone(s: State, step: Step, c: Id)
    requires Inv(s) && Enabled(s, step) && c < |s.channels| && s.channels[c].closed
    ensures var next := Apply(s, step);
            c < |next.channels| && next.channels[c].closed && next.channels[c].sent == s.channels[c].sent
  {
    hide NoReaders, InOrder;
  }

  lemma {:induction false} ClosedStaysClosed(s: State, steps: seq<Step>, c: Id)
    requires Inv(s) && Valid(s, steps) && c < |s.channels| && s.channels[c].closed
    ensures var f := Final(s, steps);
            Inv(f) && c < |f.channels| && f.channels[c].closed && f.channels[c].sent == s.channels[c].sent && c !in f.subs
    decreases |steps|
  {
    hide Enabled, Apply, InOrder, PublishersFine;
    if |steps| > 0 {
      StepKeepsInv(s, steps[0]);
      ClosedIsLeftAlone(s, steps[0], c);
      ClosedStaysClosed(Apply(s, steps[0]), steps[1..], c);
    }
  }

  /** Once its subscription is cleaned up a channel is closed for good, gets nothing more and is in no table. */
  lemma CleanupCloses(s: State, c: Id, steps: seq<Step>)
    requires Inv(s) && Enabled(s, Cleanup(c)) && Valid(Apply(s, Cleanup(c)), steps)
    ensures var f := Final(Apply(s, Cleanup(c)), steps);
            c < |f.channels| && f.channels[c].closed && f.channels[c].sent == s.channels[c].sent && c !in f.subs
  {
    hide Valid, Final, NoReaders, InOrder, ChannelsFine, PublishersFine;
    StepKeepsInv(s, Cleanup(c));
    ClosedStaysClosed(Apply(s, Cleanup(c)), steps, c);
  }
}
