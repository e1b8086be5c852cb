/** One event log as bytes: appending, replaying, bounded replay and selective removal. */
module LedgerFile {
  import opened Seqs
  import opened Text

  const SCHEMA_VERSION := 1
  const MAX_EVENT_LINE_BYTES := 1024 * 1024
  const MAX_HISTORY_LOG_BYTES := 4 * 1024 * 1024

  /** The event fields that decide validity and identity; a zero timestamp is an unset one. */
  datatype Event = Event(
    schemaVersion: int, timestamp: int, eventId: string, runId: string,
    kind: string, taskId: string, detail: string)

  /** JSON as a one-line encoder and a partial decoder. */
  datatype Codec = Codec(encode: Event -> string, decode: string -> Option<Event>)

  ghost predicate Faithful(codec: Codec) {
    forall e: Event ::
      var line := codec.encode(e);
      IsLine(line) && line != "" && Trim(line) == line && codec.decode(line) == Some(e)
  }

  /** What Append writes for an event, or None when it refuses the event. */
  function Stamped(event: Event, id: string, now: int, redact: string -> string): Option<Event> {
    if Trim(event.runId) == "" || Trim(event.kind) == "" then None
    else Some(event.(schemaVersion := SCHEMA_VERSION, timestamp := now, eventId := id, detail := redact(event.detail)))
  }

  /** The check Read makes on a decoded event. */
  predicate Current(event: Event) {
    && event.schemaVersion == SCHEMA_VERSION && event.eventId != "" && event.runId != ""
    && event.kind != "" && event.timestamp != 0
  }

  /** The event Read recovers from one line. */
  function Replayed(codec: Codec, line: string): Option<Event> {
    match codec.decode(Trim(line))
    case Some(event) => if !Blank(line) && Current(event) then Some(event) else None
    case None => None
  }

  // ------------------------------------------------------------ replay

  function Replays(codec: Codec): string -> Option<Event> {
    line => Replayed(codec, line)
  }

  function Events(codec: Codec, lines: seq<string>): seq<Event> {
    FilterMap(lines, Replays(codec))
  }

  predicate HasText(line: string) {
    !Blank(line)
  }

  function NonBlank(lines: seq<string>): nat {
    |Filter(lines, HasText)|
  }

  lemma ReplayStep(codec: Codec, lines: seq<string>, line: string)
    ensures Events(codec, lines + [line]) == Events(codec, lines) + AsSeq(Replayed(codec, line))
    ensures NonBlank(lines + [line]) == NonBlank(lines) + if Blank(line) then 0 else 1
  {
    FilterMapConcat(lines, [line], Replays(codec));
    FilterStep(lines, line, HasText);
    assert FilterMap([line], Replays(codec)) == AsSeq(Replayed(codec, line));
  }

  /** bufio.ScanLines: an empty piece after the last newline is not a token. */
  function Tokens(data: string): seq<string> {
    var parts := Split(data, '\n');
    if parts[|parts| - 1] == "" then parts[..|parts| - 1] else parts
  }

  /** The scanner's buffer holds a line with its newline, or gives up on the whole file. */
  predicate FitsLine(line: string) {
    Size(line) < MAX_EVENT_LINE_BYTES
  }

  predicate Fits(lines: seq<string>) {
    forall i :: 0 <= i < |lines| ==> FitsLine(lines[i])
  }

  /** The lines before the first one the scanner cannot hold. */
  function Fitting(lines: seq<string>): (r: seq<string>)
    ensures r <= lines && Fits(r)
    ensures |r| < |lines| ==> !FitsLine(lines[|r|])
    ensures r == lines <==> Fits(lines)
  {
    if |lines| == 0 || !FitsLine(lines[0]) then [] else [lines[0]] + Fitting(lines[1..])
  }

  lemma {:induction false} FittingConcat(a: seq<string>, b: seq<string>)
    requires Fits(a)
    ensures Fitting(a + b) == a + Fitting(b)
  {
    if |a| == 0 {
      assert a + b == b;
    } else {
      assert (a + b)[1..] == a[1..] + b;
      FittingConcat(a[1..], b);
    }
  }

  lemma {:induction false} FittingIgnoresLater(lines: seq<string>, later: seq<string>)
    requires !Fits(lines)
    ensures Fitting(lines + later) == Fitting(lines)
  {
    hide FitsLine;
    if |lines| > 0 && FitsLine(lines[0]) {
      assert (lines + later)[1..] == lines[1..] + later;
      FittingIgnoresLater(lines[1..], later);
    }
  }

  /** What Read returns of a file. */
  function ReadEvents(codec: Codec, data: string): seq<Event> {
    Events(codec, Fitting(Tokens(data)))
  }

  lemma {:induction false} EventsAreCurrent(codec: Codec, lines: seq<string>)
    ensures forall i :: 0 <= i < |Events(codec, lines)| ==> Current(Events(codec, lines)[i])
  {
    hide Trim, Current;
    if |lines| > 0 {
      EventsAreCurrent(codec, lines[1..]);
      assert Events(codec, lines) == AsSeq(Replayed(codec, lines[0])) + Events(codec, lines[1..]);
    }
  }

  /** An event Read may return: none of its identifying fields unset, and of the one schema there is. */
  predicate Complete(e: Event) {
    e.schemaVersion == 1 && |e.eventId| > 0 && |e.runId| > 0 && |e.kind| > 0 && !(e.timestamp == 0)
  }

  lemma ReadIsComplete(codec: Codec, data: string)
    ensures forall i :: 0 <= i < |ReadEvents(codec, data)| ==> Complete(ReadEvents(codec, data)[i])
  {
    hide Tokens, FitsLine, Replayed;
    EventsAreCurrent(codec, Fitting(Tokens(data)));
  }

  /** Read stops with an error at the first line the scanner cannot hold. */
  method Read(codec: Codec, data: string) returns (events: seq<Event>, corrupt: nat, tooLong: bool)
    ensures events == ReadEvents(codec, data)
    ensures forall i :: 0 <= i < |events| ==> Complete(events[i])
    ensures |events| + corrupt == NonBlank(Fitting(Tokens(data)))
    ensures tooLong <==> !Fits(Tokens(data))
  {
    var tokens := Tokens(data);
    hide Tokens, Trim, Size, Complete;
    ReadIsComplete(codec, data);
    events, corrupt, tooLong := [], 0, false;
    var n := 0;
    while n < |tokens|
      invariant 0 <= n <= |tokens|
      invariant Fits(tokens[..n])
      invariant events == Events(codec, tokens[..n])
      invariant |events| + corrupt == NonBlank(tokens[..n])
    {
      if !FitsLine(tokens[n]) {
        FittingStops(tokens, n);
        return events, corrupt, true;
      }
      ReplayStep(codec, tokens[..n], tokens[n]);
      assert tokens[..n + 1] == tokens[..n] + [tokens[n]];
      var line := Trim(tokens[n]);
      if line != "" {
        var decoded := codec.decode(line);
        if decoded.None? || !Current(decoded.value) {
          corrupt := corrupt + 1;
        } else {
          events := events + [decoded.value];
        }
      }
      n := n + 1;
    }
    assert tokens[..n] == tokens;
  }

  lemma FittingStops(lines: seq<string>, n: nat)
    requires n < |lines| && Fits(lines[..n]) && !FitsLine(lines[n])
    ensures Fitting(lines) == lines[..n]
  {
    FittingConcat(lines[..n], lines[n..]);
    assert lines == lines[..n] + lines[n..];
  }

  lemma TokensOfLines(lines: seq<string>, rest: string)
    requires AreLines(lines) && IsLine(rest)
    ensures Tokens(Unlines(lines) + rest) == lines + (if rest == "" then [] else [rest])
  {
    SplitUnlines(lines, rest);
    SplitPiece(rest, '\n');
    assert (lines + [rest])[..|lines|] == lines;
  }

  lemma TokensOfUnlines(lines: seq<string>)
    requires AreLines(lines)
    ensures Tokens(Unlines(lines)) == lines
  {
    TokensOfLines(lines, "");
    assert Unlines(lines) + "" == Unlines(lines);
    assert lines + [] == lines;
  }

  /** A log line as it came to be: written by Append, or anything else that does not replay. */
  datatype Item = Appended(event: Event) | Foreign(line: string)

  function LineOf(codec: Codec, item: Item): string {
    match item
    case Appended(event) => codec.encode(event)
    case Foreign(line) => line
  }

  function LinesOf(codec: Codec, items: seq<Item>): seq<string> {
    seq(|items|, i requires 0 <= i < |items| => LineOf(codec, items[i]))
  }

  function AppendedEvent(item: Item): Option<Event> {
    if item.Appended? then Some(item.event) else None
  }

  predicate Genuine(codec: Codec, item: Item) {
    match item case Appended(event) => Current(event) case Foreign(line) => IsLine(line) && Replayed(codec, line).None?
  }

  ghost predicate AllGenuine(codec: Codec, items: seq<Item>) {
    forall i :: 0 <= i < |items| ==> Genuine(codec, items[i])
  }

  lemma {:induction false} MixedLinesReplay(codec: Codec, items: seq<Item>)
    requires Faithful(codec) && AllGenuine(codec, items)
    ensures Events(codec, LinesOf(codec, items)) == FilterMap(items, AppendedEvent)
    ensures AreLines(LinesOf(codec, items))
  {
    if |items| > 0 {
      assert LinesOf(codec, items)[1..] == LinesOf(codec, items[1..]);
      MixedLinesReplay(codec, items[1..]);
      assert Genuine(codec, items[0]);
      if items[0].Appended? {
        assert codec.decode(codec.encode(items[0].event)) == Some(items[0].event);
      }
    }
  }

  /** No line up to and including the one at i reaches the scanner's limit. */
  predicate Reachable(lines: seq<string>, i: nat)
    requires i < |lines|
  {
    Fits(lines[..i + 1])
  }

  lemma ReachableExactlyFitting(lines: seq<string>, i: nat)
    requires i < |lines|
    ensures Reachable(lines, i) <==> i < |Fitting(lines)|
  {
    var k := |Fitting(lines)|;
    if i < k {
      assert forall j :: 0 <= j <= i ==> lines[j] == Fitting(lines)[j];
    } else {
      assert lines[..i + 1][k] == lines[k];
    }
  }

  lemma {:induction false} NoneAppended(items: seq<Item>)
    ensures FilterMap(items, AppendedEvent) == [] <==> forall i :: 0 <= i < |items| ==> items[i].Foreign?
  {
    if |items| > 0 {
      NoneAppended(items[1..]);
      assert forall i :: 1 <= i < |items| ==> items[i] == items[1..][i - 1];
    }
  }

  lemma PrefixHasAllAppended(items: seq<Item>, k: nat)
    requires k <= |items|
    ensures FilterMap(items[..k], AppendedEvent) == FilterMap(items, AppendedEvent)
            <==> forall i :: 0 <= i < |items| && items[i].Appended? ==> i < k
  {
    FilterMapConcat(items[..k], items[k..], AppendedEvent);
    assert items == items[..k] + items[k..];
    var front, back := FilterMap(items[..k], AppendedEvent), FilterMap(items[k..], AppendedEvent);
    assert |front + back| == |front| + |back| && front + [] == front;
    NoneAppended(items[k..]);
    assert forall i :: k <= i < |items| ==> items[i] == items[k..][i - k];
  }

  lemma MixedPrefixReplays(codec: Codec, items: seq<Item>)
    requires Faithful(codec) && AllGenuine(codec, items)
    ensures var lines := LinesOf(codec, items);
            ReadEvents(codec, Unlines(lines)) == FilterMap(items[..|Fitting(lines)|], AppendedEvent)
  {
    hide Faithful, Genuine, Tokens, Size;
    var lines := LinesOf(codec, items);
    MixedLinesReplay(codec, items);
    TokensOfUnlines(lines);
    assert Fitting(lines) == LinesOf(codec, items[..|Fitting(lines)|]);
    MixedLinesReplay(codec, items[..|Fitting(lines)|]);
  }

  /** Reading a log made of appended events and of anything else returns, in order, exactly the appended events
      before the first line too long to read: all of them exactly when no such line comes before one of them. */
  lemma MixedLogReplays(codec: Codec, items: seq<Item>)
    requires Faithful(codec) && AllGenuine(codec, items)
    ensures var lines := LinesOf(codec, items);
            ReadEvents(codec, Unlines(lines)) == FilterMap(items[..|Fitting(lines)|], AppendedEvent)
    ensures var lines := LinesOf(codec, items);
            ReadEvents(codec, Unlines(lines)) == FilterMap(items, AppendedEvent)
            <==> forall i :: 0 <= i < |items| && items[i].Appended? ==> Reachable(lines, i)
  {
    hide Faithful, AllGenuine, ReadEvents, Reachable, FilterMap;
    var lines := LinesOf(codec, items);
    MixedPrefixReplays(codec, items);
    PrefixHasAllAppended(items, |Fitting(lines)|);
    forall i | 0 <= i < |items| ensures Reachable(lines, i) <==> i < |Fitting(lines)| {
      ReachableExactlyFitting(lines, i);
    }
  }

  /** One line at the limit hides every later event from Read. */
  lemma OverlongLineHidesTheRest(codec: Codec, long: string, event: Event)
    requires Faithful(codec) && Current(event) && IsLine(long) && |long| >= 1_048_576
    ensures var data := Unlines([long, codec.encode(event)]);
            ReadEvents(codec, data) == [] && Replayed(codec, codec.encode(event)) == Some(event)
    ensures |ReadEvents(codec, Unlines([codec.encode(event), long]))|
            == if Size(codec.encode(event)) < 1_048_576 then 1 else 0
  {
    SizeAtLeast(long);
    var line := codec.encode(event);
    assert IsLine(line) && codec.decode(line) == Some(event);
    TokensOfUnlines([long, line]);
    TokensOfUnlines([line, long]);
    assert Fitting([long, line]) == [];
    assert [line, long][1..] == [long];
    assert Fitting([line, long]) == if FitsLine(line) then [line] else [];
  }

  /** What Append accepts is read back unchanged after what was there, exactly when neither its line nor an earlier one
      is too long for the scanner; an append never changes what was read before. */
  lemma StampedReplays(codec: Codec, lines: seq<string>, event: Event, id: string, now: int, redact: string -> string)
    requires Faithful(codec) && id != "" && now != 0 && AreLines(lines)
    ensures match Stamped(event, id, now, redact)
            case Some(stamped) =>
              var line := codec.encode(stamped);
              && !Blank(event.runId) && !Blank(event.kind)
              && stamped.runId == event.runId && stamped.taskId == event.taskId && stamped.kind == event.kind
              && stamped.eventId == id && stamped.timestamp == now && stamped.detail == redact(event.detail)
              && ReadEvents(codec, Unlines(lines) + line + "\n")
                 == ReadEvents(codec, Unlines(lines)) + (if Fits(lines) && FitsLine(line) then [stamped] else [])
            case None => Blank(event.runId) || Blank(event.kind)
  {
    hide Tokens, Size;
    var stamped := Stamped(event, id, now, redact);
    if stamped.Some? {
      AppendedIsRead(codec, lines, stamped.value);
    }
  }

  lemma AppendedIsRead(codec: Codec, lines: seq<string>, event: Event)
    requires Faithful(codec) && Current(event) && AreLines(lines)
    ensures var line := codec.encode(event);
            ReadEvents(codec, Unlines(lines) + line + "\n")
            == ReadEvents(codec, Unlines(lines)) + (if Fits(lines) && FitsLine(line) then [event] else [])
  {
    hide Tokens, FitsLine, Trim;
    var line := codec.encode(event);
    assert IsLine(line) && codec.decode(line) == Some(event) && Trim(line) == line;
    assert Unlines([line]) == line + "\n";
    UnlinesConcat(lines, [line]);
    assert Unlines(lines) + (line + "\n") == Unlines(lines) + line + "\n";
    TokensOfUnlines(lines);
    TokensOfUnlines(lines + [line]);
    if Fits(lines) {
      FittingConcat(lines, [line]);
      assert Fitting([line]) == if FitsLine(line) then [line] else [];
      ReplayStep(codec, lines, line);
      assert lines + [] == lines;
    } else {
      FittingIgnoresLater(lines, [line]);
    }
  }

  // ------------------------------------------------------------ bounded replay

  /** reader.ReadBytes('\n'): what is left after the first newline, nothing when there is none. */
  function AfterNewline(data: string): (rest: string)
    ensures |rest| <= |data|
    ensures ('\n' in data && exists head: string :: data == head + "\n" + rest) || ('\n' !in data && rest == "")
  {
    if data == "" then ""
    else if data[0] == '\n' then
      assert data == "" + "\n" + data[1..];
      data[1..]
    else
      var rest := AfterNewline(data[1..]);
      assert '\n' in data[1..] ==> '\n' in data && exists head: string :: data == head + "\n" + rest by {
        if '\n' in data[1..] {
          var head: string :| data[1..] == head + "\n" + rest;
          assert data == ([data[0]] + head) + "\n" + rest;
        }
      }
      rest
  }

  lemma {:induction false} AfterNewlineSkips(head: string, rest: string)
    requires IsLine(head)
    ensures AfterNewline(head + "\n" + rest) == rest
  {
    if head == "" {
      assert (head + "\n" + rest)[1..] == rest;
    } else {
      assert (head + "\n" + rest)[1..] == head[1..] + "\n" + rest;
      AfterNewlineSkips(head[1..], rest);
    }
  }

  /** The part of a stable file that the bounded reader hands to Read. */
  function Bounded(data: string, limit: nat): string {
    if Size(data) > limit then AfterNewline(Tail(data, limit)) else data
  }

  lemma TokensConcat(head: string, rest: string)
    ensures Tokens(head + "\n" + rest) == Split(head, '\n') + Tokens(rest)
  {
    SplitConcat(head, rest, '\n');
    var a, b := Split(head, '\n'), Split(rest, '\n');
    assert (a + b)[..|a| + |b| - 1] == a + b[..|b| - 1];
  }

  /** The bounded reader sees a suffix of the lines, never a torn line. */
  lemma BoundedIsSuffix(data: string, limit: nat)
    ensures exists k :: 0 <= k <= |Tokens(data)| && Tokens(Bounded(data, limit)) == Tokens(data)[k..]
  {
    hide Tokens;
    if Size(data) <= limit {
      assert Tokens(data)[0..] == Tokens(data);
    } else {
      var window := Tail(data, limit);
      var skipped := data[..|data| - |window|];
      var rest := AfterNewline(window);
      if '\n' in window {
        var head: string :| window == head + "\n" + rest;
        assert data == (skipped + head) + "\n" + rest;
        TokensConcat(skipped + head, rest);
        var k := |Split(skipped + head, '\n')|;
        assert Tokens(data)[k..] == Tokens(rest);
      } else {
        TokensOfUnlines([]);
        assert Tokens(data)[|Tokens(data)|..] == [];
      }
    }
  }

  /** What the history view takes from a log: nothing when the window holds a line too long to read. */
  function Shown(codec: Codec, data: string): seq<Event> {
    var window := Bounded(data, MAX_HISTORY_LOG_BYTES);
    if Fits(Tokens(window)) then ReadEvents(codec, window) else []
  }

  /** In a log that fits the window, one line too long hides every event from the view, also those before it. */
  lemma OverlongLineHidesTheLog(codec: Codec, lines: seq<string>)
    requires AreLines(lines) && Size(Unlines(lines)) <= 4_194_304
    ensures Shown(codec, Unlines(lines)) == if Fits(lines) then Events(codec, lines) else []
  {
    TokensOfUnlines(lines);
  }

  /** The history view shows a suffix of the full replay whenever every line fits the scanner. */
  lemma BoundedReplayIsSuffix(codec: Codec, data: string)
    requires Fits(Tokens(data))
    ensures Fits(Tokens(Bounded(data, MAX_HISTORY_LOG_BYTES)))
    ensures exists older :: ReadEvents(codec, data) == older + Shown(codec, data)
  {
    hide Tokens, Bounded, Size;
    BoundedIsSuffix(data, MAX_HISTORY_LOG_BYTES);
    var k :| 0 <= k <= |Tokens(data)| && Tokens(Bounded(data, MAX_HISTORY_LOG_BYTES)) == Tokens(data)[k..];
    assert Fits(Tokens(data)[k..]);
    SuffixReplays(codec, Tokens(data), k);
    assert ReadEvents(codec, data) == Events(codec, Tokens(data)[..k]) + Shown(codec, data);
  }

  lemma SuffixReplays(codec: Codec, lines: seq<string>, k: nat)
    requires k <= |lines|
    ensures Events(codec, lines) == Events(codec, lines[..k]) + Events(codec, lines[k..])
  {
    FilterMapConcat(lines[..k], lines[k..], Replays(codec));
    assert lines == lines[..k] + lines[k..];
  }

  // ------------------------------------------------------------ selective removal

  datatype Selector = Selector(runId: string, taskId: string, eventId: string)

  predicate Matches(event: Event, selector: Selector) {
    if selector.runId != "" then event.runId == selector.runId
    else if selector.taskId != "" then event.taskId == selector.taskId
    else selector.eventId != "" && event.eventId == selector.eventId
  }

  /** Removal decodes the raw line, unlike Read, which decodes the trimmed one. */
  predicate Removes(codec: Codec, selector: Selector, line: string) {
    !Blank(line) && codec.decode(line).Some? && Matches(codec.decode(line).value, selector)
  }

  function Keeps(codec: Codec, selector: Selector): string -> bool {
    line => !Removes(codec, selector, line)
  }

  function Kept(codec: Codec, selector: Selector, lines: seq<string>): seq<string> {
    Filter(lines, Keeps(codec, selector))
  }

  lemma KeptAreLines(codec: Codec, selector: Selector, lines: seq<string>)
    requires AreLines(lines)
    ensures AreLines(Kept(codec, selector, lines))
  {
    FilterMembers(lines, Keeps(codec, selector));
  }

  /** What removal has written after the first lines: a newline follows every kept line but the last. */
  function Written(codec: Codec, selector: Selector, lines: seq<string>, index: nat): string
    requires 1 <= |lines| && index <= |lines|
  {
    if index < |lines| then Unlines(Kept(codec, selector, lines[..index]))
    else
      var last := lines[|lines| - 1];
      Unlines(Kept(codec, selector, lines[..|lines| - 1])) + (if Removes(codec, selector, last) then "" else last)
  }

  function Rewritten(codec: Codec, selector: Selector, data: string): string {
    var lines := Split(data, '\n');
    Written(codec, selector, lines, |lines|)
  }

  /** Every terminated line and a torn last line are kept or dropped whole, byte for byte. */
  lemma RewrittenLines(codec: Codec, selector: Selector, lines: seq<string>, rest: string)
    requires AreLines(lines) && IsLine(rest)
    ensures Rewritten(codec, selector, Unlines(lines) + rest)
            == Unlines(Kept(codec, selector, lines)) + (if Removes(codec, selector, rest) then "" else rest)
  {
    SplitUnlines(lines, rest);
    SplitPiece(rest, '\n');
    assert (lines + [rest])[..|lines|] == lines;
  }

  lemma RewrittenWhole(codec: Codec, selector: Selector, lines: seq<string>)
    requires AreLines(lines)
    ensures Rewritten(codec, selector, Unlines(lines)) == Unlines(Kept(codec, selector, lines))
  {
    RewrittenLines(codec, selector, lines, "");
    assert Unlines(lines) + "" == Unlines(lines);
    assert Unlines(Kept(codec, selector, lines)) + "" == Unlines(Kept(codec, selector, lines));
  }

  /** Reading a rewritten file meets exactly the kept lines. */
  lemma TokensOfRewritten(codec: Codec, selector: Selector, data: string)
    ensures Tokens(Rewritten(codec, selector, data)) == Kept(codec, selector, Tokens(data))
  {
    hide Removes, Rewritten, Tokens, Split, Kept;
    var lines := Split(data, '\n');
    var body, last := lines[..|lines| - 1], lines[|lines| - 1];
    UnlinesPieces(data);
    KeptAreLines(codec, selector, body);
    RewrittenLines(codec, selector, body, last);
    TokensOfLines(Kept(codec, selector, body), if Removes(codec, selector, last) then "" else last);
    TokensOfLines(body, last);
    KeptConcat(codec, selector, body, last);
  }

  lemma KeptConcat(codec: Codec, selector: Selector, lines: seq<string>, last: string)
    ensures Kept(codec, selector, lines + (if last == "" then [] else [last]))
            == Kept(codec, selector, lines)
               + (if last == "" || Removes(codec, selector, last) then [] else [last])
  {
    OnlyKept(codec, selector, last);
    FilterConcat(lines, [last], Keeps(codec, selector));
    assert lines + [] == lines && Kept(codec, selector, lines) + [] == Kept(codec, selector, lines);
  }

  lemma OnlyKept(codec: Codec, selector: Selector, line: string)
    ensures Kept(codec, selector, [line]) == if Removes(codec, selector, line) then [] else [line]
    ensures line == "" ==> !Removes(codec, selector, line)
  {
  }

  ghost predicate AnyRemoved(codec: Codec, selector: Selector, lines: seq<string>) {
    exists i :: 0 <= i < |lines| && Removes(codec, selector, lines[i])
  }

  /** The run id a removed line reports, none when it is empty. */
  function RunOf(codec: Codec, selector: Selector, line: string): set<string> {
    if Removes(codec, selector, line) && codec.decode(line).value.runId != ""
    then {codec.decode(line).value.runId} else {}
  }

  /** The run ids a removal reports, which select the mission records and receipts to drop. */
  function RemovedRuns(codec: Codec, selector: Selector, lines: seq<string>): set<string> {
    if |lines| == 0 then {}
    else RemovedRuns(codec, selector, lines[..|lines| - 1]) + RunOf(codec, selector, lines[|lines| - 1])
  }

  lemma {:induction false} RemovedRunsExact(codec: Codec, selector: Selector, lines: seq<string>, run: string)
    ensures run in RemovedRuns(codec, selector, lines)
            <==> exists i :: 0 <= i < |lines| && run in RunOf(codec, selector, lines[i])
  {
    if |lines| > 0 {
      RemovedRunsExact(codec, selector, lines[..|lines| - 1], run);
    }
  }

  lemma KeptStep(codec: Codec, selector: Selector, lines: seq<string>, line: string)
    ensures Unlines(Kept(codec, selector, lines + [line]))
            == Unlines(Kept(codec, selector, lines)) + if Removes(codec, selector, line) then "" else line + "\n"
  {
    var step := Only(line, Keeps(codec, selector));
    FilterStep(lines, line, Keeps(codec, selector));
    UnlinesConcat(Kept(codec, selector, lines), step);
    assert Unlines([line]) == line + "\n";
  }

  lemma NothingRemoved(codec: Codec, selector: Selector, data: string)
    requires !AnyRemoved(codec, selector, Split(data, '\n'))
    ensures Rewritten(codec, selector, data) == data
  {
    var lines := Split(data, '\n');
    var body := lines[..|lines| - 1];
    forall i | 0 <= i < |body| ensures !Removes(codec, selector, body[i]) {
      assert body[i] == lines[i];
    }
    FilterAll(body, Keeps(codec, selector));
    UnlinesJoin(lines);
    JoinOfSplit(data, '\n');
  }

  /** The loop of removeMatchingTUILedgerLines between reading and replacing the file. */
  method RemoveMatching(codec: Codec, selector: Selector, data: string)
    returns (kept: string, matched: set<string>, removed: bool)
    ensures kept == Rewritten(codec, selector, data)
    ensures matched == RemovedRuns(codec, selector, Split(data, '\n'))
    ensures removed <==> AnyRemoved(codec, selector, Split(data, '\n'))
    ensures !removed ==> kept == data
  {
    hide Blank, Matches, Written, Split, Rewritten, AnyRemoved, RemovedRuns;
    var lines := Split(data, '\n');
    kept, matched, removed := "", {}, false;
    NothingYet(codec, selector, data);
    var index := 0;
    while index < |lines|
      invariant 0 <= index <= |lines|
      invariant kept == Written(codec, selector, lines, index)
      invariant removed <==> AnyRemoved(codec, selector, lines[..index])
      invariant matched == RemovedRuns(codec, selector, lines[..index])
    {
      var line := lines[index];
      WrittenStep(codec, selector, lines, index);
      RemovedStep(codec, selector, lines, index);
      var remove, decoded := false, codec.decode(line);
      if !Blank(line) && decoded.Some? {
        remove := Matches(decoded.value, selector);
      }
      if remove {
        removed := true;
        var runId := decoded.value.runId;
        if runId != "" {
          matched := matched + {runId};
        }
      } else {
        kept := kept + line;
        if index < |lines| - 1 {
          kept := kept + "\n";
        }
      }
      index := index + 1;
    }
    assert lines[..index] == lines;
    if !removed {
      NothingRemoved(codec, selector, data);
    }
  }

  lemma WrittenStep(codec: Codec, selector: Selector, lines: seq<string>, index: nat)
    requires index < |lines|
    ensures Written(codec, selector, lines, index + 1)
            == if Removes(codec, selector, lines[index]) then Written(codec, selector, lines, index)
               else if index < |lines| - 1 then Written(codec, selector, lines, index) + lines[index] + "\n"
               else Written(codec, selector, lines, index) + lines[index]
  {
    hide Removes, Kept, Unlines;
    var line, before := lines[index], Written(codec, selector, lines, index);
    if index < |lines| - 1 {
      KeptStep(codec, selector, lines[..index], line);
      assert lines[..index + 1] == lines[..index] + [line];
      assert before + (line + "\n") == before + line + "\n";
    } else {
      assert before + "" == before;
    }
  }

  lemma NothingYet(codec: Codec, selector: Selector, data: string)
    ensures var lines := Split(data, '\n');
            && Written(codec, selector, lines, 0) == "" && RemovedRuns(codec, selector, lines[..0]) == {}
            && !AnyRemoved(codec, selector, lines[..0])
            && Rewritten(codec, selector, data) == Written(codec, selector, lines, |lines|)
  {
    hide Blank, Matches;
  }

  lemma RemovedStep(codec: Codec, selector: Selector, lines: seq<string>, index: nat)
    requires index < |lines|
    ensures AnyRemoved(codec, selector, lines[..index + 1])
            <==> AnyRemoved(codec, selector, lines[..index]) || Removes(codec, selector, lines[index])
    ensures RemovedRuns(codec, selector, lines[..index + 1])
            == RemovedRuns(codec, selector, lines[..index]) + RunOf(codec, selector, lines[index])
  {
    hide Blank, Matches;
    assert lines[..index + 1][..index] == lines[..index];
    assert lines[..index + 1][index] == lines[index];
    if AnyRemoved(codec, selector, lines[..index]) {
      var i :| 0 <= i < index && Removes(codec, selector, lines[..index][i]);
      assert lines[..index + 1][i] == lines[..index][i];
    }
  }
}
