/** The stream of JSON events from the Codex command line, folded into one result. */
module CodexEvents {
  import opened Seqs
  import opened Text

  const MAX_EVENT_BYTES: nat := 64 * 0x10_0000
  const DEFAULT_MAX_TOKENS: int := 8192

  const LIMIT: int := 0x8000_0000_0000_0000

  /** Go's int on 64-bit platforms. */
  type Int64 = x: int | -LIMIT <= x < LIMIT

  datatype Item = Item(kind: string, text: string, status: string, exitCode: Option<Int64>)

  /** A decoded event, by the types the executor tells apart. */
  datatype Event =
    | ItemStarted(item: Item)
    | ItemCompleted(item: Item)
    | TurnCompleted(input: Int64, cached: Option<Int64>, output: Int64)
    | Failed(kind: string, error: string, message: string)        // turn.failed or error
    | Other

  /** json.Unmarshal into the event; None when the line is not one. */
  type Decoder = string -> Option<Event>

  datatype Usage = Usage(input: Int64, cached: Int64, cachedKnown: bool, output: Int64, total: Int64, known: bool)

  const NO_USAGE: Usage := Usage(0, 0, false, 0, 0, false)

  datatype Error =
    | BadOptions | TimedOut | TooLarge | BadScan | BadEvent | BadWrite
    | Reported(message: string) | ProcessFailed | EmptyResponse

  datatype Result = Result(output: string, usage: Usage, error: Option<Error>)

  /** What is shown of a tool call: never its arguments or its output. */
  datatype ToolEvent = ToolEvent(tool: string, kind: ToolKind, exitCode: Option<Int64>)
  datatype ToolKind = Started | Completed | FailedTool

  // ------------------------------------------------------------ what one line means

  predicate Decodes(decode: Decoder, line: string) {
    Blank(line) || decode(line).Some?
  }

  predicate Reports(decode: Decoder, line: string) {
    !Blank(line) && decode(line).Some? && decode(line).value.Failed?
  }

  /** The first of the error, the message and the type that says anything. */
  function FailureText(e: Event): (text: string)
    requires e.Failed?
    ensures text == "" ==> e.kind == "" && Blank(e.error) && Blank(e.message)
    ensures !Blank(e.error) ==> text == Trim(e.error)
    ensures Blank(e.error) && !Blank(e.message) ==> text == Trim(e.message)
    ensures Blank(e.error) && Blank(e.message) ==> text == e.kind
  {
    if !Blank(e.error) then Trim(e.error) else if !Blank(e.message) then Trim(e.message) else e.kind
  }

  function EventOf(decode: Decoder, line: string): Event {
    if Blank(line) || decode(line).None? then Other else decode(line).value
  }

  predicate IsMessage(e: Event) {
    e.ItemCompleted? && e.item.kind == "agent_message"
  }

  function MessageOf(decode: Decoder): string -> Option<string> {
    (line: string) =>
      var e := EventOf(decode, line);
      if IsMessage(e) && Trim(e.item.text) != "" then Some(Trim(e.item.text)) else None
  }

  function ToolName(kind: string): string {
    if kind == "command_execution" then "shell"
    else if kind == "file_change" then "edit"
    else if kind == "mcp_tool_call" then "mcp"
    else if kind == "web_search" then "web"
    else ""
  }

  function ToolEventOf(decode: Decoder): string -> Option<ToolEvent> {
    (line: string) =>
      var e := EventOf(decode, line);
      if (e.ItemStarted? || e.ItemCompleted?) && !IsMessage(e) && ToolName(e.item.kind) != "" then
        Some(if e.ItemStarted? then ToolEvent(ToolName(e.item.kind), Started, None)
             else if e.item.status == "failed" then ToolEvent(ToolName(e.item.kind), FailedTool, e.item.exitCode)
             else ToolEvent(ToolName(e.item.kind), Completed, None))
      else None
  }

  /** A line brings a message exactly when it is a completed item of that kind with some text. */
  lemma MessageExactly(decode: Decoder, line: string, m: string)
    ensures MessageOf(decode)(line) == Some(m) <==>
              && !Blank(line) && decode(line).Some? && decode(line).value.ItemCompleted?
              && decode(line).value.item.kind == "agent_message"
              && m == Trim(decode(line).value.item.text) && m != ""
  {
    hide Trim;
  }

  /** The four kinds of tool call that are shown, by what name, and in which state. */
  lemma ToolsAreShown(decode: Decoder, line: string, item: Item)
    requires !Blank(line) && decode(line) in {Some(ItemStarted(item)), Some(ItemCompleted(item))}
    ensures var shown, started := ToolEventOf(decode)(line), decode(line).value.ItemStarted?;
            && (shown.Some? <==> item.kind in {"command_execution", "file_change", "mcp_tool_call", "web_search"})
            && (item.kind == "command_execution" ==> shown.value.tool == "shell")
            && (item.kind == "file_change" ==> shown.value.tool == "edit")
            && (item.kind == "mcp_tool_call" ==> shown.value.tool == "mcp")
            && (item.kind == "web_search" ==> shown.value.tool == "web")
            && (shown.Some? && started ==> shown.value.kind == Started && shown.value.exitCode.None?)
            && (shown.Some? && !started && item.status == "failed" ==>
                  shown.value.kind == FailedTool && shown.value.exitCode == item.exitCode)
            && (shown.Some? && !started && item.status != "failed" ==>
                  shown.value.kind == Completed && shown.value.exitCode.None?)
  {
    hide Trim;
  }

  // ------------------------------------------------------------ usage

  function NonNegative(value: Int64): Int64 {
    if value < 0 then 0 else value
  }

  /** Two's complement addition. */
  function Plus(a: Int64, b: Int64): Int64 {
    var sum := a + b;
    if sum >= LIMIT then sum - 2 * LIMIT else if sum < -LIMIT then sum + 2 * LIMIT else sum
  }

  function UsageOf(e: Event): Usage
    requires e.TurnCompleted?
  {
    var input, output := NonNegative(e.input), NonNegative(e.output);
    var cached := if e.cached.None? then 0
                  else if NonNegative(e.cached.value) < input then NonNegative(e.cached.value) else input;
    Usage(input, cached, e.cached.Some?, output, Plus(input, output), true)
  }

  // ------------------------------------------------------------ what a stream means

  function Messages(decode: Decoder, lines: seq<string>): seq<string> {
    FilterMap(lines, MessageOf(decode))
  }

  function Tools(decode: Decoder, lines: seq<string>): seq<ToolEvent> {
    FilterMap(lines, ToolEventOf(decode))
  }

  function LastMessage(messages: seq<string>): string {
    if |messages| == 0 then "" else messages[|messages| - 1]
  }

  /** The usage of the last completed turn. */
  function LastUsage(decode: Decoder, lines: seq<string>): Usage {
    if |lines| == 0 then NO_USAGE
    else
      var e := EventOf(decode, lines[|lines| - 1]);
      if e.TurnCompleted? then UsageOf(e) else LastUsage(decode, lines[..|lines| - 1])
  }

  /** Usage is never negative, caches no more than it reads, and adds up exactly when the sum fits a word. */
  predicate Consistent(u: Usage) {
    && 0 <= u.cached <= u.input && 0 <= u.output
    && (u.total == u.input + u.output <==> u.input + u.output < LIMIT)
    && (u.total < 0 <==> u.input + u.output >= LIMIT)
  }

  /** The usage of a completed turn: its own numbers, with none below zero and no more cached than read. */
  ghost predicate Tells(u: Usage, e: Event) {
    && e.TurnCompleted? && u.known
    && (e.input >= 0 ==> u.input == e.input) && (e.input < 0 ==> u.input == 0)
    && (e.output >= 0 ==> u.output == e.output) && (e.output < 0 ==> u.output == 0)
    && (u.cachedKnown <==> e.cached.Some?)
    && (e.cached.Some? && 0 <= e.cached.value <= u.input ==> u.cached == e.cached.value)
    && (e.cached.Some? && e.cached.value > u.input ==> u.cached == u.input)
    && (e.cached.None? || e.cached.value < 0 ==> u.cached == 0)
  }

  /** The usage is that of the last turn that completed, and none is known when none did. */
  ghost predicate OfLastTurn(u: Usage, decode: Decoder, lines: seq<string>) {
    || (u == Usage(0, 0, false, 0, 0, false) && forall i :: 0 <= i < |lines| ==> !EventOf(decode, lines[i]).TurnCompleted?)
    || exists k :: LastTurn(u, decode, lines, k)
  }

  ghost predicate LastTurn(u: Usage, decode: Decoder, lines: seq<string>, k: int) {
    && 0 <= k < |lines| && Tells(u, EventOf(decode, lines[k]))
    && forall i :: k < i < |lines| ==> !EventOf(decode, lines[i]).TurnCompleted?
  }

  lemma {:induction false} UsageIsOfLastTurn(decode: Decoder, lines: seq<string>)
    ensures OfLastTurn(LastUsage(decode, lines), decode, lines)
  {
    hide EventOf;
    if |lines| > 0 {
      var n, front := |lines| - 1, lines[..|lines| - 1];
      if EventOf(decode, lines[n]).TurnCompleted? {
        assert LastTurn(LastUsage(decode, lines), decode, lines, n);
      } else {
        UsageIsOfLastTurn(decode, front);
        assert forall i :: 0 <= i < n ==> front[i] == lines[i];
        assert forall k :: LastTurn(LastUsage(decode, front), decode, front, k) ==>
                             LastTurn(LastUsage(decode, front), decode, lines, k);
      }
    }
  }

  lemma {:induction false} LastUsageIsConsistent(decode: Decoder, lines: seq<string>)
    ensures Consistent(LastUsage(decode, lines))
  {
    hide EventOf;
    if |lines| > 0 {
      LastUsageIsConsistent(decode, lines[..|lines| - 1]);
    }
  }

  function Bytes(lines: seq<string>): nat {
    if |lines| == 0 then 0 else Bytes(lines[..|lines| - 1]) + Size(lines[|lines| - 1]) + 1
  }

  ghost predicate AllDecode(decode: Decoder, lines: seq<string>) {
    forall i :: 0 <= i < |lines| ==> Decodes(decode, lines[i])
  }

  ghost predicate NoneReports(decode: Decoder, lines: seq<string>) {
    forall i :: 0 <= i < |lines| ==> !Reports(decode, lines[i])
  }

  ghost predicate AllWritten(writes: nat -> bool, messages: nat) {
    forall i: nat :: i < messages ==> writes(i)
  }

  lemma {:induction false} BytesGrow(lines: seq<string>, i: nat)
    requires i <= |lines|
    ensures Bytes(lines[..i]) <= Bytes(lines)
  {
    if i < |lines| {
      BytesGrow(lines[..|lines| - 1], i);
      assert lines[..|lines| - 1][..i] == lines[..i];
    } else {
      assert lines[..i] == lines;
    }
  }

  lemma PrefixStep(decode: Decoder, lines: seq<string>, i: nat)
    requires i < |lines|
    ensures Bytes(lines[..i + 1]) == Bytes(lines[..i]) + Size(lines[i]) + 1
    ensures Messages(decode, lines[..i + 1]) == Messages(decode, lines[..i]) + AsSeq(MessageOf(decode)(lines[i]))
    ensures Tools(decode, lines[..i + 1]) == Tools(decode, lines[..i]) + AsSeq(ToolEventOf(decode)(lines[i]))
    ensures var e := EventOf(decode, lines[i]);
            LastUsage(decode, lines[..i + 1]) == if e.TurnCompleted? then UsageOf(e) else LastUsage(decode, lines[..i])
  {
    hide EventOf, UsageOf, MessageOf, ToolEventOf;
    var front := lines[..i];
    assert lines[..i + 1] == front + [lines[i]] && lines[..i + 1][..i] == front;
    FilterMapConcat(front, [lines[i]], MessageOf(decode));
    FilterMapConcat(front, [lines[i]], ToolEventOf(decode));
    FilterMapOne(lines[i], MessageOf(decode));
    FilterMapOne(lines[i], ToolEventOf(decode));
  }

  /** More lines bring more messages: what is written of a prefix is written of the whole. */
  lemma MessagesOfPrefix(decode: Decoder, lines: seq<string>, i: nat)
    requires i <= |lines|
    ensures Messages(decode, lines[..i]) <= Messages(decode, lines)
  {
    assert lines == lines[..i] + lines[i..];
    FilterMapConcat(lines[..i], lines[i..], MessageOf(decode));
  }

  // ------------------------------------------------------------ the code

  class ExecutionState {
    var output: string
    var usage: Usage
    var failure: Option<Error>
    var eventBytes: nat
    var spoken: seq<string>           // the messages the writer has accepted, each with its newline
    var emitted: seq<ToolEvent>       // what the listener has been told

    constructor ()
      ensures output == "" && usage == NO_USAGE && failure == None && eventBytes == 0 && spoken == [] && emitted == []
    {
      output, usage, failure, eventBytes, spoken, emitted := "", NO_USAGE, None, 0, [], [];
    }

    /** writes says which of the writer's calls succeed. */
    method Process(decode: Decoder, writes: nat -> bool, line: string) returns (err: Option<Error>)
      modifies this
      ensures eventBytes == old(eventBytes)
      ensures err == if !Decodes(decode, line) then Some(BadEvent)
                     else if MessageOf(decode)(line).Some? && !writes(|old(spoken)|) then Some(BadWrite) else None
      ensures err.Some? ==> spoken == old(spoken)
      ensures err.None? ==>
                && spoken == old(spoken) + AsSeq(MessageOf(decode)(line))
                && output == (if MessageOf(decode)(line).Some? then MessageOf(decode)(line).value else old(output))
                && emitted == old(emitted) + AsSeq(ToolEventOf(decode)(line))
                && usage == (if EventOf(decode, line).TurnCompleted? then UsageOf(EventOf(decode, line)) else old(usage))
                && failure == (if Reports(decode, line) then Some(Reported(FailureText(decode(line).value))) else old(failure))
    {
      hide Trim;
      if Trim(line) == "" {
        return None;
      }
      var decoded := decode(line);
      if decoded.None? {
        return Some(BadEvent);
      }
      var event := decoded.value;
      match event {
        case ItemStarted(item) =>
          EmitToolEvent(true, item);
        case ItemCompleted(item) =>
          if item.kind == "agent_message" {
            var message := Trim(item.text);
            if message == "" {
              return None;
            }
            if !writes(|spoken|) {
              return Some(BadWrite);
            }
            spoken := spoken + [message];
            output := message;
            return None;
          }
          EmitToolEvent(false, item);
        case TurnCompleted(_, _, _) =>
          usage := UsageOf(event);
        case Failed(kind, error, text) =>
          var message := Trim(error);
          if message == "" {
            message := Trim(text);
          }
          if message == "" {
            message := kind;
          }
          failure := Some(Reported(message));
        case Other =>
      }
      return None;
    }

    method EmitToolEvent(started: bool, item: Item)
      modifies this`emitted
      ensures emitted == old(emitted) + AsSeq(
                if ToolName(item.kind) == "" then None
                else Some(if started then ToolEvent(ToolName(item.kind), Started, None)
                          else if item.status == "failed" then ToolEvent(ToolName(item.kind), FailedTool, item.exitCode)
                          else ToolEvent(ToolName(item.kind), Completed, None)))
    {
      var name := ToolName(item.kind);
      if name == "" {
        return;
      }
      if started {
        emitted := emitted + [ToolEvent(name, Started, None)];
      } else if item.status == "failed" {
        emitted := emitted + [ToolEvent(name, FailedTool, item.exitCode)];
      } else {
        emitted := emitted + [ToolEvent(name, Completed, None)];
      }
    }
  }

  /** How the child process and its pipe behave. */
  datatype Process = Process(lines: seq<string>, scans: bool, exits: bool, inTime: bool)

  ghost predicate Readable(decode: Decoder, writes: nat -> bool, p: Process) {
    && p.scans
    && Bytes(p.lines) <= 67_108_864
    && AllDecode(decode, p.lines) && NoneReports(decode, p.lines)
    && AllWritten(writes, |Messages(decode, p.lines)|)
  }

  ghost predicate Folded(s: ExecutionState, decode: Decoder, lines: seq<string>)
    reads s`output, s`usage, s`spoken, s`emitted
  {
    && s.spoken == Messages(decode, lines)
    && s.output == LastMessage(s.spoken)
    && (s.output == "" <==> |s.spoken| == 0)
    && s.usage == LastUsage(decode, lines)
    && s.emitted == Tools(decode, lines)
  }

  lemma LastMessageStep(messages: seq<string>, next: Option<string>)
    ensures LastMessage(messages + AsSeq(next)) == if next.Some? then next.value else LastMessage(messages)
  {
  }

  lemma MessagesAreNotBlank(decode: Decoder, line: string)
    ensures MessageOf(decode)(line).Some? ==> MessageOf(decode)(line).value != ""
  {
  }

  /** If the line at i brings a message, the writer takes it. */
  predicate Delivers(decode: Decoder, writes: nat -> bool, lines: seq<string>, i: nat)
    requires i < |lines|
  {
    var before := |Messages(decode, lines[..i])|;
    |Messages(decode, lines[..i + 1])| > before ==> writes(before)
  }

  /** One line, read in full and processed without an error. */
  method Take(s: ExecutionState, decode: Decoder, writes: nat -> bool, lines: seq<string>, i: nat)
    returns (err: Option<Error>)
    requires i < |lines| && Folded(s, decode, lines[..i])
    modifies s
    ensures s.eventBytes == old(s.eventBytes)
    ensures err.None? ==>
              && Folded(s, decode, lines[..i + 1])
              && (s.failure.None? <==> old(s.failure).None? && !Reports(decode, lines[i]))
    ensures err.None? <==> Decodes(decode, lines[i]) && Delivers(decode, writes, lines, i)
    ensures err.None? || s.spoken == old(s.spoken)
  {
    hide EventOf, MessageOf, ToolEventOf, Messages, Tools, LastUsage, Decodes, Reports, LastMessage;
    PrefixStep(decode, lines, i);
    LastMessageStep(s.spoken, MessageOf(decode)(lines[i]));
    MessagesAreNotBlank(decode, lines[i]);
    err := s.Process(decode, writes, lines[i]);
  }

  lemma NothingRead(decode: Decoder)
    ensures Messages(decode, []) == [] && Tools(decode, []) == [] && LastUsage(decode, []) == NO_USAGE && Bytes([]) == 0
  {
  }

  lemma OneMoreLine(decode: Decoder, writes: nat -> bool, lines: seq<string>, i: nat)
    requires i < |lines|
    ensures AllDecode(decode, lines[..i + 1]) <==> AllDecode(decode, lines[..i]) && Decodes(decode, lines[i])
    ensures NoneReports(decode, lines[..i + 1]) <==> NoneReports(decode, lines[..i]) && !Reports(decode, lines[i])
    ensures (AllWritten(writes, |Messages(decode, lines[..i])|) && Delivers(decode, writes, lines, i))
            ==> AllWritten(writes, |Messages(decode, lines[..i + 1])|)
  {
    hide Messages, Tools, LastUsage, Bytes, Decodes, Reports, EventOf, MessageOf, ToolEventOf;
    PrefixStep(decode, lines, i);
    assert lines[..i + 1] == lines[..i] + [lines[i]];
    assert lines[..i + 1][i] == lines[i];
    assert forall k :: 0 <= k < i ==> lines[..i + 1][k] == lines[..i][k];
  }

  /** What stops the loop before its end leaves the stream unreadable as a whole. */
  lemma StoppedIsUnreadable(decode: Decoder, writes: nat -> bool, p: Process, i: nat)
    requires i < |p.lines|
    requires
      || Bytes(p.lines[..i + 1]) > MAX_EVENT_BYTES
      || !Decodes(decode, p.lines[i])
      || !Delivers(decode, writes, p.lines, i)
    ensures !Readable(decode, writes, p)
  {
    hide Messages, Bytes, Decodes, Reports;
    BytesGrow(p.lines, i + 1);
    MessagesOfPrefix(decode, p.lines, i + 1);
  }

  method Scan(s: ExecutionState, decode: Decoder, writes: nat -> bool, p: Process)
    requires s.output == "" && s.usage == NO_USAGE && s.failure == None && s.eventBytes == 0 && s.spoken == [] && s.emitted == []
    modifies s
    ensures s.failure.None? <==> Readable(decode, writes, p)
    ensures s.failure.None? ==> Folded(s, decode, p.lines)
    ensures s.spoken <= Messages(decode, p.lines)
  {
    hide Messages, Tools, LastUsage, Decodes, Reports, LastMessage, Bytes, Folded;
    NothingRead(decode);
    assert p.lines[..0] == [];
    assert Folded(s, decode, p.lines[..0]) by { StartIsFolded(s, decode); }
    for i := 0 to |p.lines|
      invariant Folded(s, decode, p.lines[..i])
      invariant s.eventBytes == Bytes(p.lines[..i]) <= MAX_EVENT_BYTES
      invariant AllDecode(decode, p.lines[..i])
      invariant AllWritten(writes, |Messages(decode, p.lines[..i])|)
      invariant s.failure.None? <==> NoneReports(decode, p.lines[..i])
    {
      PrefixBytes(p.lines, i);
      OneMoreLine(decode, writes, p.lines, i);
      FoldedSpoke(s, decode, p.lines[..i]);
      MessagesOfPrefix(decode, p.lines, i);
      s.eventBytes := s.eventBytes + Size(p.lines[i]) + 1;
      if s.eventBytes > MAX_EVENT_BYTES {
        s.failure := Some(TooLarge);
        StoppedIsUnreadable(decode, writes, p, i);
        return;
      }
      var err := Take(s, decode, writes, p.lines, i);
      if err.Some? {
        s.failure := err;
        StoppedIsUnreadable(decode, writes, p, i);
        return;
      }
    }
    assert p.lines[..|p.lines|] == p.lines;
    FoldedSpoke(s, decode, p.lines);
    if !p.scans && s.failure.None? {
      s.failure := Some(BadScan);
    }
  }

  lemma PrefixBytes(lines: seq<string>, i: nat)
    requires i < |lines|
    ensures Bytes(lines[..i + 1]) == Bytes(lines[..i]) + Size(lines[i]) + 1
  {
    assert lines[..i + 1][..i] == lines[..i];
  }

  lemma FoldedSpoke(s: ExecutionState, decode: Decoder, lines: seq<string>)
    requires Folded(s, decode, lines)
    ensures s.spoken == Messages(decode, lines)
  {
  }

  lemma StartIsFolded(s: ExecutionState, decode: Decoder)
    requires s.output == "" && s.usage == NO_USAGE && s.spoken == [] && s.emitted == []
    ensures Folded(s, decode, [])
  {
    NothingRead(decode);
  }

  ghost predicate Succeeds(decode: Decoder, writes: nat -> bool, maxTokens: int, p: Process) {
    && (maxTokens <= 0 || maxTokens == 8192)
    && Readable(decode, writes, p)
    && p.exits && p.inTime
    && |Messages(decode, p.lines)| > 0
  }

  /** A result carries no error exactly when nothing at all went wrong and there was a message; then it is the last one. */
  method ExecuteWithEvents(decode: Decoder, writes: nat -> bool, maxTokens: int, p: Process)
    returns (result: Result, spoken: seq<string>, emitted: seq<ToolEvent>)
    ensures result.error.None? <==> Succeeds(decode, writes, maxTokens, p)
    ensures result.error.None? ==>
              && result.output == LastMessage(Messages(decode, p.lines))
              && result.usage == LastUsage(decode, p.lines)
              && spoken == Messages(decode, p.lines)
              && emitted == Tools(decode, p.lines)
    ensures spoken <= Messages(decode, p.lines)
    ensures result.error.None? ==> Consistent(result.usage) && OfLastTurn(result.usage, decode, p.lines)
  {
    hide Messages, Tools, LastUsage, LastMessage, Readable, Consistent, OfLastTurn;
    UsageIsOfLastTurn(decode, p.lines);
    LastUsageIsConsistent(decode, p.lines);
    if maxTokens > 0 && maxTokens != DEFAULT_MAX_TOKENS {
      return Result("", NO_USAGE, Some(BadOptions)), [], [];
    }
    var state := new ExecutionState();
    Scan(state, decode, writes, p);
    spoken, emitted := state.spoken, state.emitted;
    if !p.inTime {
      return Result("", NO_USAGE, Some(TimedOut)), spoken, emitted;
    }
    result := Result(state.output, state.usage, state.failure);
    if state.failure.Some? {
      return;
    }
    if !p.exits {
      return Result("", NO_USAGE, Some(ProcessFailed)), spoken, emitted;
    }
    if result.output == "" {
      result := result.(error := Some(EmptyResponse));
    }
  }
}
