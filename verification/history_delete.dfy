/** Deleting the mission selected in the history view: grouping, the request, and what the logs lose. */
module HistoryDelete {
  import opened Grouping
  import opened Seqs
  import opened Text
  import opened LedgerFile

  /** One history row; `stamp` stands for the formatted timestamp, type, model, runtime and status. */
  datatype Row = Row(runId: string, taskId: string, eventId: string, stamp: string, fixable: bool)

  const NO_ROW: Row := Row("", "", "", "", false)

  function MissionKey(row: Row): string {
    if !Blank(row.runId) then "run:" + row.runId
    else if !Blank(row.taskId) then "task:" + row.taskId
    else if !Blank(row.eventId) then "event:" + row.eventId
    else "unkeyed:" + row.stamp
  }

  /** What tells a mission from another: the first of its ids that is not blank, or all that is left of the row. */
  datatype Identity = ByRun(id: string) | ByTask(id: string) | ByEvent(id: string) | ByStamp(stamp: string)

  function IdentityOf(row: Row): Identity {
    if !Blank(row.runId) then ByRun(row.runId)
    else if !Blank(row.taskId) then ByTask(row.taskId)
    else if !Blank(row.eventId) then ByEvent(row.eventId)
    else ByStamp(row.stamp)
  }

  /** Two rows have one key exactly when they have one identity, whatever the ids contain. */
  lemma KeysTellMissions(a: Row, b: Row)
    ensures MissionKey(a) == MissionKey(b) <==> IdentityOf(a) == IdentityOf(b)
  {
    hide Blank;
    KeyIsTagged(a);
    KeyIsTagged(b);
  }

  function Tag(i: Identity): string {
    match i case ByRun(_) => "run:" case ByTask(_) => "task:" case ByEvent(_) => "event:" case ByStamp(_) => "unkeyed:"
  }

  function Id(i: Identity): string {
    match i case ByRun(id) => id case ByTask(id) => id case ByEvent(id) => id case ByStamp(stamp) => stamp
  }

  lemma KeyIsTagged(row: Row)
    ensures var key, tag := MissionKey(row), Tag(IdentityOf(row));
            key == tag + Id(IdentityOf(row)) && key[0] == tag[0] && key[|tag|..] == Id(IdentityOf(row))
  {
    hide Blank;
  }

  /** historyMissions. */
  method HistoryMissions(history: seq<Row>) returns (missions: seq<Group<Row, string>>)
    ensures Partition(history, MissionKey, missions)
  {
    missions := GroupBy(history, MissionKey);
  }

  ghost predicate FirstOfAll(rows: seq<Row>, k: int, row: Row) {
    && 0 <= k < |rows| && rows[k] == row
    && if row.fixable then forall i :: 0 <= i < k ==> !rows[i].fixable
       else k == 0 && forall i :: 0 <= i < |rows| ==> !rows[i].fixable
  }

  /** The row that speaks for a mission: the first fixable one, else the first. */
  method Representative(rows: seq<Row>) returns (row: Row)
    ensures |rows| > 0 ==> exists k :: FirstOfAll(rows, k, row)
    ensures |rows| == 0 ==> row == NO_ROW
  {
    if |rows| == 0 {
      return NO_ROW;
    }
    for i := 0 to |rows|
      invariant forall k :: 0 <= k < i ==> !rows[k].fixable
    {
      if rows[i].fixable {
        assert FirstOfAll(rows, i, rows[i]);
        return rows[i];
      }
    }
    assert FirstOfAll(rows, 0, rows[0]);
    return rows[0];
  }

  // ------------------------------------------------------------ the request

  /** The arguments a confirmed deletion carries; an absent one is empty. */
  datatype Arguments = Arguments(runId: string, taskId: string, eventId: string)

  function RequestFor(row: Row): Option<Arguments> {
    if row.runId != "" then Some(Arguments(row.runId, "", ""))
    else if row.taskId != "" then Some(Arguments("", row.taskId, ""))
    else if row.eventId != "" then Some(Arguments("", "", row.eventId))
    else None
  }

  /** runTUIHistoryDelete trims each argument and refuses a request without identity. */
  function SelectorFor(arguments: Arguments): Option<Selector> {
    var selector := Selector(Trim(arguments.runId), Trim(arguments.taskId), Trim(arguments.eventId));
    if selector.runId == "" && selector.taskId == "" && selector.eventId == "" then None else Some(selector)
  }

  /** The history row of a replayed event. */
  function RowOf(event: Event, stamp: string, fixable: bool): Row {
    Row(event.runId, event.taskId, event.eventId, stamp, fixable)
  }

  function DeletionOf(row: Row): Option<Selector> {
    match RequestFor(row)
    case Some(arguments) => SelectorFor(arguments)
    case None => None
  }

  /** The delete is refused exactly for a blank run id, which replay lets through. */
  lemma DeletionIsRefusedExactlyForBlankRuns(row: Row)
    requires row.runId != ""
    ensures DeletionOf(row).None? <==> Blank(row.runId)
  {
    assert Trim("") == "";
  }

  /** A request names a run, else a task, else one event, each without the blanks around it, and nothing else decides. */
  lemma RequestsSelect(arguments: Arguments, event: Event)
    ensures SelectorFor(arguments).None? <==> Blank(arguments.runId) && Blank(arguments.taskId) && Blank(arguments.eventId)
    ensures SelectorFor(arguments).Some? ==>
              var selected := Matches(event, SelectorFor(arguments).value);
              && (!Blank(arguments.runId) ==> (selected <==> event.runId == Trim(arguments.runId)))
              && (Blank(arguments.runId) && !Blank(arguments.taskId) ==>
                    (selected <==> event.taskId == Trim(arguments.taskId)))
              && (Blank(arguments.runId) && Blank(arguments.taskId) ==>
                    (selected <==> event.eventId == Trim(arguments.eventId)))
  {
    hide Trim;
  }

  /** The request for a row is by the first of its ids that is there at all. */
  lemma RowsAreRequested(row: Row)
    ensures RequestFor(row).None? <==> row.runId == "" && row.taskId == "" && row.eventId == ""
    ensures RequestFor(row).Some? ==>
              var a := RequestFor(row).value;
              || (row.runId != "" && a == Arguments(row.runId, "", ""))
              || (row.runId == "" && row.taskId != "" && a == Arguments("", row.taskId, ""))
              || (row.runId == "" && row.taskId == "" && a == Arguments("", "", row.eventId))
  {
  }

  ghost predicate SelectsExactlyItsMission(row: Row, selector: Selector) {
    forall event: Event, stamp: string, fixable: bool :: Current(event) ==>
      (Matches(event, selector) <==> MissionKey(RowOf(event, stamp, fixable)) == MissionKey(row))
  }

  lemma KeysByRun(a: Row, b: Row)
    requires !Blank(b.runId)
    ensures MissionKey(a) == MissionKey(b) <==> a.runId == b.runId
  {
    var key := MissionKey(b);
    assert key[0] == 'r' && key[4..] == b.runId;
    if !Blank(a.runId) {
      assert MissionKey(a)[4..] == a.runId;
    }
  }

  /** A deletion selects the grouped mission, all of it and nothing else, exactly when
      the run id has no surrounding blanks. */
  lemma DeletionIsExactlyTheMission(row: Row)
    requires row.runId != "" && DeletionOf(row).Some?
    ensures SelectsExactlyItsMission(row, DeletionOf(row).value) <==> Trim(row.runId) == row.runId
  {
    var selector := DeletionOf(row).value;
    assert Trim("") == "";
    if Trim(row.runId) == row.runId {
      forall event: Event, stamp: string, fixable: bool | Current(event)
        ensures Matches(event, selector) <==> MissionKey(RowOf(event, stamp, fixable)) == MissionKey(row)
      {
        KeysByRun(RowOf(event, stamp, fixable), row);
      }
    } else {
      var own := Event(SCHEMA_VERSION, 1, "e", row.runId, "k", row.taskId, "");
      assert Current(own) && !Matches(own, selector);
      KeysByRun(RowOf(own, "", false), row);
      assert MissionKey(RowOf(own, "", false)) == MissionKey(row);
    }
  }

  // ------------------------------------------------------------ blanks of JSON and blanks of Go

  predicate JsonBlank(c: char) {
    c in " \t\n\r"
  }

  function JsonLeft(s: string): (r: string)
    ensures |r| <= |s| && r == s[|s| - |r|..]
    ensures forall i :: 0 <= i < |s| - |r| ==> JsonBlank(s[i])
    ensures r == "" || !JsonBlank(r[0])
  {
    if s != "" && JsonBlank(s[0]) then JsonLeft(s[1..]) else s
  }

  function JsonRight(s: string): (r: string)
    ensures r <= s
    ensures forall i :: |r| <= i < |s| ==> JsonBlank(s[i])
    ensures r == "" || !JsonBlank(r[|r| - 1])
  {
    if s != "" && JsonBlank(s[|s| - 1]) then JsonRight(s[..|s| - 1]) else s
  }

  /** A line without the blanks the JSON grammar allows around a value. */
  function JsonTrim(s: string): string {
    JsonRight(JsonLeft(s))
  }

  /** Only JSON blanks surround the text of the line. */
  predicate Tight(line: string) {
    Trim(line) == JsonTrim(line)
  }

  predicate ForeignBlank(c: char) {
    IsSpace(c) && !JsonBlank(c)
  }

  predicate ForeignEnds(line: string) {
    line != "" && (ForeignBlank(line[0]) || ForeignBlank(line[|line| - 1]))
  }

  /** A faithful codec that, as JSON does, ignores its own blanks around a value and refuses any other. */
  ghost predicate Json(codec: Codec) {
    && Faithful(codec)
    && (forall line: string :: codec.decode(line) == codec.decode(JsonTrim(line)))
    && (forall line: string :: codec.decode(line).Some? ==> !ForeignEnds(line))
  }

  lemma JsonBlanksAreSpace(c: char)
    requires JsonBlank(c)
    ensures IsSpace(c)
  {
  }

  lemma JsonTrimParts(s: string) returns (a: string, b: string)
    ensures s == a + JsonTrim(s) + b && AllSpace(a) && AllSpace(b)
    ensures JsonTrim(s) == "" || (!JsonBlank(JsonTrim(s)[0]) && !JsonBlank(JsonTrim(s)[|JsonTrim(s)| - 1]))
  {
    hide IsSpace, JsonBlank;
    var left, text := JsonLeft(s), JsonTrim(s);
    a, b := s[..|s| - |left|], left[|text|..];
    forall i | 0 <= i < |a| ensures IsSpace(a[i]) { JsonBlanksAreSpace(a[i]); }
    forall i | 0 <= i < |b| ensures IsSpace(b[i]) { JsonBlanksAreSpace(b[i]); }
    assert text != "" ==> text[0] == left[0];
  }

  /** What a JSON decoder accepts has only JSON blanks around it. */
  lemma DecodedIsTight(codec: Codec, line: string)
    requires Json(codec) && codec.decode(line).Some?
    ensures Tight(line)
  {
    hide IsSpace, JsonBlank, Faithful, Trim, JsonTrim;
    var a, b := JsonTrimParts(line);
    assert codec.decode(JsonTrim(line)).Some?;
    TrimIsUnique(a, JsonTrim(line), b);
  }

  // ------------------------------------------------------------ what a line loses

  function Spared(selector: Selector): Event -> bool {
    event => !Matches(event, selector)
  }

  /** Removal and replay agree on a line: it goes exactly when the event it replays as is selected. */
  predicate Agree(codec: Codec, selector: Selector, line: string) {
    match Replayed(codec, line)
    case Some(event) => Removes(codec, selector, line) <==> Matches(event, selector)
    case None => true
  }

  /** If the line replays as a selected event, only JSON blanks surround its text. */
  predicate TightIfSelected(codec: Codec, selector: Selector, line: string) {
    match Replayed(codec, line)
    case Some(event) => Matches(event, selector) ==> Tight(line)
    case None => true
  }

  /** A selected event goes with its line exactly when only JSON blanks surround its text; no other event ever goes. */
  lemma AgreesExactlyWhenTight(codec: Codec, selector: Selector, line: string)
    requires Json(codec)
    ensures Agree(codec, selector, line) <==> TightIfSelected(codec, selector, line)
    ensures Replayed(codec, line).Some? && Removes(codec, selector, line) ==> Matches(Replayed(codec, line).value, selector)
  {
    hide Faithful, Matches, Trim, JsonTrim;
    if codec.decode(line).Some? {
      DecodedIsTight(codec, line);
    }
    assert codec.decode(line) == codec.decode(JsonTrim(line));
    assert Tight(line) ==> codec.decode(line) == codec.decode(Trim(line));
  }

  /** The no-break space is a blank to replay and not to JSON: the event is shown, and deleting it leaves it. */
  lemma TrimmedLineIsNotRemoved(codec: Codec, event: Event, selector: Selector)
    requires Json(codec) && Current(event)
    ensures var line := "\U{A0}" + codec.encode(event);
            && IsLine(line) && Replayed(codec, line) == Some(event) && !Removes(codec, selector, line)
            && (Matches(event, selector) ==> !Agree(codec, selector, line))
  {
    hide Matches;
    var text := codec.encode(event);
    assert IsLine(text) && text != "" && Trim(text) == text && codec.decode(text) == Some(event);
    var line := "\U{A0}" + text;
    assert ForeignBlank(line[0]);
    TrimLeftSkips("\U{A0}", text);
    assert Trim(line) == Trim(text);
  }

  /** Lines Append wrote always agree. */
  lemma AppendedLinesAgree(codec: Codec, selector: Selector, event: Event)
    requires Faithful(codec)
    ensures Agree(codec, selector, codec.encode(event))
  {
    assert codec.decode(codec.encode(event)) == Some(event);
  }

  /** Lines that do not decode stay in the rewritten log byte for byte, in order. */
  lemma UndecodableSurvive(codec: Codec, selector: Selector, lines: seq<string>)
    ensures var damaged := (line: string) => codec.decode(line).None?;
            Filter(Kept(codec, selector, lines), damaged) == Filter(lines, damaged)
  {
    var damaged := (line: string) => codec.decode(line).None?;
    FilterTwice(lines, Keeps(codec, selector), damaged, damaged);
  }

  // ------------------------------------------------------------ what a log loses

  /** The events that become readable when the line that stopped the reader is itself removed. */
  function Uncovered(codec: Codec, selector: Selector, data: string): seq<Event> {
    var lines := Tokens(data);
    var k := |Fitting(lines)|;
    if k < |lines| && Removes(codec, selector, lines[k]) then
      Events(codec, Fitting(Kept(codec, selector, lines[k + 1..])))
    else []
  }

  lemma RewrittenReads(codec: Codec, selector: Selector, data: string)
    ensures ReadEvents(codec, Rewritten(codec, selector, data))
            == Events(codec, Kept(codec, selector, Fitting(Tokens(data)))) + Uncovered(codec, selector, data)
  {
    hide Tokens, Rewritten, Removes, FitsLine;
    TokensOfRewritten(codec, selector, data);
    var lines := Tokens(data);
    KeptFitting(codec, selector, lines);
    var kept := Kept(codec, selector, Fitting(lines));
    if |Fitting(lines)| == |lines| {
      assert lines[|lines|..] == [];
    }
    FilterMapConcat(kept, UncoveredLines(codec, selector, lines), Replays(codec));
  }

  function UncoveredLines(codec: Codec, selector: Selector, lines: seq<string>): seq<string> {
    var k := |Fitting(lines)|;
    if k < |lines| && Removes(codec, selector, lines[k]) then Fitting(Kept(codec, selector, lines[k + 1..])) else []
  }

  lemma KeptCons(codec: Codec, selector: Selector, line: string, rest: seq<string>)
    ensures Kept(codec, selector, [line] + rest)
            == (if Removes(codec, selector, line) then [] else [line]) + Kept(codec, selector, rest)
  {
    OnlyKept(codec, selector, line);
    FilterConcat([line], rest, Keeps(codec, selector));
  }

  lemma FittingOfLong(long: string, rest: seq<string>)
    requires !FitsLine(long)
    ensures Fitting([long] + rest) == []
  {
  }

  lemma KeptFit(codec: Codec, selector: Selector, lines: seq<string>)
    requires Fits(lines)
    ensures Fits(Kept(codec, selector, lines))
  {
    FilterMembers(lines, Keeps(codec, selector));
  }

  lemma KeptFitting(codec: Codec, selector: Selector, lines: seq<string>)
    ensures Fitting(Kept(codec, selector, lines))
            == Kept(codec, selector, Fitting(lines)) + UncoveredLines(codec, selector, lines)
  {
    hide Removes, FitsLine, Fitting, Kept;
    var front := Fitting(lines);
    var k, kept := |front|, Kept(codec, selector, front);
    KeptFit(codec, selector, front);
    if k == |lines| {
      assert front == lines && kept + [] == kept;
    } else {
      var long, rest := lines[k], lines[k + 1..];
      var later := Kept(codec, selector, rest);
      assert lines == front + ([long] + rest);
      KeptJoins(codec, selector, front, [long] + rest);
      KeptCons(codec, selector, long, rest);
      FittingConcat(kept, Kept(codec, selector, [long] + rest));
      FittingOfLong(long, later);
      assert [] + later == later;
    }
  }

  lemma KeptJoins(codec: Codec, selector: Selector, a: seq<string>, b: seq<string>)
    ensures Kept(codec, selector, a + b) == Kept(codec, selector, a) + Kept(codec, selector, b)
  {
    FilterConcat(a, b, Keeps(codec, selector));
  }

  ghost predicate AllTightIfSelected(codec: Codec, selector: Selector, lines: seq<string>) {
    forall i :: 0 <= i < |lines| ==> TightIfSelected(codec, selector, lines[i])
  }

  /** What a caller can tell from the log beforehand: no selected line that is read has foreign blanks around its text,
      and if the line that stops the reader is selected, nothing readable follows it. */
  ghost predicate Deletable(codec: Codec, selector: Selector, data: string) {
    AllTightIfSelected(codec, selector, Fitting(Tokens(data))) && Uncovered(codec, selector, data) == []
  }

  lemma ReadableLosesExactlyTheSelected(codec: Codec, selector: Selector, lines: seq<string>)
    requires Json(codec)
    ensures |Filter(Events(codec, lines), Spared(selector))| <= |Events(codec, Kept(codec, selector, lines))|
    ensures Events(codec, Kept(codec, selector, lines)) == Filter(Events(codec, lines), Spared(selector))
            <==> AllTightIfSelected(codec, selector, lines)
  {
    hide Json, Removes, TightIfSelected, Replayed, Matches, Filter, FilterMap;
    forall i | 0 <= i < |lines|
      ensures TightIfSelected(codec, selector, lines[i])
              <==> Agrees(lines[i], Replays(codec), Keeps(codec, selector), Spared(selector))
      ensures Replayed(codec, lines[i]).Some? && !Matches(Replayed(codec, lines[i]).value, selector) ==>
                !Removes(codec, selector, lines[i])
    {
      AgreesExactlyWhenTight(codec, selector, lines[i]);
    }
    FilterCommutesExactly(lines, Replays(codec), Keeps(codec, selector), Spared(selector));
    KeptAtLeastWanted(lines, Replays(codec), Keeps(codec, selector), Spared(selector));
  }

  /** After a rewrite the file reads as before minus exactly the selected events, if and only if it is deletable. */
  lemma RewriteRemovesExactlyTheSelected(codec: Codec, selector: Selector, data: string)
    requires Json(codec)
    ensures ReadEvents(codec, Rewritten(codec, selector, data)) == Filter(ReadEvents(codec, data), Spared(selector))
            <==> Deletable(codec, selector, data)
  {
    hide Json, Rewritten, Tokens, Events, Kept, Uncovered, AllTightIfSelected, Filter, Fitting;
    RewrittenReads(codec, selector, data);
    var lines := Fitting(Tokens(data));
    ReadableLosesExactlyTheSelected(codec, selector, lines);
    var left, more := Events(codec, Kept(codec, selector, lines)), Uncovered(codec, selector, data);
    assert |left + more| == |left| + |more|;
    assert left + [] == left;
  }

  /** The failing input: a selected line too long to read, removed, uncovers the event after it. */
  lemma RemovalCanUncover(codec: Codec, selector: Selector, own: Event, other: Event)
    requires Json(codec) && Current(own) && Current(other)
    requires Matches(own, selector) && !Matches(other, selector)
    requires !FitsLine(codec.encode(own)) && FitsLine(codec.encode(other))
    ensures var data := Unlines([codec.encode(own), codec.encode(other)]);
            ReadEvents(codec, data) == [] && ReadEvents(codec, Rewritten(codec, selector, data)) == [other]
  {
    hide Matches, Size, Tokens, Trim, JsonTrim, Kept, Fitting, Events, Current;
    var long, line := codec.encode(own), codec.encode(other);
    assert IsLine(long) && IsLine(line) && codec.decode(long) == Some(own) && codec.decode(line) == Some(other);
    assert Trim(long) == long != "" && Trim(line) == line != "";
    assert [long, line] == [long] + [line];
    TokensOfUnlines([long, line]);
    TokensOfRewritten(codec, selector, Unlines([long, line]));
    KeptCons(codec, selector, long, [line]);
    OnlyKept(codec, selector, line);
    FittingOfLong(long, [line]);
    FittingConcat([line], []);
    assert Fitting([]) == [] && [line] + [] == [line];
    ReplayStep(codec, [], line);
    NoEvents(codec);
    assert [] + [line] == [line] && [] + [other] == [other];
  }

  lemma NoEvents(codec: Codec)
    ensures Events(codec, []) == []
  {
  }

  // ------------------------------------------------------------ deleting a mission

  function OfOtherMissions(row: Row): Event -> bool {
    event => MissionKey(RowOf(event, "", false)) != MissionKey(row)
  }

  lemma SparedAreOtherMissions(row: Row, selector: Selector, events: seq<Event>)
    requires SelectsExactlyItsMission(row, selector) && forall i :: 0 <= i < |events| ==> Current(events[i])
    ensures Filter(events, Spared(selector)) == Filter(events, OfOtherMissions(row))
  {
    hide MissionKey, Matches, Current, Filter;
    forall i | 0 <= i < |events| ensures Spared(selector)(events[i]) <==> OfOtherMissions(row)(events[i]) {
      assert Matches(events[i], selector) <==> MissionKey(RowOf(events[i], "", false)) == MissionKey(row);
    }
    FilterAgree(events, Spared(selector), OfOtherMissions(row));
  }

  /** Deleting the mission of a row whose run id has no surrounding blanks: each log then reads as before without
      exactly the events grouped under that mission, if and only if the log is deletable. */
  lemma DeletingRemovesExactlyTheMission(codec: Codec, row: Row, log: string)
    requires Json(codec) && row.runId != "" && Trim(row.runId) == row.runId
    ensures DeletionOf(row).Some?
    ensures var selector := DeletionOf(row).value;
            ReadEvents(codec, Rewritten(codec, selector, log)) == Filter(ReadEvents(codec, log), OfOtherMissions(row))
            <==> Deletable(codec, selector, log)
  {
    hide Json, Rewritten, Deletable, Fitting, Tokens;
    DeletionIsRefusedExactlyForBlankRuns(row);
    DeletionIsExactlyTheMission(row);
    var selector := DeletionOf(row).value;
    RewriteRemovesExactlyTheSelected(codec, selector, log);
    EventsAreCurrent(codec, Fitting(Tokens(log)));
    SparedAreOtherMissions(row, selector, ReadEvents(codec, log));
  }

  // ------------------------------------------------------------ what the history view still shows

  ghost predicate NoneOf(row: Row, events: seq<Event>) {
    forall i :: 0 <= i < |events| ==> OfOtherMissions(row)(events[i])
  }

  /** The lines the history view reads of a log. */
  function Window(data: string): seq<string> {
    Tokens(Bounded(data, MAX_HISTORY_LOG_BYTES))
  }

  lemma KeptMember(codec: Codec, selector: Selector, lines: seq<string>, i: nat)
    requires i < |Kept(codec, selector, lines)|
    ensures Kept(codec, selector, lines)[i] in lines && !Removes(codec, selector, Kept(codec, selector, lines)[i])
  {
    hide Removes;
    FilterMembers(lines, Keeps(codec, selector));
  }

  lemma SuffixOfKept(codec: Codec, selector: Selector, lines: seq<string>, window: seq<string>, k: nat)
    requires k <= |Kept(codec, selector, lines)| && window == Kept(codec, selector, lines)[k..]
    ensures forall i :: 0 <= i < |window| ==> window[i] in lines && !Removes(codec, selector, window[i])
  {
    hide Kept, Removes;
    forall i | 0 <= i < |window| ensures window[i] in lines && !Removes(codec, selector, window[i]) {
      KeptMember(codec, selector, lines, k + i);
    }
  }

  /** The lines in the window of a rewritten log were in the log, and the rewrite kept them. */
  lemma WindowIsKept(codec: Codec, selector: Selector, log: string)
    ensures var lines := Window(Rewritten(codec, selector, log));
            forall i :: 0 <= i < |lines| ==> lines[i] in Tokens(log) && !Removes(codec, selector, lines[i])
  {
    hide Tokens, Bounded, Rewritten, Removes, Kept;
    var rewritten := Rewritten(codec, selector, log);
    BoundedIsSuffix(rewritten, MAX_HISTORY_LOG_BYTES);
    TokensOfRewritten(codec, selector, log);
    var k :| 0 <= k <= |Tokens(rewritten)| && Window(rewritten) == Tokens(rewritten)[k..];
    SuffixOfKept(codec, selector, Tokens(log), Window(rewritten), k);
  }

  /** A line that was kept replays as a selected event exactly when it has foreign blanks. */
  lemma KeptShowsExactlyForeign(codec: Codec, selector: Selector, line: string)
    requires Json(codec) && !Removes(codec, selector, line)
    ensures TightIfSelected(codec, selector, line)
            <==> !(Replayed(codec, line).Some? && Matches(Replayed(codec, line).value, selector))
  {
    hide Json, Removes, Replayed, Matches;
    AgreesExactlyWhenTight(codec, selector, line);
  }

  ghost predicate NoneMatch(selector: Selector, events: seq<Event>) {
    forall i :: 0 <= i < |events| ==> !Matches(events[i], selector)
  }

  lemma NoneMatchJoins(selector: Selector, a: seq<Event>, b: seq<Event>)
    ensures NoneMatch(selector, a + b) <==> NoneMatch(selector, a) && NoneMatch(selector, b)
  {
    hide Matches;
    assert forall i :: 0 <= i < |b| ==> (a + b)[|a| + i] == b[i];
    assert forall i :: 0 <= i < |a| ==> (a + b)[i] == a[i];
  }

  lemma NoneMatchOnLine(codec: Codec, selector: Selector, line: string)
    requires Json(codec) && !Removes(codec, selector, line)
    ensures NoneMatch(selector, AsSeq(Replayed(codec, line))) <==> TightIfSelected(codec, selector, line)
  {
    hide Json, Removes, Replayed, Matches, TightIfSelected;
    KeptShowsExactlyForeign(codec, selector, line);
    assert Replayed(codec, line).Some? ==> AsSeq(Replayed(codec, line))[0] == Replayed(codec, line).value;
  }

  lemma {:induction false} NoneSelectedExactly(codec: Codec, selector: Selector, lines: seq<string>)
    requires Json(codec) && forall i :: 0 <= i < |lines| ==> !Removes(codec, selector, lines[i])
    ensures NoneMatch(selector, Events(codec, lines)) <==> AllTightIfSelected(codec, selector, lines)
  {
    if |lines| > 0 {
      hide Json, Removes, Replayed, NoneMatch, AllTightIfSelected, TightIfSelected;
      NoneMatchOnLine(codec, selector, lines[0]);
      NoneSelectedExactly(codec, selector, lines[1..]);
      AllTightStep(codec, selector, lines);
      NoneMatchJoins(selector, AsSeq(Replayed(codec, lines[0])), Events(codec, lines[1..]));
    }
  }

  lemma AllTightStep(codec: Codec, selector: Selector, lines: seq<string>)
    requires |lines| > 0
    ensures AllTightIfSelected(codec, selector, lines)
            <==> TightIfSelected(codec, selector, lines[0]) && AllTightIfSelected(codec, selector, lines[1..])
  {
    hide TightIfSelected;
    assert forall i :: 1 <= i < |lines| ==> lines[i] == lines[1..][i - 1];
  }

  lemma SelectedIsOfMission(row: Row, selector: Selector, events: seq<Event>)
    requires SelectsExactlyItsMission(row, selector) && forall i :: 0 <= i < |events| ==> Current(events[i])
    ensures NoneOf(row, events) <==> NoneMatch(selector, events)
  {
    hide MissionKey, Matches, Current;
    forall i | 0 <= i < |events| ensures OfOtherMissions(row)(events[i]) <==> !Matches(events[i], selector) {
      assert Matches(events[i], selector) <==> MissionKey(RowOf(events[i], "", false)) == MissionKey(row);
    }
  }

  /** After the deletion of a mission the history view takes no event of it from a log, if and only if the window it
      reads holds a line too long to read or no selected line with foreign blanks; if the log had no such line, none. */
  lemma DeletedMissionIsNotShown(codec: Codec, row: Row, log: string)
    requires Json(codec) && row.runId != "" && Trim(row.runId) == row.runId
    ensures DeletionOf(row).Some?
    ensures var selector := DeletionOf(row).value;
            var rewritten := Rewritten(codec, selector, log);
            && (NoneOf(row, Shown(codec, rewritten))
                <==> !Fits(Window(rewritten)) || AllTightIfSelected(codec, selector, Window(rewritten)))
            && (AllTightIfSelected(codec, selector, Tokens(log)) ==> NoneOf(row, Shown(codec, rewritten)))
  {
    hide Json, Rewritten, Bounded, Tokens, Removes, Fits, Events, TightIfSelected, NoneMatch, NoneOf;
    DeletionIsRefusedExactlyForBlankRuns(row);
    DeletionIsExactlyTheMission(row);
    var selector := DeletionOf(row).value;
    var rewritten := Rewritten(codec, selector, log);
    var lines := Window(rewritten);
    WindowIsKept(codec, selector, log);
    NoneSelectedExactly(codec, selector, lines);
    EventsAreCurrent(codec, lines);
    SelectedIsOfMission(row, selector, Events(codec, lines));
    NothingOf(row);
    assert Fits(lines) ==> Shown(codec, rewritten) == Events(codec, lines);
    if AllTightIfSelected(codec, selector, Tokens(log)) {
      forall i | 0 <= i < |lines| ensures TightIfSelected(codec, selector, lines[i]) {
        var k :| 0 <= k < |Tokens(log)| && Tokens(log)[k] == lines[i];
      }
    }
  }

  lemma NothingOf(row: Row)
    ensures NoneOf(row, [])
  {
  }

  /** The failing input: a deletable log whose over-long first line keeps Read from the event after it, but falls out
      of the window: the view shows the selected event before its deletion and after it. */
  lemma DeletedMissionIsStillShown(codec: Codec, selector: Selector, long: string, event: Event)
    requires Json(codec) && Current(event) && Matches(event, selector) && FitsLine("\U{A0}" + codec.encode(event))
    requires IsLine(long) && |long| >= MAX_HISTORY_LOG_BYTES && codec.decode(long).None?
    ensures var log := Unlines([long, "\U{A0}" + codec.encode(event)]);
            && Deletable(codec, selector, log) && Rewritten(codec, selector, log) == log
            && ReadEvents(codec, log) == [] && Shown(codec, log) == [event]
  {
    hide Json, Matches, Current, Tokens, Rewritten, Trim, Bounded, Split, IsLine, Size, FitsLine;
    var line := "\U{A0}" + codec.encode(event);
    TrimmedLineIsNotRemoved(codec, event, selector);
    OverlongIsSkipped(long, line);
    NothingSelected(codec, selector, long, line);
    assert [long] + [line] == [long, line];
    TokensOfUnlines([long, line]);
    TooLong(long);
    FittingOfLong(long, [line]);
    TokensOfUnlines([line]);
    NoEvents(codec);
    ReplayStep(codec, [], line);
    FittingConcat([line], []);
    assert [] + [line] == [line] && [] + [event] == [event];
  }

  lemma TooLong(long: string)
    requires |long| >= MAX_HISTORY_LOG_BYTES
    ensures !FitsLine(long)
  {
    SizeAtLeast(long);
  }

  lemma OverlongIsSkipped(long: string, line: string)
    requires IsLine(long) && IsLine(line) && |long| >= MAX_HISTORY_LOG_BYTES && FitsLine(line)
    ensures Bounded(Unlines([long, line]), MAX_HISTORY_LOG_BYTES) == Unlines([line])
  {
    hide IsLine, Size, Tail, AfterNewline;
    var data, rest := Unlines([long, line]), Unlines([line]);
    var end := "\n" + rest;
    assert data == long + end by { TwoLines(long, line); }
    assert Size(end) <= MAX_HISTORY_LOG_BYTES by { EndIsSmall(line); }
    SizeAtLeast(data);
    var j := TailReachesBack(long, end, MAX_HISTORY_LOG_BYTES);
    assert IsLine(long[j..]) by { FrontGone(long, j); }
    assert long[j..] + end == long[j..] + "\n" + rest;
    AfterNewlineSkips(long[j..], rest);
  }

  lemma TwoLines(a: string, b: string)
    ensures Unlines([a, b]) == a + ("\n" + Unlines([b])) && Unlines([b]) == b + "\n"
  {
    assert [a, b][1..] == [b];
  }

  lemma EndIsSmall(line: string)
    requires FitsLine(line)
    ensures Size("\n" + Unlines([line])) <= MAX_HISTORY_LOG_BYTES
  {
    SizeConcat("\n", Unlines([line]));
    SizeConcat(line, "\n");
    TwoLines("", line);
    assert Size("\n") == 1;
  }

  lemma FrontGone(long: string, j: nat)
    requires IsLine(long) && j <= |long|
    ensures IsLine(long[j..])
  {
  }

  lemma NothingSelected(codec: Codec, selector: Selector, long: string, line: string)
    requires IsLine(long) && IsLine(line) && !Removes(codec, selector, long) && !Removes(codec, selector, line)
    ensures Rewritten(codec, selector, Unlines([long, line])) == Unlines([long, line])
  {
    hide Removes, Rewritten, IsLine;
    RewrittenWhole(codec, selector, [long, line]);
    FilterAll([long, line], Keeps(codec, selector));
  }

  /** A log of appended lines that all fit the scanner is deletable. */
  lemma AppendedLogsAreDeletable(codec: Codec, selector: Selector, events: seq<Event>, lines: seq<string>)
    requires Json(codec) && |lines| == |events| && Fits(lines)
    requires forall i :: 0 <= i < |lines| ==> lines[i] == codec.encode(events[i])
    ensures Deletable(codec, selector, Unlines(lines))
  {
    hide FitsLine, Tokens, TightIfSelected, Agree;
    forall i | 0 <= i < |lines| ensures IsLine(lines[i]) && TightIfSelected(codec, selector, lines[i]) {
      assert codec.decode(codec.encode(events[i])) == Some(events[i]);
      AppendedLinesAgree(codec, selector, events[i]);
      AgreesExactlyWhenTight(codec, selector, lines[i]);
    }
    TokensOfUnlines(lines);
  }

  /** removeSelectedTUIHistory over the logs it finds, after the request of requestHistoryDeletion. */
  method DeleteMission(codec: Codec, row: Row, logs: seq<string>)
    returns (refused: bool, rewritten: seq<string>, runs: set<string>)
    ensures refused <==> DeletionOf(row).None?
    ensures |rewritten| == |logs| && (refused ==> rewritten == logs && runs == {})
    ensures !refused ==> forall i :: 0 <= i < |logs| ==>
              rewritten[i] == Rewritten(codec, DeletionOf(row).value, logs[i])
    ensures !refused ==> forall run :: run in runs <==>
              || (run != "" && run == DeletionOf(row).value.runId)
              || exists i :: 0 <= i < |logs| && run in RemovedRuns(codec, DeletionOf(row).value, Split(logs[i], '\n'))
  {
    hide Rewritten, RemovedRuns, AnyRemoved, Trim;
    rewritten, runs := logs, {};
    var arguments := RequestFor(row);
    if arguments.None? {
      return true, logs, {};
    }
    var selector := SelectorFor(arguments.value);
    if selector.None? {
      return true, logs, {};
    }
    refused := false;
    if selector.value.runId != "" {
      runs := {selector.value.runId};
    }
    for i := 0 to |logs|
      invariant |rewritten| == |logs|
      invariant forall k :: 0 <= k < i ==> rewritten[k] == Rewritten(codec, selector.value, logs[k])
      invariant forall run :: run in runs <==>
                  || (run != "" && run == selector.value.runId)
                  || exists k :: 0 <= k < i && run in RemovedRuns(codec, selector.value, Split(logs[k], '\n'))
    {
      var kept, matched, removed := RemoveMatching(codec, selector.value, logs[i]);
      rewritten := rewritten[i := kept];
      runs := runs + matched;
    }
  }
}
