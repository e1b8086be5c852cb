/** What a log holds after any run, line by line: complete appends, and what torn writes have left of others. */
module LogLines {
  import opened Seqs
  import opened Text
  import opened LedgerFile
  import opened EventLog

  /** A line of a log: a complete append, after the bytes that torn writes have left in front of it. */
  datatype Piece = Piece(torn: string, line: string)

  function TextOf(piece: Piece): string {
    piece.torn + piece.line
  }

  function TextsOf(pieces: seq<Piece>): (r: seq<string>)
    ensures |r| == |pieces|
  {
    seq(|pieces|, i requires 0 <= i < |pieces| => TextOf(pieces[i]))
  }

  /** The bytes of a log of these lines, with torn bytes after the last newline. */
  function Rendered(pieces: seq<Piece>, tail: string): string {
    Unlines(TextsOf(pieces)) + tail
  }

  ghost predicate ArePieces(pieces: seq<Piece>) {
    forall i :: 0 <= i < |pieces| ==> IsLine(pieces[i].torn) && IsLine(pieces[i].line)
  }

  lemma TextsAreLines(pieces: seq<Piece>)
    requires ArePieces(pieces)
    ensures AreLines(TextsOf(pieces))
  {
  }

  // ------------------------------------------------------------ what survives

  /** No later delete empties the log and no later rewrite selects the line. */
  ghost predicate Outlives(codec: Codec, line: string, later: seq<Effect>, path: Path) {
    forall i :: 0 <= i < |later| ==>
      match later[i]
      case Cut(p, selector) => p == path ==> !Removes(codec, selector, line)
      case Empty(p) => p != path
      case _ => true
  }

  ghost function Lasts(codec: Codec, later: seq<Effect>, path: Path): Piece -> bool {
    piece => Outlives(codec, TextOf(piece), later, path)
  }

  /** The line that the first effect completes, when it is an append that lasts. */
  ghost function Lasting(codec: Codec, tail: string, effects: seq<Effect>, path: Path): seq<Piece>
    requires |effects| > 0
  {
    if effects[0].Append? && effects[0].path == path then
      Only(Piece(tail, effects[0].line), Lasts(codec, effects[1..], path))
    else []
  }

  /** What stands after the last newline once the effect is done. */
  function TailStep(codec: Codec, tail: string, e: Effect, path: Path): string {
    match e
    case Append(p, _) => if p == path then "" else tail
    case Torn(p, part) => if p == path then tail + part else tail
    case Cut(p, selector) => if p == path && Removes(codec, selector, tail) then "" else tail
    case Empty(p) => if p == path then "" else tail
    case Quiet => tail
  }

  function TailAfter(codec: Codec, tail: string, effects: seq<Effect>, path: Path): string
    decreases |effects|
  {
    if |effects| == 0 then tail else TailAfter(codec, TailStep(codec, tail, effects[0], path), effects[1..], path)
  }

  /** The complete appends that nothing later removed, in the order they were made, each with the torn bytes
      that stood after the last newline when it came. */
  ghost function Survivors(codec: Codec, tail: string, effects: seq<Effect>, path: Path): seq<Piece>
    decreases |effects|
  {
    if |effects| == 0 then []
    else
      Lasting(codec, tail, effects, path)
      + Survivors(codec, TailStep(codec, tail, effects[0], path), effects[1..], path)
  }

  // ------------------------------------------------------------ one more effect

  function KeepsPiece(codec: Codec, selector: Selector): Piece -> bool {
    piece => !Removes(codec, selector, TextOf(piece))
  }

  /** The lines left by one more effect, before the rest decides. */
  function PiecesStep(codec: Codec, pieces: seq<Piece>, tail: string, e: Effect, path: Path): seq<Piece> {
    match e
    case Append(p, line) => if p == path then pieces + [Piece(tail, line)] else pieces
    case Cut(p, selector) => if p == path then Filter(pieces, KeepsPiece(codec, selector)) else pieces
    case Empty(p) => if p == path then [] else pieces
    case _ => pieces
  }

  lemma {:induction false} KeptPieces(codec: Codec, selector: Selector, pieces: seq<Piece>)
    ensures Kept(codec, selector, TextsOf(pieces)) == TextsOf(Filter(pieces, KeepsPiece(codec, selector)))
  {
    hide Removes;
    if |pieces| > 0 {
      var rest := Filter(pieces[1..], KeepsPiece(codec, selector));
      assert TextsOf(pieces)[1..] == TextsOf(pieces[1..]);
      KeptPieces(codec, selector, pieces[1..]);
      assert TextsOf([pieces[0]] + rest) == [TextOf(pieces[0])] + TextsOf(rest);
      assert [] + rest == rest && [] + TextsOf(rest) == TextsOf(rest);
    }
  }

  lemma OneMorePiece(pieces: seq<Piece>, tail: string, line: string)
    ensures Rendered(pieces + [Piece(tail, line)], "") == Rendered(pieces, tail) + (line + "\n")
  {
    hide Unlines;
    var piece := Piece(tail, line);
    assert TextsOf(pieces + [piece]) == TextsOf(pieces) + [tail + line];
    UnlinesConcat(TextsOf(pieces), [tail + line]);
    UnlinesOne(tail + line);
    assert Unlines(TextsOf(pieces)) + ((tail + line) + "\n") + "" == Unlines(TextsOf(pieces)) + tail + (line + "\n");
  }

  lemma UnlinesOne(line: string)
    ensures Unlines([line]) == line + "\n"
  {
  }

  lemma StepRenders(codec: Codec, pieces: seq<Piece>, tail: string, e: Effect, path: Path)
    requires ArePieces(pieces) && IsLine(tail)
    ensures Log(codec, Rendered(pieces, tail), e, path)
            == Rendered(PiecesStep(codec, pieces, tail, e, path), TailStep(codec, tail, e, path))
  {
    hide Rewritten, Unlines, Removes, IsLine, Kept, TextsOf;
    match e {
      case Append(p, line) =>
        if p == path {
          OneMorePiece(pieces, tail, line);
        }
      case Torn(p, part) =>
        assert Unlines(TextsOf(pieces)) + tail + part == Unlines(TextsOf(pieces)) + (tail + part);
      case Cut(p, selector) =>
        TextsAreLines(pieces);
        RewrittenLines(codec, selector, TextsOf(pieces), tail);
        KeptPieces(codec, selector, pieces);
      case Empty(p) =>
        NothingRendered();
      case Quiet =>
    }
  }

  lemma NothingRendered()
    ensures Rendered([], "") == ""
  {
  }

  /** Appends and torn writes put no newline inside a line. */
  predicate LineEffect(e: Effect) {
    (e.Append? ==> IsLine(e.line)) && (e.Torn? ==> IsLine(e.part))
  }

  ghost predicate LineEffects(effects: seq<Effect>) {
    forall i :: 0 <= i < |effects| ==> LineEffect(effects[i])
  }

  lemma StepKeepsPieces(codec: Codec, pieces: seq<Piece>, tail: string, e: Effect, path: Path)
    requires ArePieces(pieces) && IsLine(tail) && LineEffect(e)
    ensures ArePieces(PiecesStep(codec, pieces, tail, e, path)) && IsLine(TailStep(codec, tail, e, path))
  {
    hide Removes;
    if e.Cut? {
      FilterMembers(pieces, KeepsPiece(codec, e.selector));
    }
  }

  lemma OutlivesStep(codec: Codec, line: string, effects: seq<Effect>, path: Path)
    requires |effects| > 0
    ensures Outlives(codec, line, effects, path)
            <==> Outlives(codec, line, effects[1..], path) && Outlives(codec, line, [effects[0]], path)
  {
    hide Removes;
    if Outlives(codec, line, effects, path) {
      assert forall i :: 0 <= i < |effects| - 1 ==> effects[1..][i] == effects[i + 1];
    } else {
      assert forall i :: 1 <= i < |effects| ==> effects[i] == effects[1..][i - 1];
      assert [effects[0]][0] == effects[0];
    }
  }

  lemma SurvivingOneMore(codec: Codec, pieces: seq<Piece>, tail: string, effects: seq<Effect>, path: Path)
    requires |effects| > 0
    ensures Filter(PiecesStep(codec, pieces, tail, effects[0], path), Lasts(codec, effects[1..], path))
            == Filter(pieces, Lasts(codec, effects, path)) + Lasting(codec, tail, effects, path)
  {
    hide Removes, Filter;
    var now, rest, e := Lasts(codec, effects, path), Lasts(codec, effects[1..], path), effects[0];
    forall piece: Piece ensures now(piece) <==> rest(piece) && Outlives(codec, TextOf(piece), [e], path) {
      OutlivesStep(codec, TextOf(piece), effects, path);
    }
    if e.Empty? && e.path == path {
      FilterNone(pieces, now);
      FilterNone([], rest);
    } else if e.Cut? && e.path == path {
      FilterTwice(pieces, KeepsPiece(codec, e.selector), rest, now);
    } else {
      FilterAgree(pieces, now, rest);
      if e.Append? && e.path == path {
        FilterStep(pieces, Piece(tail, e.line), rest);
      }
    }
  }

  // ------------------------------------------------------------ all effects

  lemma {:induction false} LogIsPieces(codec: Codec, pieces: seq<Piece>, tail: string, effects: seq<Effect>, path: Path)
    requires ArePieces(pieces) && IsLine(tail) && LineEffects(effects)
    ensures LogAfter(codec, Rendered(pieces, tail), effects, path)
            == Rendered(Filter(pieces, Lasts(codec, effects, path)) + Survivors(codec, tail, effects, path),
                        TailAfter(codec, tail, effects, path))
    decreases |effects|
  {
    hide Rendered, PiecesStep, TailStep, Log, ArePieces, IsLine, LineEffect, Filter, Lasting;
    if |effects| == 0 {
      FilterAll(pieces, Lasts(codec, effects, path));
      assert pieces + [] == pieces;
    } else {
      hide Lasts;
      var more := PiecesStep(codec, pieces, tail, effects[0], path);
      var torn := TailStep(codec, tail, effects[0], path);
      assert LineEffect(effects[0]);
      StepRenders(codec, pieces, tail, effects[0], path);
      StepKeepsPieces(codec, pieces, tail, effects[0], path);
      LogIsPieces(codec, more, torn, effects[1..], path);
      SurvivingOneMore(codec, pieces, tail, effects, path);
      var before, added := Filter(pieces, Lasts(codec, effects, path)), Lasting(codec, tail, effects, path);
      var later := Survivors(codec, torn, effects[1..], path);
      assert (before + added) + later == before + (added + later);
    }
  }

  lemma {:induction false} SurvivorsArePieces(codec: Codec, tail: string, effects: seq<Effect>, path: Path)
    requires IsLine(tail) && LineEffects(effects)
    ensures ArePieces(Survivors(codec, tail, effects, path)) && IsLine(TailAfter(codec, tail, effects, path))
    decreases |effects|
  {
    hide Removes, Lasts;
    if |effects| > 0 {
      assert LineEffect(effects[0]);
      SurvivorsArePieces(codec, TailStep(codec, tail, effects[0], path), effects[1..], path);
    }
  }

  lemma {:induction false} RunAppendsLines(codec: Codec, s: State, actions: seq<Action>)
    requires Inv(codec, s) && Runs(codec, s, actions)
    ensures LineEffects(Effects(codec, s, actions))
    decreases |actions|
  {
    hide Linked, Exclusive, Knows, Apply, Enabled, EffectOf, LineEffect, Harmless;
    if |actions| > 0 {
      StepIsLine(codec, s, actions[0]);
      StepKeepsInv(codec, s, actions[0]);
      RunAppendsLines(codec, Apply(codec, s, actions[0]), actions[1..]);
    }
  }

  lemma StepIsLine(codec: Codec, s: State, a: Action)
    requires Inv(codec, s) && Enabled(s, a)
    ensures LineEffect(EffectOf(s, a))
  {
    if a.Write? || a.Tear? {
      assert Knows(codec, s, a.t);
    }
  }

  lemma LogFromNothing(codec: Codec, effects: seq<Effect>, path: Path)
    requires LineEffects(effects)
    ensures LogAfter(codec, "", effects, path)
            == Rendered(Survivors(codec, "", effects, path), TailAfter(codec, "", effects, path))
  {
    var none: seq<Piece> := [];
    LogIsPieces(codec, none, "", effects, path);
    NothingRendered();
    assert Filter(none, Lasts(codec, effects, path)) + Survivors(codec, "", effects, path)
        == Survivors(codec, "", effects, path);
  }

  /** Under every interleaving, with processes dying and writes stopping at any point, the log holds exactly the
      complete appends that no later removal selected, in order, each after the torn bytes it was appended to, and
      the torn bytes nothing was appended to yet. */
  lemma LogHoldsExactlySurvivors(codec: Codec, s: State, actions: seq<Action>, path: Path)
    requires Init(s) && Runs(codec, s, actions)
    ensures var effects := Effects(codec, s, actions);
            && Content(Final(codec, s, actions), path)
               == Rendered(Survivors(codec, "", effects, path), TailAfter(codec, "", effects, path))
            && ArePieces(Survivors(codec, "", effects, path)) && IsLine(TailAfter(codec, "", effects, path))
  {
    hide Rendered, Survivors, TailAfter, Runs, Final, Effects, LogAfter;
    InitHolds(codec, s);
    RunRefinesLog(codec, s, actions, path);
    RunAppendsLines(codec, s, actions);
    LogFromNothing(codec, Effects(codec, s, actions), path);
    SurvivorsArePieces(codec, "", Effects(codec, s, actions), path);
  }

  // ------------------------------------------------------------ without torn writes

  /** No torn bytes anywhere in the log. */
  ghost predicate AllWhole(pieces: seq<Piece>) {
    forall i :: 0 <= i < |pieces| ==> pieces[i].torn == ""
  }

  ghost predicate Untorn(effects: seq<Effect>, path: Path) {
    forall i :: 0 <= i < |effects| ==> (effects[i].Torn? && effects[i].path == path ==> effects[i].part == "")
  }

  lemma {:induction false} UntornSurvivors(codec: Codec, effects: seq<Effect>, path: Path)
    requires Untorn(effects, path)
    ensures TailAfter(codec, "", effects, path) == ""
    ensures AllWhole(Survivors(codec, "", effects, path))
    decreases |effects|
  {
    hide Removes, Lasts;
    if |effects| > 0 {
      assert TailStep(codec, "", effects[0], path) == "";
      UntornSurvivors(codec, effects[1..], path);
      assert AllWhole(Lasting(codec, "", effects, path));
    }
  }

  /** Where no write to the log stopped partway, it is the surviving appends, each whole on a line of its own. */
  lemma UntornLogIsWhole(codec: Codec, s: State, actions: seq<Action>, path: Path)
    requires Init(s) && Runs(codec, s, actions) && Untorn(Effects(codec, s, actions), path)
    ensures var pieces := Survivors(codec, "", Effects(codec, s, actions), path);
            Content(Final(codec, s, actions), path)
            == Unlines(seq(|pieces|, i requires 0 <= i < |pieces| => pieces[i].line))
  {
    hide Survivors, TailAfter, Runs, Final, Effects, Untorn, Unlines;
    LogHoldsExactlySurvivors(codec, s, actions, path);
    UntornSurvivors(codec, Effects(codec, s, actions), path);
    var pieces := Survivors(codec, "", Effects(codec, s, actions), path);
    var lines := seq(|pieces|, i requires 0 <= i < |pieces| => pieces[i].line);
    forall i | 0 <= i < |pieces| ensures TextsOf(pieces)[i] == lines[i] {
      assert "" + pieces[i].line == pieces[i].line;
    }
    assert TextsOf(pieces) == lines;
    assert Unlines(lines) + "" == Unlines(lines);
  }

  // ------------------------------------------------------------ reading it

  /** A line Append writes: the encoding of an event it accepted. */
  ghost predicate Encoded(codec: Codec, line: string) {
    exists event :: Current(event) && line == codec.encode(event)
  }

  ghost predicate PendingEncoded(codec: Codec, s: State) {
    forall t :: 0 <= t < |s.threads| && InMutex(s.threads[t].pc) ==> Encoded(codec, s.threads[t].pc.line)
  }

  /** As in JSON, an encoded event after other text is no value: that text would have to end where the event begins. */
  ghost predicate Closed(codec: Codec) {
    forall torn: string, event: Event :: torn != "" && Headed(torn) ==> codec.decode(torn + codec.encode(event)).None?
  }

  predicate Headed(text: string) {
    text == "" || !IsSpace(text[0])
  }

  /** An append of an encoded event, or of the front of one. */
  ghost predicate EncodedEffect(codec: Codec, e: Effect) {
    (e.Append? ==> Encoded(codec, e.line)) && (e.Torn? ==> Headed(e.part))
  }

  ghost predicate AllEncoded(codec: Codec, effects: seq<Effect>) {
    forall i :: 0 <= i < |effects| ==> EncodedEffect(codec, effects[i])
  }

  lemma EncodingsReplay(codec: Codec, line: string)
    requires Faithful(codec) && Encoded(codec, line)
    ensures codec.decode(line).Some? && codec.encode(codec.decode(line).value) == line
    ensures Current(codec.decode(line).value) && IsLine(line) && line != "" && Trim(line) == line
  {
    hide Current, IsLine, Trim;
    var event :| Current(event) && line == codec.encode(event);
    assert codec.decode(codec.encode(event)) == Some(event);
  }

  lemma FrontIsHeaded(line: string, part: string)
    requires Trim(line) == line && part <= line
    ensures Headed(part)
  {
    hide Trim, IsSpace;
    TrimIsTight(line);
  }

  lemma StepKeepsPending(codec: Codec, s: State, a: Action)
    requires Inv(codec, s) && Enabled(s, a) && PendingEncoded(codec, s)
    requires a.BeginAppend? ==> Encoded(codec, a.line)
    ensures PendingEncoded(codec, Apply(codec, s, a))
  {
    hide Rewritten, IsLine, Encoded;
    var next := Apply(codec, s, a);
    forall t | 0 <= t < |next.threads| && InMutex(next.threads[t].pc) ensures Encoded(codec, next.threads[t].pc.line) {
      assert InMutex(s.threads[t].pc) || a.BeginAppend?;
    }
  }

  lemma StepIsEncoded(codec: Codec, s: State, a: Action)
    requires Faithful(codec) && WellFormed(s) && Enabled(s, a) && PendingEncoded(codec, s)
    ensures EncodedEffect(codec, EffectOf(s, a))
  {
    hide Encoded, Faithful, Headed;
    if a.Tear? {
      EncodingsReplay(codec, s.threads[a.t].pc.line);
      FrontIsHeaded(s.threads[a.t].pc.line, a.part);
    }
  }

  /** Every line a process starts to append encodes an event. */
  ghost predicate EncodedActions(codec: Codec, actions: seq<Action>) {
    forall i :: 0 <= i < |actions| && actions[i].BeginAppend? ==> Encoded(codec, actions[i].line)
  }

  lemma {:induction false} RunAppendsEncodings(codec: Codec, s: State, actions: seq<Action>)
    requires Faithful(codec) && Inv(codec, s) && Runs(codec, s, actions) && PendingEncoded(codec, s)
    requires EncodedActions(codec, actions)
    ensures AllEncoded(codec, Effects(codec, s, actions))
    decreases |actions|
  {
    hide Faithful, Linked, Exclusive, Knows, Apply, Enabled, EffectOf, EncodedEffect, Encoded, PendingEncoded, Harmless;
    if |actions| > 0 {
      StepKeepsInv(codec, s, actions[0]);
      StepKeepsPending(codec, s, actions[0]);
      StepIsEncoded(codec, s, actions[0]);
      RunAppendsEncodings(codec, Apply(codec, s, actions[0]), actions[1..]);
    }
  }

  /** A line an append completed. */
  ghost predicate Appended(codec: Codec, piece: Piece) {
    Headed(piece.torn) && Encoded(codec, piece.line)
  }

  ghost predicate AllAppended(codec: Codec, pieces: seq<Piece>) {
    forall i :: 0 <= i < |pieces| ==> Appended(codec, pieces[i])
  }

  lemma {:induction false} SurvivorsAreAppended(codec: Codec, tail: string, effects: seq<Effect>, path: Path)
    requires Headed(tail) && AllEncoded(codec, effects)
    ensures AllAppended(codec, Survivors(codec, tail, effects, path)) && Headed(TailAfter(codec, tail, effects, path))
    decreases |effects|
  {
    hide Removes, Lasts, Encoded, IsSpace;
    if |effects| > 0 {
      assert EncodedEffect(codec, effects[0]);
      SurvivorsAreAppended(codec, TailStep(codec, tail, effects[0], path), effects[1..], path);
      assert AllAppended(codec, Lasting(codec, tail, effects, path));
    }
  }

  /** The event a reader finds on a line: that of the append, unless torn bytes stand before it. */
  function FoundOn(codec: Codec): Piece -> Option<Event> {
    (piece: Piece) => if piece.torn == "" then codec.decode(piece.line) else None
  }

  lemma PieceReplays(codec: Codec, piece: Piece)
    requires Faithful(codec) && Closed(codec) && Appended(codec, piece)
    ensures Replayed(codec, TextOf(piece)) == FoundOn(codec)(piece) && !Blank(TextOf(piece))
  {
    hide Faithful, Encoded, IsSpace, Trim, Current;
    EncodingsReplay(codec, piece.line);
    TrimIsTight(piece.line);
    var text := TextOf(piece);
    assert text[|text| - 1] == piece.line[|piece.line| - 1];
    assert "" + text + "" == text;
    TrimIsUnique("", text, "");
    if piece.torn == "" {
      assert text == piece.line;
    } else {
      assert codec.encode(codec.decode(piece.line).value) == piece.line;
    }
  }

  lemma {:induction false} PiecesReplay(codec: Codec, pieces: seq<Piece>)
    requires Faithful(codec) && Closed(codec) && AllAppended(codec, pieces)
    ensures Events(codec, TextsOf(pieces)) == FilterMap(pieces, FoundOn(codec))
    ensures NonBlank(TextsOf(pieces)) == |pieces|
  {
    hide Faithful, Closed, Appended, Replayed, Blank, TextOf;
    if |pieces| > 0 {
      assert TextsOf(pieces)[1..] == TextsOf(pieces[1..]);
      PieceReplays(codec, pieces[0]);
      PiecesReplay(codec, pieces[1..]);
    }
  }

  /** How many lines come before the first one too long for a reader. */
  function Readable(pieces: seq<Piece>): (k: nat)
    ensures k <= |pieces| && TextsOf(pieces[..k]) == Fitting(TextsOf(pieces))
    ensures k == |pieces| <==> Fits(TextsOf(pieces))
  {
    |Fitting(TextsOf(pieces))|
  }

  /** What a reader makes of torn bytes at the very end. */
  function FoundAtEnd(codec: Codec, pieces: seq<Piece>, tail: string): seq<Event> {
    if Fits(TextsOf(pieces)) && tail != "" && FitsLine(tail) then AsSeq(Replayed(codec, tail)) else []
  }

  lemma ReadInParts(codec: Codec, lines: seq<string>, tail: string)
    requires AreLines(lines) && IsLine(tail)
    ensures ReadEvents(codec, Unlines(lines) + tail)
            == Events(codec, Fitting(lines))
               + if Fits(lines) && tail != "" && FitsLine(tail) then AsSeq(Replayed(codec, tail)) else []
  {
    hide Tokens, FitsLine, Replayed, Unlines;
    TokensOfLines(lines, tail);
    if tail == "" {
      assert lines + [] == lines;
    } else if Fits(lines) {
      FittingConcat(lines, [tail]);
      assert Fitting([tail]) == if FitsLine(tail) then [tail] else [];
      assert lines + [] == lines;
      ReplayStep(codec, lines, tail);
    } else {
      FittingIgnoresLater(lines, [tail]);
    }
  }

  lemma {:induction false} AllFoundExactlyWhenWhole(codec: Codec, pieces: seq<Piece>)
    requires Faithful(codec) && AllAppended(codec, pieces)
    ensures |FilterMap(pieces, FoundOn(codec))| == |pieces| <==> AllWhole(pieces)
  {
    hide Faithful, Encoded, Headed, Current, Trim, IsLine;
    if |pieces| > 0 {
      var rest := FilterMap(pieces[1..], FoundOn(codec));
      AllFoundExactlyWhenWhole(codec, pieces[1..]);
      assert Appended(codec, pieces[0]);
      EncodingsReplay(codec, pieces[0].line);
      assert AllWhole(pieces) <==> pieces[0].torn == "" && AllWhole(pieces[1..]) by {
        assert forall i :: 1 <= i < |pieces| ==> pieces[i] == pieces[1..][i - 1];
      }
    }
  }

  /** Of a log of these lines a reader gets, in order, the event of each append before the first line too long to read
      and not glued to torn bytes, and what torn bytes at the end may decode to: the events of all appends exactly
      when every line fits and no torn bytes stand before an append. */
  lemma ReadersSeeWholeLines(codec: Codec, pieces: seq<Piece>, tail: string)
    requires Faithful(codec) && Closed(codec) && ArePieces(pieces) && IsLine(tail) && AllAppended(codec, pieces)
    ensures ReadEvents(codec, Rendered(pieces, tail))
            == FilterMap(pieces[..Readable(pieces)], FoundOn(codec)) + FoundAtEnd(codec, pieces, tail)
    ensures NonBlank(Fitting(TextsOf(pieces))) == Readable(pieces)
    ensures |FilterMap(pieces[..Readable(pieces)], FoundOn(codec))| == |pieces|
            <==> Fits(TextsOf(pieces)) && AllWhole(pieces)
  {
    hide Faithful, Closed, IsLine, Appended, ReadEvents, TextsOf, Replayed, Unlines, FitsLine, AllWhole, NonBlank,
      Readable;
    TextsAreLines(pieces);
    ReadInParts(codec, TextsOf(pieces), tail);
    var k := Readable(pieces);
    PiecesReplay(codec, pieces[..k]);
    if k == |pieces| {
      assert pieces[..k] == pieces;
      AllFoundExactlyWhenWhole(codec, pieces);
    }
  }

  /** A reader of a log that began empty gets the events of the appends that survive, in order: of all of them exactly
      when every line fits and no write that stopped partway stands directly before one. */
  lemma ReadersSeeSurvivors(codec: Codec, s: State, actions: seq<Action>, path: Path)
    requires Faithful(codec) && Closed(codec) && Init(s) && Runs(codec, s, actions) && EncodedActions(codec, actions)
    ensures var effects := Effects(codec, s, actions);
            var pieces, tail := Survivors(codec, "", effects, path), TailAfter(codec, "", effects, path);
            var found := FilterMap(pieces[..Readable(pieces)], FoundOn(codec));
            && ReadEvents(codec, Content(Final(codec, s, actions), path)) == found + FoundAtEnd(codec, pieces, tail)
            && (|found| == |pieces| <==> Fits(TextsOf(pieces)) && AllWhole(pieces))
            && NonBlank(Fitting(TextsOf(pieces))) == Readable(pieces)
            && AllAppended(codec, pieces)
  {
    hide Faithful, Closed, Runs, Effects, Final, Content, EncodedActions, Survivors, TailAfter, Rendered, AllEncoded,
      FoundAtEnd, ArePieces, IsLine, ReadEvents, Fits, AllWhole, TextsOf, NonBlank, Readable, AllAppended, Init;
    InitHolds(codec, s);
    NothingPending(codec, s);
    LogHoldsExactlySurvivors(codec, s, actions, path);
    RunAppendsEncodings(codec, s, actions);
    var effects := Effects(codec, s, actions);
    SurvivorsAreAppended(codec, "", effects, path);
    ReadersSeeWholeLines(codec, Survivors(codec, "", effects, path), TailAfter(codec, "", effects, path));
  }

  lemma NothingPending(codec: Codec, s: State)
    requires Init(s)
    ensures PendingEncoded(codec, s)
  {
  }

  /** The failing input: an append that a torn write stands directly before is not read, though its line is complete. */
  lemma TornBytesHideTheNextAppend(codec: Codec, torn: string, event: Event)
    requires Faithful(codec) && Closed(codec) && Current(event) && torn != "" && IsLine(torn) && Headed(torn)
    ensures ReadEvents(codec, torn + (codec.encode(event) + "\n")) == []
    ensures ReadEvents(codec, codec.encode(event) + "\n") == if FitsLine(codec.encode(event)) then [event] else []
  {
    hide Current, Headed, ReadEvents, Fits, Trim, NonBlank, IsLine, FitsLine;
    var line := codec.encode(event);
    assert codec.decode(line) == Some(event) && IsLine(line);
    assert Encoded(codec, line);
    assert Headed("") && IsLine("") by { NothingIsHeaded(); }
    OnePieceReads(codec, Piece(torn, line));
    OnePieceReads(codec, Piece("", line));
    assert torn + (line + "\n") == torn + line + "\n" && "" + line == line;
  }

  lemma NothingIsHeaded()
    ensures Headed("") && IsLine("")
  {
  }

  lemma OnePieceReads(codec: Codec, piece: Piece)
    requires Faithful(codec) && Closed(codec) && IsLine(piece.torn) && IsLine(piece.line) && Appended(codec, piece)
    ensures ReadEvents(codec, TextOf(piece) + "\n")
            == if FitsLine(TextOf(piece)) then AsSeq(FoundOn(codec)(piece)) else []
  {
    hide Faithful, Closed, IsLine, Appended, ReadEvents, FitsLine, NonBlank, FoundOn;
    var pieces := [piece];
    NothingIsHeaded();
    ReadersSeeWholeLines(codec, pieces, "");
    assert TextsOf(pieces) == [TextOf(piece)];
    UnlinesOne(TextOf(piece));
    assert TextOf(piece) + "\n" + "" == TextOf(piece) + "\n";
    FilterMapOne(piece, FoundOn(codec));
  }

  /** And a run that gets there, from any state with a thread about to append to an empty log. */
  lemma AppendAfterTornWriteIsNotRead(codec: Codec, s: State, t: Tid, part: string, event: Event)
    requires Faithful(codec) && Closed(codec) && Inv(codec, s) && Current(event)
    requires t < |s.threads| && PcOf(s, t).Ready? && Content(s, PcOf(s, t).path) == ""
    requires part != "" && part <= PcOf(s, t).line && Encoded(codec, PcOf(s, t).line)
    ensures var actions := TearAndAppend(t, part, codec.encode(event));
            && Runs(codec, s, actions) && ReadEvents(codec, Content(Final(codec, s, actions), PcOf(s, t).path)) == []
  {
    hide Linked, Exclusive, Runs, Final, Content, ReadEvents, Current, Headed, Trim, FitsLine;
    var line, path := codec.encode(event), PcOf(s, t).path;
    assert Knows(codec, s, t) && IsLine(line);
    EncodingsReplay(codec, PcOf(s, t).line);
    FrontIsHeaded(PcOf(s, t).line, part);
    TearThenAppend(codec, s, t, part, line);
    TornBytesHideTheNextAppend(codec, part, event);
    assert "" + part + (line + "\n") == part + (line + "\n");
  }
}
