/** The availability file: which native agents are set aside, and until when. */
module Availability {
  import opened Seqs
  import opened Sorting
  import opened Text
  import opened LockedStore

  datatype Entry = Entry(agent: string, expires: int, markedAt: int)

  /** What os.ReadFile and json.Unmarshal make of the path; a wrong schema version is corrupt too. */
  datatype Content = Absent | Corrupt | Entries(entries: seq<Entry>)

  datatype Request = Set(agent: string, duration: int) | Clear(agent: string)

  datatype Answer<T> = Ok(value: T) | Failed

  /** Lower case, for the letters of the two agent names. */
  function Lower(s: string): (r: string)
    ensures |r| == |s|
  {
    seq(|s|, i requires 0 <= i < |s| => if 'A' <= s[i] <= 'Z' then s[i] + 32 as char else s[i])
  }

  function Named(agent: string): string {
    Lower(Trim(agent))
  }

  const CAPITALS: string := "ABCDEFGHIJKLMNOPQRSTUVWXYZ"
  const SMALL: string := "abcdefghijklmnopqrstuvwxyz"

  /** One letter in its two cases. */
  ghost predicate Twins(c: char, d: char) {
    exists k :: 0 <= k < 26 && c == CAPITALS[k] && d == SMALL[k]
  }

  /** The same text but for the case of its letters. */
  ghost predicate SpelledLike(a: string, b: string) {
    |a| == |b| && forall i :: 0 <= i < |a| ==> a[i] == b[i] || Twins(a[i], b[i]) || Twins(b[i], a[i])
  }

  lemma TwinsAreApart(c: char, d: char)
    ensures Twins(c, d) <==> 'A' <= c <= 'Z' && d == c + 32 as char
  {
    assert forall k :: 0 <= k < 26 ==> CAPITALS[k] == 'A' + k as char && SMALL[k] == 'a' + k as char;
    if 'A' <= c <= 'Z' && d == c + 32 as char {
      var k := (c - 'A') as int;
      assert 0 <= k < 26 && c == CAPITALS[k] && d == SMALL[k];
    }
  }

  /** Lower case tells two texts apart exactly when more than the case of letters does. */
  lemma LowerExactly(a: string, b: string)
    ensures Lower(a) == Lower(b) <==> SpelledLike(a, b)
  {
    hide Twins;
    if |a| == |b| {
      forall i | 0 <= i < |a|
        ensures Lower(a)[i] == Lower(b)[i] <==> a[i] == b[i] || Twins(a[i], b[i]) || Twins(b[i], a[i])
      {
        TwinsAreApart(a[i], b[i]);
        TwinsAreApart(b[i], a[i]);
      }
    }
  }

  /** A name means an agent exactly when it is spelled like it, blanks around it aside. */
  lemma NamedExactly(name: string, agent: string)
    requires Known(agent)
    ensures Named(name) == agent <==> SpelledLike(Trim(name), agent)
  {
    hide Trim, Lower, SpelledLike;
    LowerExactly(Trim(name), agent);
    assert Lower(agent) == agent by { KnownAreLower(agent); }
  }

  lemma KnownAreLower(agent: string)
    requires Known(agent)
    ensures Lower(agent) == agent
  {
  }

  predicate Known(agent: string) {
    agent == "claude" || agent == "codex"
  }

  predicate Valid(r: Request) {
    r.Set? ==> r.duration > 0 && Known(Named(r.agent))
  }

  // ------------------------------------------------------------ the file

  function Stored(c: Content): seq<Entry>
    requires !c.Corrupt?
  {
    if c.Absent? then [] else c.entries
  }

  predicate Live(e: Entry, now: int) {
    Known(e.agent) && e.expires > now
  }

  function Active(entries: seq<Entry>, now: int): seq<Entry> {
    Filter(entries, (e: Entry) => Live(e, now))
  }

  function Without(entries: seq<Entry>, agent: string): seq<Entry> {
    Filter(entries, (e: Entry) => agent != "" && e.agent != agent)
  }

  predicate ByAgent(a: Entry, b: Entry) {
    Less(a.agent, b.agent)
  }

  function Written(entries: seq<Entry>): Content {
    Entries(Sort(entries, ByAgent))
  }

  /** What a request leaves in the file when every call to the system succeeds. */
  function Applied(c: Content, r: Request, now: int): Content {
    if !Valid(r) || c.Corrupt? then c
    else
      var agent := Named(r.agent);
      var others := Without(Active(Stored(c), now), agent);
      match r
      case Set(_, duration) => Written(others + [Entry(agent, now + duration, now)])
      case Clear(_) => if |others| == 0 then Absent else Written(others)
  }

  // ------------------------------------------------------------ the object

  method ActiveEntries(entries: seq<Entry>, now: int) returns (result: seq<Entry>)
    ensures result == Active(entries, now)
  {
    result := [];
    var live := (e: Entry) => Live(e, now);
    for i := 0 to |entries|
      invariant result == Filter(entries[..i], live)
    {
      FilterStep(entries[..i], entries[i], live);
      assert entries[..i + 1] == entries[..i] + [entries[i]];
      if (entries[i].agent == "claude" || entries[i].agent == "codex") && entries[i].expires > now {
        result := result + [entries[i]];
      }
    }
    assert entries[..|entries|] == entries;
  }

  method Others(entries: seq<Entry>, agent: string) returns (filtered: seq<Entry>)
    ensures filtered == Without(entries, agent)
  {
    filtered := [];
    var other := (e: Entry) => agent != "" && e.agent != agent;
    for i := 0 to |entries|
      invariant filtered == Filter(entries[..i], other)
    {
      FilterStep(entries[..i], entries[i], other);
      assert entries[..i + 1] == entries[..i] + [entries[i]];
      if agent == "" || entries[i].agent == agent {
        continue;
      }
      filtered := filtered + [entries[i]];
    }
    assert entries[..|entries|] == entries;
  }

  class Store {
    var content: Content

    constructor ()
      ensures content == Absent
    {
      content := Absent;
    }

    method List(now: int) returns (answer: Answer<seq<Entry>>)
      ensures answer == if content.Corrupt? then Failed else Ok(Active(Stored(content), now))
    {
      match content {
        case Absent => answer := Ok([]);
        case Corrupt => answer := Failed;
        case Entries(entries) =>
          var live := ActiveEntries(entries, now);
          answer := Ok(live);
      }
    }

    /** lands says whether the write reaches the rename; synced whether the directory sync after it works. */
    method Set(name: string, duration: int, now: int, lands: bool, synced: bool) returns (answer: Answer<Entry>)
      modifies this
      ensures content == if lands then Applied(old(content), Request.Set(name, duration), now) else old(content)
      ensures answer.Ok? <==> Valid(Request.Set(name, duration)) && !old(content).Corrupt? && lands && synced
      ensures answer.Ok? ==> answer.value == Entry(Named(name), now + duration, now)
      ensures answer.Ok? <==>
        && duration > 0 && (SpelledLike(Trim(name), "claude") || SpelledLike(Trim(name), "codex"))
        && !old(content).Corrupt? && lands && synced
      ensures answer.Ok? ==>
        && SpelledLike(Trim(name), answer.value.agent) && answer.value.agent in ["claude", "codex"]
        && answer.value.expires == now + duration && answer.value.markedAt == now
    {
      hide Trim, Lower, Active, Without, Sort, SpelledLike;
      NamedExactly(name, "claude");
      NamedExactly(name, "codex");
      if duration <= 0 {
        return Failed;
      }
      var agent := Lower(Trim(name));
      if agent != "claude" && agent != "codex" {
        return Failed;
      }
      if content.Corrupt? {
        return Failed;
      }
      var entry := Entry(agent, now + duration, now);
      var live := ActiveEntries(Stored(content), now);
      var filtered := Others(live, agent);
      filtered := filtered + [entry];
      if lands {
        content := Written(filtered);
      }
      answer := if lands && synced then Ok(entry) else Failed;
    }

    method Clear(name: string, now: int, lands: bool, synced: bool) returns (ok: bool)
      modifies this
      ensures content == if lands then Applied(old(content), Request.Clear(name), now) else old(content)
      ensures ok ==> content == Applied(old(content), Request.Clear(name), now) && !content.Corrupt?
      ensures lands && synced ==> (ok <==> !old(content).Corrupt?)
    {
      hide Trim, Lower, Active, Without, Sort;
      var agent := Lower(Trim(name));
      if content.Corrupt? {
        return false;
      }
      var live := ActiveEntries(Stored(content), now);
      var filtered := Others(live, agent);
      if |filtered| == 0 {
        ok := lands || content.Absent?;
        if lands {
          content := Absent;
        }
        return;
      }
      if lands {
        content := Written(filtered);
      }
      ok := lands && synced;
    }

    method IsUnavailable(agent: string, now: int) returns (found: bool)
      ensures found <==>
        !content.Corrupt? && exists e :: e in Active(Stored(content), now) && SpelledLike(e.agent, agent)
    {
      hide SpelledLike, Lower;
      forall name: string ensures Lower(name) == Lower(agent) <==> SpelledLike(name, agent) {
        LowerExactly(name, agent);
      }
      var answer := List(now);
      if answer.Failed? {
        return false;
      }
      for i := 0 to |answer.value|
        invariant forall k :: 0 <= k < i ==> Lower(answer.value[k].agent) != Lower(agent)
      {
        if Lower(answer.value[i].agent) == Lower(agent) {
          return true;
        }
      }
      return false;
    }
  }

  // ------------------------------------------------------------ the map it stands for

  datatype Mark = Mark(expires: int, at: int)

  /** The marks ever set and not cleared; nothing ever expires out of it. */
  type Marks = map<string, Mark>

  function Marked(m: Marks, r: Request, now: int): Marks {
    if !Valid(r) then m
    else
      var agent := Named(r.agent);
      match r
      case Set(_, duration) => m[agent := Mark(now + duration, now)]
      case Clear(_) => if agent == "" then map[] else m - {agent}
  }

  function Shown(m: Marks, agent: string, now: int): seq<Entry> {
    if agent in m && m[agent].expires > now then [Entry(agent, m[agent].expires, m[agent].at)] else []
  }

  /** The unexpired marks of the two agents, in the order of their names. */
  function View(m: Marks, now: int): seq<Entry> {
    Shown(m, "claude", now) + Shown(m, "codex", now)
  }

  function FileOf(entries: seq<Entry>): Content {
    if |entries| == 0 then Absent else Entries(entries)
  }

  lemma NamesAreOrdered()
    ensures Less("claude", "codex") && !Less("codex", "claude") && !Less("claude", "claude") && !Less("codex", "codex")
  {
    assert "claude"[1..] == "laude" && "codex"[1..] == "odex";
    LessIsTotal("claude", "codex");
    LessIsTotal("claude", "claude");
    LessIsTotal("codex", "codex");
    assert Less("laude", "odex");
  }

  lemma FilterOfPair<T>(a: seq<T>, b: seq<T>, p: T -> bool)
    requires |a| <= 1 && |b| <= 1
    ensures Filter(a + b, p) == (if |a| == 1 then Only(a[0], p) else []) + (if |b| == 1 then Only(b[0], p) else [])
  {
    FilterConcat(a, b, p);
  }

  /** Dropping what has expired since the last write shows nothing to any later reader. */
  lemma PurgingIsUnseen(m: Marks, written: int, now: int)
    requires written <= now
    ensures Active(View(m, written), now) == View(m, now)
  {
    FilterOfPair(Shown(m, "claude", written), Shown(m, "codex", written), (e: Entry) => Live(e, now));
  }

  lemma OthersOfView(m: Marks, agent: string, now: int)
    requires Known(agent)
    ensures Without(View(m, now), agent) == if agent == "claude" then Shown(m, "codex", now) else Shown(m, "claude", now)
  {
    FilterOfPair(Shown(m, "claude", now), Shown(m, "codex", now), (e: Entry) => agent != "" && e.agent != agent);
  }

  lemma ViewIsSorted(m: Marks, now: int)
    ensures Sorted(View(m, now), ByAgent) && Sort(View(m, now), ByAgent) == View(m, now)
  {
    NamesAreOrdered();
    SortOfSorted(View(m, now), ByAgent);
  }

  lemma SetMatches(m: Marks, agent: string, duration: int, now: int)
    requires Known(agent) && duration > 0
    ensures Sort(Without(View(m, now), agent) + [Entry(agent, now + duration, now)], ByAgent)
         == View(m[agent := Mark(now + duration, now)], now)
  {
    var after := m[agent := Mark(now + duration, now)];
    var entry := Entry(agent, now + duration, now);
    OthersOfView(m, agent, now);
    if agent == "claude" {
      var rest := Shown(m, "codex", now);
      assert View(after, now) == [entry] + rest;
      SortedPairs(rest, entry);
    } else {
      assert View(after, now) == Shown(m, "claude", now) + [entry];
      ViewIsSorted(after, now);
    }
  }

  lemma SortedPairs(rest: seq<Entry>, entry: Entry)
    requires entry.agent == "claude" && |rest| <= 1 && (|rest| == 1 ==> rest[0].agent == "codex")
    ensures Sort(rest + [entry], ByAgent) == [entry] + rest
  {
    NamesAreOrdered();
    SortOfSorted(rest, ByAgent);
    assert (rest + [entry])[..|rest|] == rest;
    assert |rest| == 1 ==> rest[..0] == [] && Insert(rest[..0], entry, ByAgent) == [entry];
  }

  lemma ClearMatches(m: Marks, agent: string, now: int)
    ensures Without(View(m, now), agent) == View(if agent == "" then map[] else m - {agent}, now)
  {
    FilterOfPair(Shown(m, "claude", now), Shown(m, "codex", now), (e: Entry) => agent != "" && e.agent != agent);
  }

  /** A request does to the file what it does to the map. */
  lemma RequestMatches(m: Marks, written: int, r: Request, now: int)
    requires written <= now
    ensures Applied(FileOf(View(m, written)), r, now)
         == FileOf(View(Marked(m, r, now), if Valid(r) then now else written))
  {
    hide Named, View, Active, Without, Sort;
    var c := FileOf(View(m, written));
    assert Stored(c) == View(m, written);
    if Valid(r) {
      var agent := Named(r.agent);
      PurgingIsUnseen(m, written, now);
      if r.Set? {
        SetMatches(m, agent, r.duration, now);
      } else {
        ClearMatches(m, agent, now);
        ViewIsSorted(Marked(m, r, now), now);
      }
    }
  }

  // ------------------------------------------------------------ whole runs

  function MarksAfter(done: seq<Done<Request>>): Marks {
    if |done| == 0 then map[]
    else
      var last := done[|done| - 1];
      Marked(MarksAfter(done[..|done| - 1]), last.request, last.at)
  }

  /** The time of the last request that wrote. */
  function WrittenAt(done: seq<Done<Request>>, from: int): int {
    if |done| == 0 then from
    else
      var last := done[|done| - 1];
      if Valid(last.request) then last.at else WrittenAt(done[..|done| - 1], from)
  }

  lemma {:induction false} FileIsTheMap(done: seq<Done<Request>>, from: int, to: int)
    requires InOrder(done, from, to)
    ensures Alone(Absent, done, Applied) == FileOf(View(MarksAfter(done), WrittenAt(done, from)))
    ensures from <= WrittenAt(done, from) <= to
    ensures forall i :: 0 <= i < |done| && Valid(done[i].request) ==> done[i].at <= WrittenAt(done, from)
  {
    if |done| > 0 {
      var last := done[|done| - 1];
      FileIsTheMap(done[..|done| - 1], from, last.at);
      RequestMatches(MarksAfter(done[..|done| - 1]), WrittenAt(done[..|done| - 1], from), last.request, last.at);
    }
  }

  /** In any run of any number of callers the file holds the unexpired part of a map no update was lost from. */
  lemma StoreRefinesMap(s: State<Content, Request>, steps: seq<Step<Request>>)
    requires s.content == Absent && Quiet(s) && Runs(s, steps, Applied)
    ensures var t, done := After(s, steps, Applied), Effects(s, steps, Applied);
            && s.clock <= WrittenAt(done, s.clock) <= t.clock
            && t.content == FileOf(View(MarksAfter(done), WrittenAt(done, s.clock)))
  {
    NoUpdateIsLost(s, steps, Applied);
    FileIsTheMap(Effects(s, steps, Applied), s.clock, After(s, steps, Applied).clock);
  }

  /** A reader without the lock, at any time from its read on, lists exactly the unexpired marks:
      at most one entry for each known agent, in order. */
  lemma ReadersSeeTheMap(s: State<Content, Request>, steps: seq<Step<Request>>, now: int)
    requires s.content == Absent && Quiet(s) && Runs(s, steps, Applied)
    requires After(s, steps, Applied).clock <= now
    ensures var content := After(s, steps, Applied).content;
            && !content.Corrupt?
            && Active(Stored(content), now) == View(MarksAfter(Effects(s, steps, Applied)), now)
  {
    StoreRefinesMap(s, steps);
    var done := Effects(s, steps, Applied);
    PurgingIsUnseen(MarksAfter(done), WrittenAt(done, s.clock), now);
  }

  /** Reading the map: an agent is marked by its last valid Set if no Clear of it came later. */
  lemma {:induction false} LastRequestDecides(done: seq<Done<Request>>, agent: string, k: nat)
    requires Known(agent) && k < |done| && Valid(done[k].request)
    requires done[k].request.Set? && Named(done[k].request.agent) == agent
    requires forall i :: k < i < |done| && Valid(done[i].request) ==>
               Named(done[i].request.agent) != agent && Named(done[i].request.agent) != ""
    ensures agent in MarksAfter(done)
    ensures MarksAfter(done)[agent] == Mark(done[k].at + done[k].request.duration, done[k].at)
  {
    if k < |done| - 1 {
      LastRequestDecides(done[..|done| - 1], agent, k);
    }
  }

  lemma {:induction false} ClearedAgentsStayClear(done: seq<Done<Request>>, agent: string, k: nat)
    requires k < |done| && done[k].request.Clear?
    requires Named(done[k].request.agent) == agent || Named(done[k].request.agent) == ""
    requires forall i :: k < i < |done| && Valid(done[i].request) && done[i].request.Set? ==>
               Named(done[i].request.agent) != agent
    ensures agent !in MarksAfter(done)
  {
    if k < |done| - 1 {
      ClearedAgentsStayClear(done[..|done| - 1], agent, k);
    }
  }

  /** So an agent is listed from its last Set on until the time it was set for is over, and not from then on. */
  lemma ListedUntilExpiry(done: seq<Done<Request>>, agent: string, k: nat, now: int)
    requires Known(agent) && k < |done| && done[k].request.Set? && done[k].request.duration > 0
    requires SpelledLike(Trim(done[k].request.agent), agent)
    requires forall i :: k < i < |done| && Valid(done[i].request) ==>
               Named(done[i].request.agent) != agent && Named(done[i].request.agent) != ""
    ensures var listed := View(MarksAfter(done), now);
            (exists i :: 0 <= i < |listed| && listed[i].agent == agent) <==> now < done[k].at + done[k].request.duration
  {
    hide Trim, Lower, SpelledLike, MarksAfter;
    NamedExactly(done[k].request.agent, agent);
    LastRequestDecides(done, agent, k);
    var m := MarksAfter(done);
    if now < m[agent].expires {
      var i := if agent == "claude" then 0 else |Shown(m, "claude", now)|;
      assert View(m, now)[i].agent == agent;
    }
  }

  /** And one that was cleared, or everything with it, is not listed until it is set again. */
  lemma ClearedAreNotListed(done: seq<Done<Request>>, agent: string, k: nat, now: int)
    requires Known(agent) && k < |done| && done[k].request.Clear?
    requires SpelledLike(Trim(done[k].request.agent), agent) || Blank(done[k].request.agent)
    requires forall i :: k < i < |done| && Valid(done[i].request) && done[i].request.Set? ==>
               Named(done[i].request.agent) != agent
    ensures forall i :: 0 <= i < |View(MarksAfter(done), now)| ==> View(MarksAfter(done), now)[i].agent != agent
  {
    hide Trim, SpelledLike, MarksAfter;
    NamedExactly(done[k].request.agent, agent);
    ClearedAgentsStayClear(done, agent, k);
  }
}
