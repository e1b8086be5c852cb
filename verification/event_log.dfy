/** The event logs shared by every veto process: appenders, selective rewriters and removers. */
module EventLog {
  import opened Seqs
  import opened Text
  import opened LedgerFile

  type Path = string
  type Inode = nat
  type Tid = nat
  type Proc = nat

  /** The open log of one process (eventLogFile), guarded by its mutex (eventRunMu). */
  datatype Handle = Closed | Open(path: Path, inode: Inode)

  /** Where a thread stands between two system calls. */
  datatype Pc =
    | Idle
    | Opened(path: Path, inode: Inode)                 // setupLogger has a file, not yet installed
    | Appending(line: string)                          // holds the mutex
    | Locked(path: Path, line: string)                 // and the sidecar lock of the path
    | Stale(path: Path, line: string)                  // Stat found another file at the path
    | Ready(path: Path, line: string)                  // the handle is the linked file
    | Rewriting(path: Path, selector: Selector)        // holds the sidecar lock
    | Loaded(path: Path, selector: Selector, data: string)
    | Staged(path: Path, selector: Selector, data: string, temp: Inode)
    | Removing(path: Path)
    | Released(path: Path)                             // effect done, lock not yet dropped

  datatype Thread = Thread(proc: Proc, pc: Pc)

  datatype State = State(
    dir: map<Path, Inode>, files: map<Inode, string>, handles: seq<Handle>, threads: seq<Thread>)

  datatype Action =
    | OpenLog(t: Tid, path: Path, spare: Inode)
    | InstallLog(t: Tid)
    | CloseLog(t: Tid)
    | BeginAppend(t: Tid, line: string)
    | LockAppend(t: Tid)
    | StatSame(t: Tid)
    | StatOther(t: Tid)
    | Reopen(t: Tid, spare: Inode)
    | Write(t: Tid)                                    // all of it, and the append is acknowledged
    | Tear(t: Tid, part: string)                       // it stops partway, with an error or the end of the process
    | LockRewrite(t: Tid, path: Path, selector: Selector)
    | Load(t: Tid)
    | Stage(t: Tid, spare: Inode)
    | Rename(t: Tid)
    | LockRemove(t: Tid, path: Path)
    | Unlink(t: Tid)
    | Rotate(t: Tid, path: Path)                       // setupLogger drops an old log, without its lock
    | Finish(t: Tid)                                   // drops the locks, after success or any failure
    | Crash(proc: Proc)

  /** The effect an action has on the logs; every other action has none. */
  datatype Effect =
    | Quiet
    | Append(path: Path, line: string)
    | Torn(path: Path, part: string)
    | Cut(path: Path, selector: Selector)
    | Empty(path: Path)

  /** flock on the sidecar file: held exactly in these states. */
  function LockOf(pc: Pc): Option<Path> {
    match pc
    case Locked(p, _) => Some(p)
    case Stale(p, _) => Some(p)
    case Ready(p, _) => Some(p)
    case Rewriting(p, _) => Some(p)
    case Loaded(p, _, _) => Some(p)
    case Staged(p, _, _, _) => Some(p)
    case Removing(p) => Some(p)
    case Released(p) => Some(p)
    case _ => None
  }

  predicate InMutex(pc: Pc) {
    pc.Appending? || pc.Locked? || pc.Stale? || pc.Ready?
  }

  ghost predicate LockFree(s: State, path: Path) {
    forall u :: 0 <= u < |s.threads| ==> LockOf(s.threads[u].pc) != Some(path)
  }

  ghost predicate MutexFree(s: State, proc: Proc) {
    forall u :: 0 <= u < |s.threads| && s.threads[u].proc == proc ==> !InMutex(s.threads[u].pc)
  }

  /** An inode number is allocated only while no name, handle or half-done operation refers to it. */
  ghost predicate Fresh(s: State, i: Inode) {
    && (forall p :: p in s.dir ==> s.dir[p] != i)
    && (forall q :: 0 <= q < |s.handles| && s.handles[q].Open? ==> s.handles[q].inode != i)
    && (forall u :: 0 <= u < |s.threads| ==> !(s.threads[u].pc.Opened? && s.threads[u].pc.inode == i))
    && (forall u :: 0 <= u < |s.threads| ==> !(s.threads[u].pc.Staged? && s.threads[u].pc.temp == i))
  }

  predicate WellFormed(s: State) {
    forall u :: 0 <= u < |s.threads| ==> s.threads[u].proc < |s.handles|
  }

  function PcOf(s: State, t: Tid): Pc
    requires t < |s.threads|
  {
    s.threads[t].pc
  }

  function HandleOf(s: State, t: Tid): Handle
    requires WellFormed(s) && t < |s.threads|
  {
    s.handles[s.threads[t].proc]
  }

  ghost predicate Enabled(s: State, a: Action)
    requires WellFormed(s)
  {
    if a.Crash? then a.proc < |s.handles|
    else
      a.t < |s.threads| &&
      var pc, h := PcOf(s, a.t), HandleOf(s, a.t);
      match a
      case OpenLog(_, p, i) => pc.Idle? && (p in s.dir || Fresh(s, i))
      case InstallLog(t) => pc.Opened? && MutexFree(s, s.threads[t].proc)
      case CloseLog(t) => pc.Idle? && MutexFree(s, s.threads[t].proc)
      case BeginAppend(t, line) => pc.Idle? && h.Open? && IsLine(line) && MutexFree(s, s.threads[t].proc)
      case LockAppend(_) => pc.Appending? && h.Open? && LockFree(s, h.path)
      case StatSame(_) => pc.Locked? && pc.path in s.dir && h == Open(pc.path, s.dir[pc.path])
      case StatOther(_) => pc.Locked?
      case Reopen(_, i) => pc.Stale? && (pc.path in s.dir || Fresh(s, i))
      case Write(_) => pc.Ready? && h.Open? && h.inode in s.files
      case Tear(_, part) => pc.Ready? && h.Open? && h.inode in s.files && part <= pc.line
      case LockRewrite(_, p, _) => pc.Idle? && LockFree(s, p)
      case Load(_) => pc.Rewriting? && pc.path in s.dir && s.dir[pc.path] in s.files
      case Stage(_, i) => pc.Loaded? && Fresh(s, i)
      case Rename(_) => pc.Staged?
      case LockRemove(_, p) => pc.Idle? && LockFree(s, p)
      case Unlink(_) => pc.Removing?
      case Rotate(_, p) => pc.Idle? && p in s.dir
      case Finish(_) => !pc.Idle?
      case Crash(_) => true
  }

  function At(s: State, t: Tid, pc: Pc): (next: State)
    requires t < |s.threads|
    ensures |next.threads| == |s.threads| && (WellFormed(s) ==> WellFormed(next))
  {
    s.(threads := s.threads[t := s.threads[t].(pc := pc)])
  }

  function WithHandle(s: State, t: Tid, h: Handle): (next: State)
    requires WellFormed(s) && t < |s.threads|
    ensures WellFormed(next)
  {
    s.(handles := s.handles[s.threads[t].proc := h])
  }

  /** open(O_CREATE): links a new empty file when the path has none. */
  function Created(s: State, path: Path, spare: Inode): State {
    if path in s.dir then s else s.(dir := s.dir[path := spare], files := s.files[spare := ""])
  }

  /** A log unlinked, whoever uses it. */
  function Rotated(s: State, path: Path): State {
    s.(dir := s.dir - {path})
  }

  ghost function Apply(codec: Codec, s: State, a: Action): (next: State)
    requires WellFormed(s) && Enabled(s, a)
    ensures WellFormed(next) && |next.threads| == |s.threads|
  {
    match a
    case OpenLog(t, p, i) => At(Created(s, p, i), t, Opened(p, if p in s.dir then s.dir[p] else i))
    case InstallLog(t) => At(WithHandle(s, t, Open(PcOf(s, t).path, PcOf(s, t).inode)), t, Idle)
    case CloseLog(t) => WithHandle(s, t, Closed)
    case BeginAppend(t, line) => At(s, t, Appending(line))
    case LockAppend(t) => At(s, t, Locked(HandleOf(s, t).path, PcOf(s, t).line))
    case StatSame(t) => At(s, t, Ready(PcOf(s, t).path, PcOf(s, t).line))
    case StatOther(t) => At(s, t, Stale(PcOf(s, t).path, PcOf(s, t).line))
    case Reopen(t, i) =>
      var p := PcOf(s, t).path;
      At(WithHandle(Created(s, p, i), t, Open(p, if p in s.dir then s.dir[p] else i)), t, Ready(p, PcOf(s, t).line))
    case Write(t) =>
      var i := HandleOf(s, t).inode;
      At(s.(files := s.files[i := s.files[i] + (PcOf(s, t).line + "\n")]), t, Released(PcOf(s, t).path))
    case Tear(t, part) =>
      var i := HandleOf(s, t).inode;
      At(s.(files := s.files[i := s.files[i] + part]), t, Released(PcOf(s, t).path))
    case LockRewrite(t, p, selector) => At(s, t, Rewriting(p, selector))
    case Load(t) => At(s, t, Loaded(PcOf(s, t).path, PcOf(s, t).selector, s.files[s.dir[PcOf(s, t).path]]))
    case Stage(t, i) =>
      var pc := PcOf(s, t);
      At(s.(files := s.files[i := Rewritten(codec, pc.selector, pc.data)]), t, Staged(pc.path, pc.selector, pc.data, i))
    case Rename(t) => At(s.(dir := s.dir[PcOf(s, t).path := PcOf(s, t).temp]), t, Released(PcOf(s, t).path))
    case LockRemove(t, p) => At(s, t, Removing(p))
    case Unlink(t) => At(s.(dir := s.dir - {PcOf(s, t).path}), t, Released(PcOf(s, t).path))
    case Rotate(_, p) => Rotated(s, p)
    case Finish(t) => At(s, t, Idle)
    case Crash(proc) => s.(
      handles := s.handles[proc := Closed],
      threads := seq(|s.threads|, u requires 0 <= u < |s.threads| =>
        if s.threads[u].proc == proc then Thread(proc, Idle) else s.threads[u]))
  }

  ghost function EffectOf(s: State, a: Action): Effect
    requires WellFormed(s) && Enabled(s, a)
  {
    match a
    case Write(t) => Append(PcOf(s, t).path, PcOf(s, t).line)
    case Tear(t, part) => Torn(PcOf(s, t).path, part)
    case Rotate(_, p) => Empty(p)
    case Rename(t) => Cut(PcOf(s, t).path, PcOf(s, t).selector)
    case Unlink(t) => Empty(PcOf(s, t).path)
    case _ => Quiet
  }

  // ------------------------------------------------------------ invariant

  ghost predicate Linked(s: State) {
    && (forall p :: p in s.dir ==> s.dir[p] in s.files)
    && (forall p, q :: p in s.dir && q in s.dir && s.dir[p] == s.dir[q] ==> p == q)
  }

  /** Two threads never hold one sidecar lock, nor the mutex of one process. */
  ghost predicate Apart(s: State, t: Tid, u: Tid)
    requires t < |s.threads| && u < |s.threads|
  {
    var a, b := s.threads[t], s.threads[u];
    && (LockOf(a.pc).Some? ==> LockOf(a.pc) != LockOf(b.pc))
    && (a.proc == b.proc && InMutex(a.pc) ==> !InMutex(b.pc))
  }

  ghost predicate Exclusive(s: State) {
    forall t, u :: 0 <= t < |s.threads| && 0 <= u < |s.threads| && t != u ==> Apart(s, t, u)
  }

  /** The bytes a reader of the path sees. */
  function Content(s: State, path: Path): string {
    if path in s.dir && s.dir[path] in s.files then s.files[s.dir[path]] else ""
  }

  /** What a thread knows about the shared state. What a rewriter has read stays as good as current, because it
      holds the lock: rewriting it gives what rewriting the present bytes would. */
  ghost predicate Knows(codec: Codec, s: State, t: Tid)
    requires WellFormed(s) && t < |s.threads|
  {
    match PcOf(s, t)
    case Appending(line) => HandleOf(s, t).Open? && IsLine(line)
    case Locked(p, line) => HandleOf(s, t).Open? && HandleOf(s, t).path == p && IsLine(line)
    case Stale(p, line) => HandleOf(s, t).Open? && HandleOf(s, t).path == p && IsLine(line)
    case Ready(p, line) => p in s.dir && HandleOf(s, t) == Open(p, s.dir[p]) && IsLine(line)
    case Loaded(p, selector, data) => Rewritten(codec, selector, data) == Rewritten(codec, selector, Content(s, p))
    case Staged(p, selector, data, i) =>
      && Rewritten(codec, selector, data) == Rewritten(codec, selector, Content(s, p))
      && i in s.files && s.files[i] == Rewritten(codec, selector, data)
      && (forall q :: q in s.dir ==> s.dir[q] != i)
      && (forall u :: 0 <= u < |s.threads| && s.threads[u].pc.Staged? && s.threads[u].pc.temp == i ==> u == t)
    case _ => true
  }

  ghost predicate Inv(codec: Codec, s: State) {
    && WellFormed(s) && Linked(s) && Exclusive(s)
    && (forall t :: 0 <= t < |s.threads| ==> Knows(codec, s, t))
  }

  ghost predicate Init(s: State) {
    && WellFormed(s) && s.dir == map[]
    && (forall q :: 0 <= q < |s.handles| ==> s.handles[q].Closed?)
    && (forall u :: 0 <= u < |s.threads| ==> s.threads[u].pc.Idle?)
  }

  // ------------------------------------------------------------ every step keeps it

  lemma KeepsLinked(codec: Codec, s: State, a: Action)
    requires Inv(codec, s) && Enabled(s, a)
    ensures WellFormed(Apply(codec, s, a)) && Linked(Apply(codec, s, a))
  {
    hide Rewritten, IsLine;
    if a.Rename? {
      assert Knows(codec, s, a.t);
    }
  }

  lemma MoverStaysApart(codec: Codec, s: State, a: Action, u: Tid)
    requires Inv(codec, s) && Enabled(s, a) && !a.Crash? && u < |s.threads| && u != a.t
    ensures Apart(Apply(codec, s, a), a.t, u) && Apart(Apply(codec, s, a), u, a.t)
  {
    hide Rewritten, Linked, Fresh, IsLine;
    assert Apart(s, a.t, u) && Apart(s, u, a.t);
    assert Knows(codec, s, a.t);
  }

  lemma KeepsApart(codec: Codec, s: State, a: Action, t: Tid, u: Tid)
    requires Inv(codec, s) && Enabled(s, a) && t < |s.threads| && u < |s.threads| && t != u
    ensures Apart(Apply(codec, s, a), t, u)
  {
    hide Rewritten, Linked, Fresh, IsLine;
    assert Apart(s, t, u);
    if !a.Crash? && t == a.t {
      MoverStaysApart(codec, s, a, u);
    } else if !a.Crash? && u == a.t {
      MoverStaysApart(codec, s, a, t);
    }
  }

  lemma KeepsOwnKnowledge(codec: Codec, s: State, a: Action)
    requires Inv(codec, s) && Enabled(s, a) && !a.Crash?
    ensures WellFormed(Apply(codec, s, a)) && Knows(codec, Apply(codec, s, a), a.t)
  {
    hide Rewritten, IsLine;
    assert Knows(codec, s, a.t);
  }

  /** A thread changes the file linked at a path only while it holds its sidecar lock, short of rotating it away. */
  lemma OnlyTheLockHolderWrites(codec: Codec, s: State, a: Action, path: Path)
    requires Inv(codec, s) && Enabled(s, a) && !a.Crash? && !a.Rotate? && LockOf(PcOf(s, a.t)) != Some(path)
    ensures var next := Apply(codec, s, a);
            && Content(next, path) == Content(s, path)
            && (path in s.dir ==> path in next.dir && next.dir[path] == s.dir[path])
  {
    hide Rewritten, IsLine, Exclusive, LockFree, MutexFree;
    assert Knows(codec, s, a.t);
  }

  /** Nobody else touches the file linked at a path whose sidecar lock a thread holds, short of rotating it away. */
  lemma LockProtectsFile(codec: Codec, s: State, a: Action, u: Tid, path: Path)
    requires Inv(codec, s) && Enabled(s, a) && u < |s.threads| && !a.Crash? && a.t != u
    requires LockOf(PcOf(s, u)) == Some(path) && !a.Rotate?
    ensures var next := Apply(codec, s, a);
            && Content(next, path) == Content(s, path)
            && (path in s.dir ==> path in next.dir && next.dir[path] == s.dir[path])
  {
    hide Linked, Knows, Apply, LockFree, MutexFree, Fresh;
    assert Apart(s, u, a.t);
    OnlyTheLockHolderWrites(codec, s, a, path);
  }

  lemma MutexProtectsHandle(codec: Codec, s: State, a: Action, u: Tid)
    requires Inv(codec, s) && Enabled(s, a) && u < |s.threads| && !a.Crash? && a.t != u
    requires InMutex(PcOf(s, u))
    ensures WellFormed(Apply(codec, s, a)) && HandleOf(Apply(codec, s, a), u) == HandleOf(s, u)
  {
    assert Apart(s, a.t, u);
  }

  lemma StagedFileIsPrivate(codec: Codec, s: State, a: Action, u: Tid)
    requires Inv(codec, s) && Enabled(s, a) && u < |s.threads| && !a.Crash? && a.t != u
    requires PcOf(s, u).Staged?
    ensures var next, i := Apply(codec, s, a), PcOf(s, u).temp;
            && i in next.files && next.files[i] == s.files[i]
            && (forall q :: q in next.dir ==> next.dir[q] != i)
            && (forall v :: 0 <= v < |next.threads| && next.threads[v].pc.Staged? && next.threads[v].pc.temp == i ==> v == u)
  {
    hide Rewritten, IsLine;
    assert Knows(codec, s, u);
    assert Knows(codec, s, a.t);
  }

  lemma KeepsOtherKnowledge(codec: Codec, s: State, a: Action, u: Tid)
    requires Inv(codec, s) && Enabled(s, a) && u < |s.threads| && !a.Crash? && !a.Rotate? && a.t != u
    ensures WellFormed(Apply(codec, s, a)) && Knows(codec, Apply(codec, s, a), u)
  {
    hide Rewritten, IsLine, Apart, Linked, Fresh;
    assert Knows(codec, s, u);
    var pc := PcOf(s, u);
    assert PcOf(Apply(codec, s, a), u) == pc;
    if InMutex(pc) {
      MutexProtectsHandle(codec, s, a, u);
    }
    if pc.Ready? || pc.Loaded? || pc.Staged? {
      LockProtectsFile(codec, s, a, u, pc.path);
    }
    if pc.Staged? {
      StagedFileIsPrivate(codec, s, a, u);
    }
  }

  lemma KeepsKnowledge(codec: Codec, s: State, a: Action, u: Tid)
    requires Inv(codec, s) && Enabled(s, a) && u < |s.threads| && !a.Rotate?
    ensures WellFormed(Apply(codec, s, a)) && Knows(codec, Apply(codec, s, a), u)
  {
    assert Knows(codec, s, u);
    if !a.Crash? {
      if a.t == u {
        KeepsOwnKnowledge(codec, s, a);
      } else {
        KeepsOtherKnowledge(codec, s, a, u);
      }
    }
  }

  /** A thread about to use what it has found at the path: to write to the file, or to bring back what it has read. */
  ghost predicate Using(codec: Codec, pc: Pc, path: Path) {
    match pc
    case Ready(p, _) => p == path
    case Loaded(p, selector, data) => p == path && Rewritten(codec, selector, data) != ""
    case Staged(p, selector, data, _) => p == path && Rewritten(codec, selector, data) != ""
    case _ => false
  }

  lemma NothingToRewrite(codec: Codec, selector: Selector)
    ensures Rewritten(codec, selector, "") == ""
  {
    var none: seq<string> := [];
    RewrittenWhole(codec, selector, none);
    assert Unlines(none) == "" && Kept(codec, selector, none) == [];
  }

  lemma UnusedRotationKeepsInv(codec: Codec, s: State, path: Path)
    requires Inv(codec, s) && forall t :: 0 <= t < |s.threads| ==> !Using(codec, s.threads[t].pc, path)
    ensures Inv(codec, Rotated(s, path))
  {
    hide Rewritten, IsLine, Apart;
    var next := Rotated(s, path);
    forall t | 0 <= t < |s.threads| ensures Knows(codec, next, t) {
      assert Knows(codec, s, t) && !Using(codec, s.threads[t].pc, path);
      if s.threads[t].pc.Loaded? || s.threads[t].pc.Staged? {
        NothingToRewrite(codec, s.threads[t].pc.selector);
      }
    }
    forall t, u | 0 <= t < |s.threads| && 0 <= u < |s.threads| && t != u ensures Apart(next, t, u) {
      SameThreadsApart(s, next, t, u);
    }
  }

  lemma SameThreadsApart(s: State, next: State, t: Tid, u: Tid)
    requires next.threads == s.threads && t < |s.threads| && u < |s.threads| && Exclusive(s) && t != u
    ensures Apart(next, t, u)
  {
    assert Apart(s, t, u);
  }

  /** A step that rotates no log from under a thread that is using it. */
  ghost predicate Harmless(codec: Codec, s: State, a: Action) {
    a.Rotate? ==> forall t :: 0 <= t < |s.threads| ==> !Using(codec, s.threads[t].pc, a.path)
  }

  lemma StepKeepsInv(codec: Codec, s: State, a: Action)
    requires Inv(codec, s) && Enabled(s, a) && Harmless(codec, s, a)
    ensures Inv(codec, Apply(codec, s, a))
  {
    hide Knows, Apart, Linked, Using;
    if a.Rotate? {
      UnusedRotationKeepsInv(codec, s, a.path);
      return;
    }
    KeepsLinked(codec, s, a);
    forall t, u | 0 <= t < |s.threads| && 0 <= u < |s.threads| && t != u
      ensures Apart(Apply(codec, s, a), t, u)
    {
      KeepsApart(codec, s, a, t, u);
    }
    forall u | 0 <= u < |s.threads| ensures Knows(codec, Apply(codec, s, a), u) {
      KeepsKnowledge(codec, s, a, u);
    }
  }

  // ------------------------------------------------------------ refinement

  /** The abstract log: one atomic operation on bytes. */
  function Log(codec: Codec, log: string, e: Effect, path: Path): string {
    match e
    case Append(p, line) => if p == path then log + (line + "\n") else log
    case Torn(p, part) => if p == path then log + part else log
    case Cut(p, selector) => if p == path then Rewritten(codec, selector, log) else log
    case Empty(p) => if p == path then "" else log
    case Quiet => log
  }

  lemma WriteRefinesLog(codec: Codec, s: State, a: Action, path: Path)
    requires Inv(codec, s) && Enabled(s, a) && (a.Write? || a.Tear?)
    ensures Content(Apply(codec, s, a), path) == Log(codec, Content(s, path), EffectOf(s, a), path)
  {
    hide Rewritten, IsLine, Apart;
    assert Knows(codec, s, a.t);
  }

  /** Every system call of every process is one abstract operation on every log, or invisible. */
  lemma StepRefinesLog(codec: Codec, s: State, a: Action, path: Path)
    requires Inv(codec, s) && Enabled(s, a)
    ensures Content(Apply(codec, s, a), path) == Log(codec, Content(s, path), EffectOf(s, a), path)
  {
    hide Rewritten, IsLine, Apart, Exclusive;
    if a.Write? || a.Tear? {
      WriteRefinesLog(codec, s, a, path);
    } else if a.Rename? {
      assert Knows(codec, s, a.t);
    }
  }

  /** An acknowledged append never lands in an unlinked file. */
  lemma WritesReachTheLinkedFile(codec: Codec, s: State, t: Tid)
    requires Inv(codec, s) && t < |s.threads| && Enabled(s, Write(t))
    ensures var path := PcOf(s, t).path;
            path in s.dir && HandleOf(s, t) == Open(path, s.dir[path])
  {
    assert Knows(codec, s, t);
  }

  // ------------------------------------------------------------ whole runs

  /** Any steps of any processes, except that no log is rotated while a thread is using it. */
  ghost predicate Runs(codec: Codec, s: State, actions: seq<Action>)
    requires WellFormed(s)
    decreases |actions|
  {
    |actions| == 0 ||
    (Enabled(s, actions[0]) && Harmless(codec, s, actions[0]) && Runs(codec, Apply(codec, s, actions[0]), actions[1..]))
  }

  ghost function Final(codec: Codec, s: State, actions: seq<Action>): State
    requires WellFormed(s) && Runs(codec, s, actions)
    decreases |actions|
  {
    if |actions| == 0 then s else Final(codec, Apply(codec, s, actions[0]), actions[1..])
  }

  ghost function Effects(codec: Codec, s: State, actions: seq<Action>): seq<Effect>
    requires WellFormed(s) && Runs(codec, s, actions)
    decreases |actions|
  {
    if |actions| == 0 then []
    else [EffectOf(s, actions[0])] + Effects(codec, Apply(codec, s, actions[0]), actions[1..])
  }

  function LogAfter(codec: Codec, log: string, effects: seq<Effect>, path: Path): string
    decreases |effects|
  {
    if |effects| == 0 then log else LogAfter(codec, Log(codec, log, effects[0], path), effects[1..], path)
  }

  /** The file at a path is the abstract log of that path after the effects of the run so far. */
  lemma {:induction false} RunRefinesLog(codec: Codec, s: State, actions: seq<Action>, path: Path)
    requires Inv(codec, s) && Runs(codec, s, actions)
    ensures Inv(codec, Final(codec, s, actions))
    ensures Content(Final(codec, s, actions), path)
            == LogAfter(codec, Content(s, path), Effects(codec, s, actions), path)
    decreases |actions|
  {
    if |actions| > 0 {
      StepKeepsInv(codec, s, actions[0]);
      StepRefinesLog(codec, s, actions[0], path);
      RunRefinesLog(codec, Apply(codec, s, actions[0]), actions[1..], path);
    }
  }

  lemma NoSteps(codec: Codec, s: State)
    requires WellFormed(s)
    ensures Runs(codec, s, []) && Final(codec, s, []) == s
  {
  }

  lemma Prepend(codec: Codec, s: State, a: Action, rest: seq<Action>, actions: seq<Action>)
    requires WellFormed(s) && Enabled(s, a) && Harmless(codec, s, a) && Runs(codec, Apply(codec, s, a), rest)
    requires actions == [a] + rest
    ensures Runs(codec, s, actions) && Final(codec, s, actions) == Final(codec, Apply(codec, s, a), rest)
  {
    hide Apply, Enabled, Harmless;
    assert actions[0] == a && actions[1..] == rest;
  }

  /** The lock and the mutex a thread drops are free for its next append. */
  lemma ReleasedIsFree(s: State, t: Tid, next: State)
    requires WellFormed(s) && Exclusive(s) && t < |s.threads| && PcOf(s, t).Ready?
    requires next.threads == s.threads[t := Thread(s.threads[t].proc, Idle)]
    ensures MutexFree(next, s.threads[t].proc) && LockFree(next, PcOf(s, t).path)
  {
    forall u | 0 <= u < |s.threads|
      ensures LockOf(next.threads[u].pc) != Some(PcOf(s, t).path)
      ensures next.threads[u].proc == s.threads[t].proc ==> !InMutex(next.threads[u].pc)
    {
      assert u != t ==> Apart(s, t, u);
    }
  }

  /** The steps of an append that finds its own file at the path. */
  function AppendSteps(t: Tid, line: string): seq<Action> {
    [BeginAppend(t, line), LockAppend(t), StatSame(t), Write(t)]
  }

  lemma AppendRuns(codec: Codec, s: State, t: Tid, path: Path, line: string)
    requires WellFormed(s) && t < |s.threads| && PcOf(s, t).Idle? && IsLine(line)
    requires path in s.dir && HandleOf(s, t) == Open(path, s.dir[path]) && s.dir[path] in s.files
    requires MutexFree(s, s.threads[t].proc) && LockFree(s, path)
    ensures Runs(codec, s, AppendSteps(t, line))
    ensures Content(Final(codec, s, AppendSteps(t, line)), path) == Content(s, path) + (line + "\n")
  {
    hide IsLine, Runs, Final;
    var s1 := Apply(codec, s, BeginAppend(t, line));
    var s2 := Apply(codec, s1, LockAppend(t));
    var s3 := Apply(codec, s2, StatSame(t));
    var s4 := Apply(codec, s3, Write(t));
    assert Content(s4, path) == Content(s, path) + (line + "\n");
    NoSteps(codec, s4);
    Prepend(codec, s3, Write(t), [], [Write(t)]);
    Prepend(codec, s2, StatSame(t), [Write(t)], [StatSame(t), Write(t)]);
    Prepend(codec, s1, LockAppend(t), [StatSame(t), Write(t)], [LockAppend(t), StatSame(t), Write(t)]);
    Prepend(codec, s, BeginAppend(t, line), [LockAppend(t), StatSame(t), Write(t)], AppendSteps(t, line));
  }

  /** A write that stops partway, and the next append of the same thread. */
  function TearAndAppend(t: Tid, part: string, line: string): seq<Action> {
    [Tear(t, part), Finish(t)] + AppendSteps(t, line)
  }

  /** The next append after a torn write lands right behind the torn bytes: no step checks that the log ends in a
      newline. */
  lemma TearThenAppend(codec: Codec, s: State, t: Tid, part: string, line: string)
    requires Inv(codec, s) && t < |s.threads| && PcOf(s, t).Ready? && part <= PcOf(s, t).line && IsLine(line)
    ensures Runs(codec, s, TearAndAppend(t, part, line))
    ensures var path := PcOf(s, t).path;
            Content(Final(codec, s, TearAndAppend(t, part, line)), path) == Content(s, path) + part + (line + "\n")
  {
    hide Rewritten, IsLine, Runs, Final, AppendSteps, Apart;
    assert Knows(codec, s, t);
    var path := PcOf(s, t).path;
    var s1 := Apply(codec, s, Tear(t, part));
    var s2 := Apply(codec, s1, Finish(t));
    assert s2.threads == s.threads[t := Thread(s.threads[t].proc, Idle)];
    ReleasedIsFree(s, t, s2);
    assert Content(s2, path) == Content(s, path) + part;
    AppendRuns(codec, s2, t, path, line);
    var steps := AppendSteps(t, line);
    Prepend(codec, s1, Finish(t), steps, [Finish(t)] + steps);
    Prepend(codec, s, Tear(t, part), [Finish(t)] + steps, TearAndAppend(t, part, line));
  }

  lemma InitHolds(codec: Codec, s: State)
    requires Init(s)
    ensures Inv(codec, s)
  {
  }

  // ------------------------------------------------------------ the unlocked rotation

  /** From this state on, the run does to the log of a path what its effects do. */
  ghost predicate Refines(codec: Codec, s: State, actions: seq<Action>, path: Path)
    requires WellFormed(s)
  {
    Runs(codec, s, actions) ==>
      Content(Final(codec, s, actions), path) == LogAfter(codec, Content(s, path), Effects(codec, s, actions), path)
  }

  ghost predicate AllRunsRefine(codec: Codec, s: State)
    requires WellFormed(s)
  {
    forall actions: seq<Action>, path: Path :: Refines(codec, s, actions, path)
  }

  lemma OneStep(codec: Codec, s: State, a: Action)
    requires WellFormed(s) && Enabled(s, a) && Harmless(codec, s, a)
    ensures Runs(codec, s, [a]) && Final(codec, s, [a]) == Apply(codec, s, a)
    ensures Effects(codec, s, [a]) == [EffectOf(s, a)]
  {
    hide Apply, EffectOf, Enabled, Harmless;
    var next := Apply(codec, s, a);
    assert [a][1..] == [];
    assert Runs(codec, next, []) && Final(codec, next, []) == next && Effects(codec, next, []) == [];
  }

  lemma OneEffect(codec: Codec, log: string, e: Effect, path: Path)
    ensures LogAfter(codec, log, [e], path) == Log(codec, log, e, path)
  {
    assert [e][1..] == [];
  }

  /** The append that was about to be written is acknowledged and lost. */
  lemma RotationLosesAnAppend(codec: Codec, s: State, path: Path, t: Tid)
    requires Inv(codec, s) && t < |s.threads| && PcOf(s, t).Ready? && PcOf(s, t).path == path
    ensures var next := Rotated(s, path);
            && Enabled(next, Write(t)) && EffectOf(next, Write(t)) == Append(path, PcOf(s, t).line)
            && path !in next.dir && Content(Apply(codec, next, Write(t)), path) == ""
    ensures !Refines(codec, Rotated(s, path), [Write(t)], path)
  {
    hide Rewritten, IsLine, Apart;
    assert Knows(codec, s, t);
    var next := Rotated(s, path);
    var line := PcOf(s, t).line;
    OneStep(codec, next, Write(t));
    OneEffect(codec, "", Append(path, line), path);
    assert |"" + (line + "\n")| > 0;
  }

  /** The rewrite that was about to be renamed brings the rotated lines back. */
  lemma RotationIsUndone(codec: Codec, s: State, path: Path, t: Tid)
    requires WellFormed(s) && path !in s.dir && t < |s.threads| && PcOf(s, t).Staged? && PcOf(s, t).path == path
    requires var pc := PcOf(s, t);
             pc.temp in s.files && s.files[pc.temp] == Rewritten(codec, pc.selector, pc.data) && s.files[pc.temp] != ""
    ensures Enabled(s, Rename(t)) && EffectOf(s, Rename(t)) == Cut(path, PcOf(s, t).selector)
    ensures Content(s, path) == "" && Content(Apply(codec, s, Rename(t)), path) == s.files[PcOf(s, t).temp]
    ensures !Refines(codec, s, [Rename(t)], path)
  {
    hide Rewritten;
    var selector := PcOf(s, t).selector;
    OneStep(codec, s, Rename(t));
    OneEffect(codec, "", Cut(path, selector), path);
    NothingToRewrite(codec, selector);
  }

  lemma {:induction false} SomeBound(used: set<nat>) returns (bound: nat)
    ensures forall i :: i in used ==> i < bound
    decreases |used|
  {
    if used == {} {
      bound := 0;
    } else {
      var i :| i in used;
      var rest := SomeBound(used - {i});
      bound := if rest <= i then i + 1 else rest;
      forall j | j in used ensures j < bound {
        assert j == i || j in used - {i};
      }
    }
  }

  lemma SomeFresh(s: State) returns (i: Inode)
    ensures Fresh(s, i)
  {
    var linked := set p | p in s.dir :: s.dir[p];
    var held := set q | 0 <= q < |s.handles| && s.handles[q].Open? :: s.handles[q].inode;
    var pending := set u | 0 <= u < |s.threads| && s.threads[u].pc.Opened? :: s.threads[u].pc.inode;
    var staged := set u | 0 <= u < |s.threads| && s.threads[u].pc.Staged? :: s.threads[u].pc.temp;
    var used := linked + held + pending + staged;
    i := SomeBound(used);
    assert i !in used;
    assert forall p :: p in s.dir ==> s.dir[p] in linked;
    assert forall q :: 0 <= q < |s.handles| && s.handles[q].Open? ==> s.handles[q].inode in held;
    assert forall u :: 0 <= u < |s.threads| && s.threads[u].pc.Opened? ==> s.threads[u].pc.inode in pending;
    assert forall u :: 0 <= u < |s.threads| && s.threads[u].pc.Staged? ==> s.threads[u].pc.temp in staged;
  }

  /** The same for a rewrite that has only read the log yet. */
  lemma RotationIsUndoneLater(codec: Codec, s: State, path: Path, t: Tid) returns (actions: seq<Action>)
    requires WellFormed(s) && path !in s.dir && t < |s.threads| && PcOf(s, t).Loaded? && PcOf(s, t).path == path
    requires Rewritten(codec, PcOf(s, t).selector, PcOf(s, t).data) != ""
    ensures !Refines(codec, s, actions, path)
  {
    hide Rewritten;
    var i := SomeFresh(s);
    var next := Apply(codec, s, Stage(t, i));
    actions := [Stage(t, i), Rename(t)];
    assert actions[1..] == [Rename(t)];
    RotationIsUndone(codec, next, path, t);
    assert Content(s, path) == "" && EffectOf(s, Stage(t, i)) == Quiet;
    assert Runs(codec, next, [Rename(t)]) && Runs(codec, s, actions);
    assert Effects(codec, s, actions) == [Quiet] + Effects(codec, next, [Rename(t)]);
    QuietFirst(codec, "", Effects(codec, next, [Rename(t)]), path);
  }

  lemma QuietFirst(codec: Codec, log: string, effects: seq<Effect>, path: Path)
    ensures LogAfter(codec, log, [Quiet] + effects, path) == LogAfter(codec, log, effects, path)
  {
    assert ([Quiet] + effects)[1..] == effects;
  }

  lemma UsedRotationBreaks(codec: Codec, s: State, path: Path, t: Tid)
    requires Inv(codec, s) && t < |s.threads| && Using(codec, PcOf(s, t), path)
    ensures !AllRunsRefine(codec, Rotated(s, path))
  {
    hide Rewritten, Runs, Final, Effects, LogAfter, Refines;
    assert Knows(codec, s, t);
    var next := Rotated(s, path);
    match PcOf(s, t) {
      case Ready(_, _) =>
        RotationLosesAnAppend(codec, s, path, t);
      case Staged(_, _, _, _) =>
        RotationIsUndone(codec, next, path, t);
      case Loaded(_, _, _) =>
        var actions := RotationIsUndoneLater(codec, next, path, t);
      case _ =>
    }
  }

  /** After a rotation every later run is still one on abstract logs exactly when, at the rotation, no thread was
      between finding the file and writing to it, and none was rewriting it into something. */
  lemma RotationIsSafeExactlyWhenUnused(codec: Codec, s: State, path: Path)
    requires Inv(codec, s)
    ensures AllRunsRefine(codec, Rotated(s, path))
            <==> forall t :: 0 <= t < |s.threads| ==> !Using(codec, s.threads[t].pc, path)
  {
    hide Linked, Exclusive, Knows, Using;
    if forall t :: 0 <= t < |s.threads| ==> !Using(codec, s.threads[t].pc, path) {
      UnusedRotationKeepsInv(codec, s, path);
      forall actions: seq<Action>, q: Path ensures Refines(codec, Rotated(s, path), actions, q) {
        if Runs(codec, Rotated(s, path), actions) {
          RunRefinesLog(codec, Rotated(s, path), actions, q);
        }
      }
    } else {
      var t :| 0 <= t < |s.threads| && Using(codec, s.threads[t].pc, path);
      UsedRotationBreaks(codec, s, path, t);
    }
  }
}
