/** Replacing the running executable: a file system whose calls may fail and whose power may go. */
module BinaryReplace {
  import opened ReleaseArchive

  type Path = string
  type Inode = nat

  /** `versions` are the directory states the disk may hold after a power loss: every one since the
      last directory sync. The bytes of an inode survive one only after a file sync. */
  datatype Disk = Disk(
    names: map<Path, Inode>, data: map<Inode, Bytes>, synced: set<Inode>,
    versions: set<map<Path, Inode>>, next: Inode)
  {
    ghost predicate Valid() {
      && names in versions
      && (forall v, p :: v in versions && p in v ==> v[p] in data)
      && (forall i :: i in data ==> i < next)
    }

    predicate Exists(p: Path) {
      p in names && names[p] in data
    }

    function Content(p: Path): Bytes {
      if Exists(p) then data[names[p]] else ""
    }

    function WithNames(n: map<Path, Inode>): Disk {
      this.(names := n, versions := versions + {n})
    }

    function Create(p: Path): Disk {
      this.(data := data[next := ""], next := next + 1).WithNames(names[p := next])
    }

    function Append(p: Path, bytes: Bytes): Disk
      requires Exists(p)
    {
      this.(data := data[names[p] := data[names[p]] + bytes], synced := synced - {names[p]})
    }

    function Sync(p: Path): Disk
      requires Exists(p)
    {
      this.(synced := synced + {names[p]})
    }

    function Rename(from: Path, to: Path): Disk
      requires Exists(from)
    {
      WithNames((names - {from})[to := names[from]])
    }

    function Remove(p: Path): Disk {
      WithNames(names - {p})
    }

    function SyncDir(): Disk {
      this.(versions := {names})
    }

    /** Whole bytes from `allowed` are at the path, now and after a power loss at this point. */
    ghost predicate Holds(p: Path, allowed: set<Bytes>) {
      && Exists(p) && Content(p) in allowed
      && forall v :: v in versions ==> p in v && v[p] in data && v[p] in synced && data[v[p]] in allowed
    }
  }

  /** The calls the replacement makes. Each consults the next entry of a fault schedule: a failing call
      changes nothing, except that a failing write may leave any prefix. */
  class FileSystem {
    var disk: Disk
    var calls: nat
    const fails: nat -> bool
    const written: nat -> nat
    ghost var history: seq<Disk>

    constructor (disk: Disk, fails: nat -> bool, written: nat -> nat)
      ensures this.disk == disk && this.fails == fails && this.written == written
      ensures calls == 0 && history == [disk]
    {
      this.disk := disk;
      this.fails := fails;
      this.written := written;
      this.calls := 0;
      this.history := [disk];
    }

    method Settle(next: Disk) returns (ok: bool)
      modifies this
      ensures ok == !fails(old(calls)) && calls == old(calls) + 1
      ensures disk == (if ok then next else old(disk)) && history == old(history) + [disk]
    {
      ok := !fails(calls);
      calls := calls + 1;
      if ok {
        disk := next;
      }
      history := history + [disk];
    }

    method CreateTemp(p: Path) returns (ok: bool)
      modifies this
      ensures ok == !fails(old(calls)) && calls == old(calls) + 1
      ensures disk == (if ok then old(disk).Create(p) else old(disk)) && history == old(history) + [disk]
    {
      ok := Settle(disk.Create(p));
    }

    /** Chmod and Close: no effect on names or bytes. */
    method Touch() returns (ok: bool)
      modifies this
      ensures ok == !fails(old(calls)) && calls == old(calls) + 1
      ensures disk == old(disk) && history == old(history) + [disk]
    {
      ok := Settle(disk);
    }

    method Write(p: Path, bytes: Bytes) returns (ok: bool)
      requires disk.Exists(p)
      modifies this
      ensures ok == !fails(old(calls)) && calls == old(calls) + 1
      ensures history == old(history) + [disk]
      ensures exists part: Bytes :: part <= bytes && (ok ==> part == bytes) && disk == old(disk).Append(p, part)
    {
      ok := !fails(calls);
      var part := if ok || written(calls) >= |bytes| then bytes else bytes[..written(calls)];
      calls := calls + 1;
      disk := disk.Append(p, part);
      history := history + [disk];
    }

    method Sync(p: Path) returns (ok: bool)
      requires disk.Exists(p)
      modifies this
      ensures ok == !fails(old(calls)) && calls == old(calls) + 1
      ensures disk == (if ok then old(disk).Sync(p) else old(disk)) && history == old(history) + [disk]
    {
      ok := Settle(disk.Sync(p));
    }

    method Rename(from: Path, to: Path) returns (ok: bool)
      requires disk.Exists(from)
      modifies this
      ensures ok == !fails(old(calls)) && calls == old(calls) + 1
      ensures disk == (if ok then old(disk).Rename(from, to) else old(disk)) && history == old(history) + [disk]
    {
      ok := Settle(disk.Rename(from, to));
    }

    method Remove(p: Path) returns (ok: bool)
      modifies this
      ensures ok == !fails(old(calls)) && calls == old(calls) + 1
      ensures disk == (if ok then old(disk).Remove(p) else old(disk)) && history == old(history) + [disk]
    {
      ok := Settle(disk.Remove(p));
    }

    method SyncDir() returns (ok: bool)
      modifies this
      ensures ok == !fails(old(calls)) && calls == old(calls) + 1
      ensures disk == (if ok then old(disk).SyncDir() else old(disk)) && history == old(history) + [disk]
    {
      ok := Settle(disk.SyncDir());
    }
  }

  /** Where atomicReplaceDoctorExecutable returns. */
  datatype Outcome =
    | Installed
    | NotStarted          // backup creation, chmod, write, sync or close failed, or the first rename
    | RolledBack          // the directory sync failed and the original was renamed back
    | RollbackFailed
    | BackupLeft          // the backup could not be removed
    | Unsettled           // the last directory sync failed

  ghost predicate AlwaysHeld(history: seq<Disk>, from: nat, p: Path, allowed: set<Bytes>) {
    forall k :: from <= k < |history| ==> history[k].Holds(p, allowed)
  }

  /** What a caller must have: a stable target, and a whole synced candidate under another name. */
  ghost predicate Ready(d: Disk, current: Path, candidate: Path, backup: Path) {
    && d.Valid() && d.Holds(current, {d.Content(current)})
    && d.Exists(candidate) && candidate != current && d.names[candidate] in d.synced
    && d.names[candidate] != d.names[current]
    && backup != current && backup != candidate
  }

  /** The inode of `other` is not the target in any version of the directory. */
  ghost predicate Private(d: Disk, other: Path, current: Path) {
    other in d.names && forall v :: v in d.versions && current in v ==> v[current] != d.names[other]
  }

  lemma CreateHolds(d: Disk, temp: Path, current: Path, allowed: set<Bytes>)
    requires d.Valid() && d.Holds(current, allowed) && temp != current
    ensures var next := d.Create(temp);
            next.Valid() && next.Holds(current, allowed) && Private(next, temp, current) && next.Content(temp) == ""
  {
  }

  lemma AppendHolds(d: Disk, temp: Path, bytes: Bytes, current: Path, allowed: set<Bytes>)
    requires d.Valid() && d.Exists(temp) && d.Holds(current, allowed) && Private(d, temp, current)
    ensures d.Append(temp, bytes).Valid() && d.Append(temp, bytes).Holds(current, allowed)
    ensures Private(d.Append(temp, bytes), temp, current)
  {
  }

  lemma SyncHolds(d: Disk, temp: Path, current: Path, allowed: set<Bytes>)
    requires d.Valid() && d.Exists(temp) && d.Holds(current, allowed)
    ensures d.Sync(temp).Valid() && d.Sync(temp).Holds(current, allowed)
  {
  }

  lemma RenameHolds(d: Disk, from: Path, current: Path, allowed: set<Bytes>)
    requires d.Valid() && d.Exists(from) && d.names[from] in d.synced && from != current
    requires d.Holds(current, allowed) && d.Content(from) in allowed
    ensures var next := d.Rename(from, current);
            next.Valid() && next.Holds(current, allowed) && next.Content(current) == d.Content(from) && !next.Exists(from)
  {
  }

  lemma RemoveHolds(d: Disk, other: Path, current: Path, allowed: set<Bytes>)
    requires d.Valid() && d.Holds(current, allowed) && other != current
    ensures var next := d.Remove(other);
            next.Valid() && next.Holds(current, allowed) && next.Content(current) == d.Content(current) && !next.Exists(other)
  {
  }

  lemma SyncDirHolds(d: Disk, current: Path, allowed: set<Bytes>)
    requires d.Valid() && d.Holds(current, allowed)
    ensures d.SyncDir().Valid() && d.SyncDir().Holds(current, {d.Content(current)})
  {
    assert d.names in d.versions;
  }

  /** The outcome as the fault schedule decides it. */
  function Fate(fails: nat -> bool, first: nat): Outcome {
    if fails(first) || fails(first + 1) || fails(first + 2) || fails(first + 3) || fails(first + 4) || fails(first + 5)
    then NotStarted
    else if fails(first + 6) then (if fails(first + 7) then RollbackFailed else RolledBack)
    else if fails(first + 7) then BackupLeft
    else if fails(first + 8) then Unsettled
    else Installed
  }

  lemma FateTells(fails: nat -> bool, first: nat)
    ensures Fate(fails, first).Installed? <==> forall k: nat :: first <= k < first + 9 ==> !fails(k)
    ensures Fate(fails, first).NotStarted? <==> exists k: nat :: first <= k < first + 6 && fails(k)
  {
  }

  /** What each outcome leaves, with the bytes found, the candidate and the bytes to roll back to. */
  ghost predicate Left(outcome: Outcome, d: Disk, current: Path, candidate: Path, backup: Path,
                       found: Bytes, wanted: Bytes, original: Bytes) {
    match outcome
    case Installed => d.Holds(current, {wanted}) && !d.Exists(backup) && !d.Exists(candidate)
    case NotStarted => d.Holds(current, {found}) && d.Exists(candidate)
    case RolledBack => d.Content(current) == original && !d.Exists(backup)
    case RollbackFailed => d.Content(current) == wanted
    case BackupLeft => d.Content(current) == wanted
    case Unsettled => d.Content(current) == wanted && !d.Exists(backup)
  }

  /** The candidate file, whole and synced under its own name. */
  ghost predicate Waiting(d: Disk, candidate: Path, wanted: Bytes) {
    d.Exists(candidate) && d.Content(candidate) == wanted && d.names[candidate] in d.synced
  }

  /** Since `from` the target held allowed bytes at every point, and still does. */
  ghost predicate Kept(fs: FileSystem, before: seq<Disk>, current: Path, allowed: set<Bytes>)
    reads fs
  {
    KeptSoFar(fs.history, before, current, allowed) && fs.disk.Valid() && fs.disk.Holds(current, allowed)
  }

  ghost predicate KeptSoFar(history: seq<Disk>, before: seq<Disk>, current: Path, allowed: set<Bytes>) {
    && |before| <= |history| && history[..|before|] == before
    && AlwaysHeld(history, |before|, current, allowed)
  }

  /** Every name but the new file's is as it was, and so are its bytes. */
  ghost predicate OthersKept(before: Disk, after: Disk, temp: Path) {
    && (forall p :: p in before.names && p != temp ==> p in after.names && after.names[p] == before.names[p])
    && (forall i :: i in before.data ==> i in after.data && after.data[i] == before.data[i])
    && (forall i :: i in before.data && i in before.synced ==> i in after.synced)
  }

  /** A new empty file of our own, still private to its name. */
  ghost predicate NewFile(before: Disk, d: Disk, temp: Path, current: Path) {
    && d.Valid() && d.Exists(temp) && d.Content(temp) == "" && Private(d, temp, current)
    && d.names[temp] !in before.data && OthersKept(before, d, temp)
  }

  lemma CreateIsNew(d: Disk, temp: Path, current: Path, allowed: set<Bytes>)
    requires d.Valid() && d.Holds(current, allowed) && temp != current
    ensures NewFile(d, d.Create(temp), temp, current) && d.Create(temp).Holds(current, allowed)
  {
    CreateHolds(d, temp, current, allowed);
  }

  lemma AppendKeepsOthers(before: Disk, d: Disk, temp: Path, current: Path, bytes: Bytes, allowed: set<Bytes>)
    requires NewFile(before, d, temp, current) && d.Holds(current, allowed)
    ensures var next := d.Append(temp, bytes);
            && next.Valid() && next.Holds(current, allowed) && next.Content(temp) == bytes
            && next.names == d.names && next.names[temp] !in before.data
            && OthersKept(before, next, temp)
  {
    AppendHolds(d, temp, bytes, current, allowed);
    assert "" + bytes == bytes;
  }

  lemma SyncKeepsOthers(before: Disk, d: Disk, temp: Path, current: Path, allowed: set<Bytes>)
    requires d.Valid() && d.Exists(temp) && d.Holds(current, allowed) && OthersKept(before, d, temp)
    ensures var next := d.Sync(temp);
            && next.Valid() && next.Holds(current, allowed) && OthersKept(before, next, temp)
            && Waiting(next, temp, d.Content(temp)) && next.names == d.names
  {
    SyncHolds(d, temp, current, allowed);
  }

  /** Creating, chmodding, writing, syncing and closing a file all succeed. */
  predicate StagingWorks(fails: nat -> bool, first: nat) {
    !fails(first) && !fails(first + 1) && !fails(first + 2) && !fails(first + 3) && !fails(first + 4)
  }

  lemma StagingTells(fails: nat -> bool, first: nat)
    ensures StagingWorks(fails, first) <==> forall k: nat :: first <= k < first + 5 ==> !fails(k)
  {
  }

  /** The last three calls, on a file just created. */
  method Fill(fs: FileSystem, current: Path, temp: Path, bytes: Bytes, ghost before: Disk, ghost allowed: set<Bytes>)
    returns (ok: bool)
    requires NewFile(before, fs.disk, temp, current) && fs.disk.Holds(current, allowed)
    modifies fs
    ensures ok <==> !fs.fails(old(fs.calls)) && !fs.fails(old(fs.calls) + 1) && !fs.fails(old(fs.calls) + 2)
    ensures ok ==> fs.calls == old(fs.calls) + 3
    ensures Kept(fs, old(fs.history), current, allowed)
    ensures OthersKept(before, fs.disk, temp) && fs.disk.names == old(fs.disk.names)
    ensures ok ==> Waiting(fs.disk, temp, bytes)
  {
    hide NewFile, OthersKept, Waiting;
    assert fs.disk.Exists(temp) by { NewFileExists(before, fs.disk, temp, current); }
    ghost var d := fs.disk;
    ok := fs.Write(temp, bytes);
    ghost var part: Bytes :| part <= bytes && (ok ==> part == bytes) && fs.disk == d.Append(temp, part);
    AppendKeepsOthers(before, d, temp, current, part, allowed);
    if !ok { return; }
    SyncKeepsOthers(before, fs.disk, temp, current, allowed);
    ok := fs.Sync(temp);
    if !ok { return; }
    ok := fs.Touch();
  }

  lemma NewFileExists(before: Disk, d: Disk, temp: Path, current: Path)
    requires NewFile(before, d, temp, current)
    ensures d.Exists(temp) && OthersKept(before, d, temp) && d.names[temp] !in before.data
  {
  }

  /** A file written beside the target, whole and synced, up to its close. */
  method WriteBeside(fs: FileSystem, current: Path, temp: Path, bytes: Bytes) returns (ok: bool, created: bool)
    requires fs.disk.Valid() && fs.disk.Holds(current, {fs.disk.Content(current)}) && temp != current
    modifies fs
    ensures ok <==> StagingWorks(fs.fails, old(fs.calls))
    ensures ok ==> fs.calls == old(fs.calls) + 5 && created
    ensures !created ==> fs.calls == old(fs.calls) + 1 && fs.fails(old(fs.calls))
    ensures Kept(fs, old(fs.history), current, {old(fs.disk.Content(current))})
    ensures OthersKept(old(fs.disk), fs.disk, temp)
    ensures ok ==> Waiting(fs.disk, temp, bytes) && fs.disk.names[temp] !in old(fs.disk.data)
  {
    hide NewFile, OthersKept;
    ghost var before, allowed := fs.disk, {fs.disk.Content(current)};
    OthersKeptAtFirst(before, temp);
    CreateIsNew(fs.disk, temp, current, allowed);
    created := fs.CreateTemp(temp);
    ok := created;
    if !ok { return; }
    NewFileExists(before, fs.disk, temp, current);
    ok := fs.Touch();
    if !ok { return; }
    ghost var middle := fs.history;
    ok := Fill(fs, current, temp, bytes, before, allowed);
    KeptTwice(fs, middle, old(fs.history), current, allowed, allowed);
  }

  lemma OthersKeptAtFirst(d: Disk, temp: Path)
    ensures OthersKept(d, d, temp)
  {
  }

  /** The backup file up to and including its close. */
  method Stage(fs: FileSystem, current: Path, candidate: Path, backup: Path, original: Bytes)
    returns (ok: bool, created: bool)
    requires Ready(fs.disk, current, candidate, backup)
    modifies fs
    ensures ok <==> StagingWorks(fs.fails, old(fs.calls))
    ensures ok ==> fs.calls == old(fs.calls) + 5 && created
    ensures !created ==> fs.calls == old(fs.calls) + 1 && fs.fails(old(fs.calls))
    ensures Kept(fs, old(fs.history), current, {old(fs.disk.Content(current))})
    ensures Waiting(fs.disk, candidate, old(fs.disk.Content(candidate)))
    ensures ok ==> Waiting(fs.disk, backup, original) && fs.disk.names[backup] != fs.disk.names[candidate]
  {
    hide StagingWorks, Kept;
    ok, created := WriteBeside(fs, current, backup, original);
  }

  /** The deferred cleanup: close again, and remove the backup while it is still ours; errors are ignored. */
  method Cleanup(fs: FileSystem, current: Path, backup: Path, present: bool, ghost allowed: set<Bytes>)
    requires fs.disk.Valid() && fs.disk.Holds(current, allowed) && backup != current
    modifies fs
    ensures Kept(fs, old(fs.history), current, allowed)
    ensures fs.disk.Content(current) == old(fs.disk.Content(current))
    ensures fs.calls == old(fs.calls) + if present then 2 else 1
    ensures fs.disk == if present && !fs.fails(old(fs.calls) + 1) then old(fs.disk).Remove(backup) else old(fs.disk)
  {
    RemoveHolds(fs.disk, backup, current, allowed);
    var ok := fs.Touch();
    if present {
      ok := fs.Remove(backup);
    }
  }

  lemma KeptTwice(fs: FileSystem, middle: seq<Disk>, before: seq<Disk>, current: Path, first: set<Bytes>, allowed: set<Bytes>)
    requires KeptSoFar(middle, before, current, first)
    requires Kept(fs, middle, current, allowed) && first <= allowed
    ensures Kept(fs, before, current, allowed)
  {
    forall k | |before| <= k < |fs.history| ensures fs.history[k].Holds(current, allowed) {
      assert k < |middle| ==> fs.history[k] == middle[k];
    }
    assert fs.history[..|before|] == fs.history[..|middle|][..|before|];
  }

  /** After a failed directory sync: rename the backup over the candidate. */
  method RollBack(fs: FileSystem, current: Path, backup: Path, ghost original: Bytes, ghost allowed: set<Bytes>)
    returns (ok: bool)
    requires fs.disk.Valid() && fs.disk.Holds(current, allowed) && backup != current
    requires Waiting(fs.disk, backup, original) && original in allowed
    modifies fs
    ensures ok == !fs.fails(old(fs.calls))
    ensures Kept(fs, old(fs.history), current, allowed)
    ensures if ok then fs.disk.Content(current) == original && !fs.disk.Exists(backup)
            else fs.disk.Content(current) == old(fs.disk.Content(current))
    ensures ok && !fs.fails(old(fs.calls) + 1) ==> fs.disk.Holds(current, {original})
    ensures fs.calls > 0 && (fs.disk.Exists(backup) ==> fs.fails(fs.calls - 1))
  {
    RenameHolds(fs.disk, backup, current, allowed);
    ok := fs.Rename(backup, current);
    ghost var middle, d := fs.history, fs.disk;
    if ok {
      SyncDirHolds(fs.disk, current, allowed);
      var ignored := fs.SyncDir();
    }
    ghost var later := fs.history;
    Cleanup(fs, current, backup, !ok, allowed);
    KeptTwice(fs, later, old(fs.history), current, allowed, allowed);
  }

  /** After a successful directory sync: drop the backup and sync again. */
  method Conclude(fs: FileSystem, current: Path, backup: Path, ghost allowed: set<Bytes>)
    returns (removed: bool, settled: bool)
    requires fs.disk.Valid() && fs.disk.Holds(current, allowed) && backup != current
    modifies fs
    ensures removed == !fs.fails(old(fs.calls)) && settled == (removed && !fs.fails(old(fs.calls) + 1))
    ensures Kept(fs, old(fs.history), current, allowed)
    ensures fs.disk.Content(current) == old(fs.disk.Content(current))
    ensures removed ==> fs.disk.names == old(fs.disk.names) - {backup}
    ensures settled ==> fs.disk.Holds(current, {fs.disk.Content(current)})
    ensures fs.calls > 0 && (fs.disk.Exists(backup) ==> fs.fails(fs.calls - 1))
  {
    RemoveHolds(fs.disk, backup, current, allowed);
    removed := fs.Remove(backup);
    settled := false;
    if removed {
      SyncDirHolds(fs.disk, current, allowed);
      settled := fs.SyncDir();
    }
    ghost var later, d := fs.history, fs.disk;
    assert settled ==> d.Holds(current, {d.Content(current)});
    Cleanup(fs, current, backup, !removed, allowed);
    KeptTwice(fs, later, old(fs.history), current, allowed, allowed);
  }

  /** The backup staged, or every trace of it removed again but for a failing removal. */
  method StageOrClean(fs: FileSystem, current: Path, candidate: Path, backup: Path, original: Bytes) returns (ok: bool)
    requires Ready(fs.disk, current, candidate, backup)
    modifies fs
    ensures ok <==> StagingWorks(fs.fails, old(fs.calls))
    ensures Kept(fs, old(fs.history), current, {old(fs.disk.Content(current))})
    ensures fs.disk.Content(current) == old(fs.disk.Content(current))
    ensures ok ==> fs.calls == old(fs.calls) + 5
    ensures ok ==> Waiting(fs.disk, candidate, old(fs.disk.Content(candidate))) && Waiting(fs.disk, backup, original)
    ensures !ok ==> fs.disk.Exists(candidate) && fs.calls > 0 && (fs.disk.Exists(backup) ==> fs.fails(fs.calls - 1))
  {
    hide StagingWorks, OthersKept, KeptSoFar;
    ghost var found := {fs.disk.Content(current)};
    var created;
    ok, created := Stage(fs, current, candidate, backup, original);
    ghost var staged := fs.history;
    if !ok && created {
      Cleanup(fs, current, backup, true, found);
      KeptTwice(fs, staged, old(fs.history), current, found, found);
    }
  }

  method AtomicReplace(fs: FileSystem, current: Path, candidate: Path, backup: Path, original: Bytes)
    returns (outcome: Outcome)
    requires Ready(fs.disk, current, candidate, backup)
    modifies fs
    ensures outcome == Fate(fs.fails, old(fs.calls))
    ensures var found, wanted := old(fs.disk.Content(current)), old(fs.disk.Content(candidate));
            && Kept(fs, old(fs.history), current, {found, wanted, original})
            && Left(outcome, fs.disk, current, candidate, backup, found, wanted, original)
    ensures outcome.Installed? <==> forall k: nat :: old(fs.calls) <= k < old(fs.calls) + 9 ==> !fs.fails(k)
    ensures outcome.NotStarted? <==> exists k: nat :: old(fs.calls) <= k < old(fs.calls) + 6 && fs.fails(k)
    ensures outcome.RolledBack? && !fs.fails(old(fs.calls) + 8) ==> fs.disk.Holds(current, {original})
    ensures fs.calls > 0 && (fs.disk.Exists(backup) ==> fs.fails(fs.calls - 1))
  {
    hide StagingWorks, KeptSoFar, Fate, AfterStaging, Waiting;
    ghost var found, wanted, c := fs.disk.Content(current), fs.disk.Content(candidate), fs.calls;
    ghost var allowed := {found, wanted, original};
    FateTells(fs.fails, c);
    var ok := StageOrClean(fs, current, candidate, backup, original);
    ghost var staged := fs.history;
    KeptMore(fs, old(fs.history), current, {found}, allowed);
    if !ok {
      UnstagedIsNotStarted(fs.fails, c);
      return NotStarted;
    }
    hide Left;
    StagedFate(fs.fails, c);
    outcome := Swap(fs, current, candidate, backup, found, wanted, original);
    KeptTwice(fs, staged, old(fs.history), current, {found}, allowed);
  }

  /** The outcome once the backup is staged. */
  function AfterStaging(fails: nat -> bool, c: nat): Outcome {
    if fails(c) then NotStarted
    else if fails(c + 1) then (if fails(c + 2) then RollbackFailed else RolledBack)
    else if fails(c + 2) then BackupLeft else if fails(c + 3) then Unsettled else Installed
  }

  lemma UnstagedIsNotStarted(fails: nat -> bool, first: nat)
    requires !StagingWorks(fails, first)
    ensures Fate(fails, first).NotStarted?
  {
  }

  lemma StagedFate(fails: nat -> bool, first: nat)
    requires StagingWorks(fails, first)
    ensures Fate(fails, first) == AfterStaging(fails, first + 5)
  {
  }

  lemma KeptMore(fs: FileSystem, before: seq<Disk>, current: Path, some: set<Bytes>, allowed: set<Bytes>)
    requires Kept(fs, before, current, some) && some <= allowed
    ensures Kept(fs, before, current, allowed)
  {
  }

  /** Everything after the backup is staged. */
  method Swap(fs: FileSystem, current: Path, candidate: Path, backup: Path,
              ghost found: Bytes, ghost wanted: Bytes, ghost original: Bytes)
    returns (outcome: Outcome)
    requires fs.disk.Valid() && fs.disk.Holds(current, {found}) && fs.disk.Content(current) == found
    requires Waiting(fs.disk, candidate, wanted) && Waiting(fs.disk, backup, original)
    requires candidate != current && backup != current && backup != candidate
    modifies fs
    ensures outcome == AfterStaging(fs.fails, old(fs.calls))
    ensures Kept(fs, old(fs.history), current, {found, wanted, original})
    ensures Left(outcome, fs.disk, current, candidate, backup, found, wanted, original)
    ensures outcome.RolledBack? && !fs.fails(old(fs.calls) + 3) ==> fs.disk.Holds(current, {original})
    ensures fs.calls > 0 && (fs.disk.Exists(backup) ==> fs.fails(fs.calls - 1))
  {
    ghost var allowed := {found, wanted, original};
    RenameHolds(fs.disk, candidate, current, allowed);
    var ok := fs.Rename(candidate, current);
    ghost var renamed := fs.history;
    if !ok {
      Cleanup(fs, current, backup, true, {found});
      KeptMore(fs, renamed, current, {found}, allowed);
      KeptTwice(fs, renamed, old(fs.history), current, allowed, allowed);
      return NotStarted;
    }
    outcome := Finish(fs, current, candidate, backup, found, wanted, original);
    KeptTwice(fs, renamed, old(fs.history), current, allowed, allowed);
  }

  /** From the directory sync on, with the candidate under the target's name. */
  method Finish(fs: FileSystem, current: Path, candidate: Path, backup: Path,
                ghost found: Bytes, ghost wanted: Bytes, ghost original: Bytes)
    returns (outcome: Outcome)
    requires fs.disk.Valid() && fs.disk.Holds(current, {found, wanted, original}) && fs.disk.Content(current) == wanted
    requires !fs.disk.Exists(candidate) && Waiting(fs.disk, backup, original)
    requires candidate != current && backup != current && backup != candidate
    modifies fs
    ensures var f, c := fs.fails, old(fs.calls);
            outcome == if f(c) then (if f(c + 1) then RollbackFailed else RolledBack)
              else if f(c + 1) then BackupLeft else if f(c + 2) then Unsettled else Installed
    ensures Kept(fs, old(fs.history), current, {found, wanted, original})
    ensures Left(outcome, fs.disk, current, candidate, backup, found, wanted, original)
    ensures outcome.RolledBack? && !fs.fails(old(fs.calls) + 2) ==> fs.disk.Holds(current, {original})
    ensures fs.calls > 0 && (fs.disk.Exists(backup) ==> fs.fails(fs.calls - 1))
  {
    ghost var allowed := {found, wanted, original};
    SyncDirHolds(fs.disk, current, allowed);
    var ok := fs.SyncDir();
    ghost var synced := fs.history;
    if !ok {
      ok := RollBack(fs, current, backup, original, allowed);
      outcome := if ok then RolledBack else RollbackFailed;
    } else {
      var removed, settled := Conclude(fs, current, backup, allowed);
      outcome := if !removed then BackupLeft else if !settled then Unsettled else Installed;
    }
    KeptTwice(fs, synced, old(fs.history), current, allowed, allowed);
  }
}
