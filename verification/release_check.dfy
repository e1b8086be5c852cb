/** The doctor's release check: compare the running executable with the official manifest and,
    when asked, replace it by the verified binary. */
module ReleaseCheck {
  import opened Seqs
  import opened Text
  import opened Manifest
  import opened ReleaseArchive
  import opened BinaryReplace

  /** What the world answers: downloads (None when unavailable), file checks and the candidate's own check. */
  datatype World = World(
    binaryManifest: Option<string>, archiveManifest: Option<string>,
    archive: Option<Bytes>, members: Option<seq<Member>>, zip: bool,
    readable: bool, readableAfter: bool, regular: bool, validates: bool,
    unmanaged: bool, unmanagedAfter: bool, windows: bool)

  datatype Names = Names(archive: string, member: string, current: Path, temp: Path, backup: Path)

  datatype Options = Options(offline: bool, official: bool, versionKnown: bool, fix: bool)

  datatype Status = Warn | Fail | Pass | Fixed

  type Sha = Bytes -> Digest

  /** The digest a manifest lists for a name, when it is well formed and lists it once. */
  ghost predicate Lists(manifest: string, name: string, digest: Digest) {
    WellFormed(Split(manifest, '\n')) && FilterMap(Split(manifest, '\n'), Targets(name)) == [digest]
  }

  lemma ListsTells(manifest: string, name: string, digest: Digest)
    ensures Lists(manifest, name, digest) <==> ListsOnce(manifest, name, digest)
  {
    hide ListsOnce, FilterMap, WellFormed, Split;
    ListedOnceExactly(manifest, name, digest);
  }

  /** At every point, and after a power loss there, the target held the bytes found or bytes with the digest. */
  ghost predicate OnlyGenuine(fs: FileSystem, before: seq<Disk>, current: Path, found: Bytes, sha: Sha, digest: Digest)
    reads fs
  {
    exists allowed: set<Bytes> ::
      (forall b :: b in allowed ==> b == found || sha(b) == digest) && Kept(fs, before, current, allowed)
  }

  ghost predicate Prepared(fs: FileSystem, names: Names)
    reads fs
  {
    && fs.disk.Valid() && fs.disk.Holds(names.current, {fs.disk.Content(names.current)})
    && names.temp != names.current && names.backup != names.current && names.backup != names.temp
  }

  /** The candidate written beside the executable and synced, up to its close. */
  method StageCandidate(fs: FileSystem, names: Names, bytes: Bytes) returns (ok: bool, created: bool)
    requires Prepared(fs, names)
    modifies fs
    ensures Kept(fs, old(fs.history), names.current, {old(fs.disk.Content(names.current))})
    ensures ok <==> StagingWorks(fs.fails, old(fs.calls))
    ensures ok <==> forall k: nat :: old(fs.calls) <= k < old(fs.calls) + 5 ==> !fs.fails(k)
    ensures ok ==> fs.calls == old(fs.calls) + 5
    ensures ok ==> created && Ready(fs.disk, names.current, names.temp, names.backup) && fs.disk.Content(names.temp) == bytes
  {
    hide StagingWorks;
    StagingTells(fs.fails, fs.calls);
    ok, created := WriteBeside(fs, names.current, names.temp, bytes);
  }

  /** The archive and its manifest came, agree, and hold the one binary with the digest. */
  ghost predicate Obtainable(world: World, names: Names, sha: Sha, digest: Digest) {
    && world.archive.Some? && world.archiveManifest.Some?
    && Lists(world.archiveManifest.value, names.archive, sha(world.archive.value))
    && SafeArchivePath(names.member) && world.members.Some?
    && exists bytes :: Holds(RolesOf(world.members.value, names.member), bytes) && sha(bytes) == digest
  }

  lemma ObtainableTells(world: World, names: Names, sha: Sha, digest: Digest)
    ensures Obtainable(world, names, sha, digest) <==>
      && world.archive.Some? && world.archiveManifest.Some? && world.members.Some?
      && ListsOnce(world.archiveManifest.value, names.archive, sha(world.archive.value))
      && SafeArchivePath(names.member)
      && exists b: Bytes, k :: OneBinary(world.members.value, names.member, b, k) && sha(b) == digest
  {
    hide SafeArchivePath, RolesOf, ReleaseArchive.Holds, ListsOnce, OneBinary, Lists;
    if world.archiveManifest.Some? && world.archive.Some? && world.members.Some? && SafeArchivePath(names.member) {
      ListsTells(world.archiveManifest.value, names.archive, sha(world.archive.value));
      forall b: Bytes
        ensures Holds(RolesOf(world.members.value, names.member), b)
                <==> exists k :: OneBinary(world.members.value, names.member, b, k)
      {
        HeldExactly(world.members.value, names.member, b);
      }
    }
  }

  /** The verified bytes of the official binary, or None for any reason to refuse the download. */
  method FetchCandidate(world: World, names: Names, sha: Sha, digest: Digest) returns (bytes: Option<Bytes>)
    ensures bytes.Some? <==> Obtainable(world, names, sha, digest)
    ensures bytes.Some? ==>
      && sha(bytes.value) == digest && |bytes.value| <= BINARY_MAX_BYTES
      && Holds(RolesOf(world.members.value, names.member), bytes.value)
    ensures bytes.Some? <==>
      && world.archive.Some? && world.archiveManifest.Some? && world.members.Some?
      && ListsOnce(world.archiveManifest.value, names.archive, sha(world.archive.value))
      && SafeArchivePath(names.member)
      && exists b: Bytes, k :: OneBinary(world.members.value, names.member, b, k) && sha(b) == digest
    ensures bytes.Some? ==> exists k :: OneBinary(world.members.value, names.member, bytes.value, k)
  {
    hide SafeArchivePath, WellFormed, Targets, RolesOf, ReleaseArchive.Holds, ListsOnce, OneBinary;
    bytes := None;
    ObtainableTells(world, names, sha, digest);
    if world.archiveManifest.None? { return; }
    var checksum := ParseChecksum(world.archiveManifest.value, names.archive);
    if checksum.None? || world.archive.None? { return; }
    if sha(world.archive.value) != checksum.value { return; }
    if !SafeArchivePath(names.member) || world.members.None? { return; }
    var extracted := None;
    if world.zip {
      extracted := ExtractZip(world.members.value, names.member);
    } else {
      extracted := ExtractTar(world.members.value, names.member);
    }
    if extracted.None? { return; }
    OnlyOne(RolesOf(world.members.value, names.member), extracted.value);
    HeldIsBounded(world.members.value, names.member, extracted.value);
    if sha(extracted.value) != digest { return; }
    HeldExactly(world.members.value, names.member, extracted.value);
    bytes := extracted;
  }

  lemma OnlyOne(roles: seq<Role>, bytes: Bytes)
    requires Holds(roles, bytes)
    ensures forall other :: Holds(roles, other) ==> other == bytes
  {
    forall other | Holds(roles, other) ensures other == bytes {
      assert [other][0] == [bytes][0];
    }
  }

  datatype Repaired = NotRepaired | StagedOnly | Replaced

  /** The candidate comes to the replacement, by the world's answers and the fault schedule. */
  predicate Attempted(fails: nat -> bool, first: nat, world: World) {
    StagingWorks(fails, first) && world.validates && !world.windows && world.unmanagedAfter
  }

  /** The replacement returned without an error. */
  predicate Replaceable(fails: nat -> bool, first: nat, world: World) {
    Attempted(fails, first, world) && Fate(fails, first + 5).Installed?
  }

  /** That takes five working calls to stage the candidate and nine to put it in place. */
  lemma ReplaceableTells(fails: nat -> bool, first: nat, world: World)
    ensures Replaceable(fails, first, world) <==>
      && world.validates && !world.windows && world.unmanagedAfter
      && forall k: nat :: first <= k < first + 14 ==> !fails(k)
  {
    hide StagingWorks, Fate;
    StagingTells(fails, first);
    FateTells(fails, first + 5);
  }

  /** The replacement left the candidate in place, with or without an error. */
  predicate Lands(fails: nat -> bool, first: nat, world: World) {
    Attempted(fails, first, world) && !Fate(fails, first + 5).NotStarted? && !Fate(fails, first + 5).RolledBack?
  }

  /** Staging, checking and installing verified bytes. */
  method Replace(fs: FileSystem, world: World, names: Names, bytes: Bytes, original: Bytes) returns (result: Repaired)
    requires Prepared(fs, names) && original == fs.disk.Content(names.current)
    modifies fs
    ensures Kept(fs, old(fs.history), names.current, {original, bytes})
    ensures result.Replaced? <==> Replaceable(fs.fails, old(fs.calls), world)
    ensures result.Replaced? <==>
      && world.validates && !world.windows && world.unmanagedAfter
      && forall k: nat :: old(fs.calls) <= k < old(fs.calls) + 14 ==> !fs.fails(k)
    ensures result.StagedOnly? <==> world.windows && StagingWorks(fs.fails, old(fs.calls)) && world.validates
    ensures fs.disk.Content(names.current) == if Lands(fs.fails, old(fs.calls), world) then bytes else original
    ensures result.Replaced? ==> fs.disk.Holds(names.current, {bytes}) && !fs.disk.Exists(names.backup)
  {
    hide StagingWorks, Fate, KeptSoFar;
    ReplaceableTells(fs.fails, fs.calls, world);
    ghost var before, allowed := fs.history, {original, bytes};
    var ok, created := StageCandidate(fs, names, bytes);
    ghost var staged := fs.history;
    KeptMore(fs, before, names.current, {original}, allowed);
    if !ok || !world.validates || (!world.windows && !world.unmanagedAfter) {
      if created {
        Cleanup(fs, names.current, names.temp, true, allowed);
        KeptTwice(fs, staged, before, names.current, allowed, allowed);
      }
      return NotRepaired;
    }
    if world.windows {
      return StagedOnly;
    }
    var installed := Install(fs, names, bytes, original);
    KeptTwice(fs, staged, before, names.current, allowed, allowed);
    result := if installed then Replaced else NotRepaired;
  }

  method Repair(fs: FileSystem, world: World, names: Names, sha: Sha, digest: Digest, original: Bytes)
    returns (result: Repaired)
    requires Prepared(fs, names) && original == fs.disk.Content(names.current)
    modifies fs
    ensures OnlyGenuine(fs, old(fs.history), names.current, original, sha, digest)
    ensures result.Replaced? <==>
      Obtainable(world, names, sha, digest) && world.regular && Replaceable(fs.fails, old(fs.calls), world)
    ensures result.StagedOnly? <==>
      && Obtainable(world, names, sha, digest) && world.regular
      && world.windows && StagingWorks(fs.fails, old(fs.calls)) && world.validates
    ensures
      if Obtainable(world, names, sha, digest) && world.regular && Lands(fs.fails, old(fs.calls), world)
      then sha(fs.disk.Content(names.current)) == digest && |fs.disk.Content(names.current)| <= BINARY_MAX_BYTES
      else fs.disk.Content(names.current) == original
    ensures result.Replaced? ==>
      fs.disk.Holds(names.current, {fs.disk.Content(names.current)}) && !fs.disk.Exists(names.backup)
  {
    hide Attempted, StagingWorks, Fate, Obtainable;
    ghost var before := fs.history;
    var candidate := FetchCandidate(world, names, sha, digest);
    if candidate.None? || !world.regular {
      KeptIsGenuine(fs, before, names.current, {original}, original, sha, digest);
      return NotRepaired;
    }
    result := Replace(fs, world, names, candidate.value, original);
    KeptIsGenuine(fs, before, names.current, {original, candidate.value}, original, sha, digest);
  }

  /** The staged candidate takes the place of the executable, or its file is removed. */
  method Install(fs: FileSystem, names: Names, bytes: Bytes, original: Bytes) returns (installed: bool)
    requires Ready(fs.disk, names.current, names.temp, names.backup)
    requires fs.disk.Content(names.current) == original && fs.disk.Content(names.temp) == bytes
    modifies fs
    ensures Kept(fs, old(fs.history), names.current, {original, bytes})
    ensures installed <==> Fate(fs.fails, old(fs.calls)).Installed?
    ensures fs.disk.Content(names.current)
         == if Fate(fs.fails, old(fs.calls)).NotStarted? || Fate(fs.fails, old(fs.calls)).RolledBack? then original else bytes
    ensures installed ==> fs.disk.Holds(names.current, {bytes}) && !fs.disk.Exists(names.backup)
  {
    hide Fate;
    ghost var before := fs.history;
    var outcome := AtomicReplace(fs, names.current, names.temp, names.backup, original);
    assert {original, bytes, original} == {original, bytes};
    ghost var replaced := fs.history;
    installed := outcome.Installed?;
    if !installed {
      Cleanup(fs, names.current, names.temp, true, {original, bytes});
      KeptTwice(fs, replaced, before, names.current, {original, bytes}, {original, bytes});
    }
  }

  lemma KeptIsGenuine(fs: FileSystem, before: seq<Disk>, current: Path, allowed: set<Bytes>,
                      found: Bytes, sha: Sha, digest: Digest)
    requires Kept(fs, before, current, allowed) && forall b :: b in allowed ==> b == found || sha(b) == digest
    ensures OnlyGenuine(fs, before, current, found, sha, digest)
  {
  }

  /** The check comes as far as comparing the executable with a manifest. */
  predicate Comparable(options: Options, world: World, current: Bytes) {
    && !options.offline && options.official && options.versionKnown
    && world.binaryManifest.Some? && world.readable && |current| <= BINARY_MAX_BYTES
  }

  ghost predicate Matches(options: Options, world: World, names: Names, sha: Sha, current: Bytes) {
    Comparable(options, world, current) && Lists(world.binaryManifest.value, names.member, sha(current))
  }

  /** A repair puts the binary in place, and either returns without an error or leaves it readable. */
  ghost predicate Fixes(fails: nat -> bool, first: nat, world: World, names: Names, sha: Sha, digest: Digest) {
    && Obtainable(world, names, sha, digest) && world.regular && Lands(fails, first, world)
    && (Replaceable(fails, first, world) || world.readableAfter)
  }

  ghost predicate FixesListed(fails: nat -> bool, first: nat, world: World, names: Names, sha: Sha) {
    && world.binaryManifest.Some?
    && exists digest ::
         Lists(world.binaryManifest.value, names.member, digest) && Fixes(fails, first, world, names, sha, digest)
  }

  lemma ListsOne(manifest: string, name: string, digest: Digest)
    requires Lists(manifest, name, digest)
    ensures forall other :: Lists(manifest, name, other) ==> other == digest
  {
    forall other | Lists(manifest, name, other) ensures other == digest {
      assert [other][0] == [digest][0];
    }
  }

  /** The part of the check from the repair on. */
  method Fix(fs: FileSystem, world: World, names: Names, sha: Sha, digest: Digest, current: Bytes)
    returns (fixed: bool)
    requires Prepared(fs, names) && current == fs.disk.Content(names.current) && sha(current) != digest
    modifies fs
    ensures OnlyGenuine(fs, old(fs.history), names.current, current, sha, digest)
    ensures fixed <==> Fixes(fs.fails, old(fs.calls), world, names, sha, digest)
    ensures fixed ==> sha(fs.disk.Content(names.current)) == digest
  {
    hide Obtainable, StagingWorks, Fate, OnlyGenuine, Prepared;
    var result := Repair(fs, world, names, sha, digest, current);
    if result.NotRepaired? {
      var installed := fs.disk.Content(names.current);
      return world.readableAfter && |installed| <= BINARY_MAX_BYTES && sha(installed) == digest;
    }
    fixed := !result.StagedOnly?;
  }

  method CheckIntegrity(fs: FileSystem, options: Options, world: World, names: Names, sha: Sha) returns (status: Status)
    requires Prepared(fs, names)
    modifies fs
    ensures status.Pass? || status.Fixed? ==>
      && world.binaryManifest.Some?
      && Lists(world.binaryManifest.value, names.member, sha(fs.disk.Content(names.current)))
    ensures status.Warn? <==> options.offline || !options.official
    ensures status.Pass? <==> Matches(options, world, names, sha, old(fs.disk.Content(names.current)))
    ensures status.Pass? <==>
      && !options.offline && options.official && options.versionKnown && world.binaryManifest.Some? && world.readable
      && |old(fs.disk.Content(names.current))| <= 67_108_864
      && ListsOnce(world.binaryManifest.value, names.member, sha(old(fs.disk.Content(names.current))))
    ensures status.Fixed? <==>
      && !options.offline && options.official && options.versionKnown && world.binaryManifest.Some? && world.readable
      && |old(fs.disk.Content(names.current))| <= 67_108_864 && !status.Pass?
      && options.fix && world.unmanaged && FixesListed(fs.fails, old(fs.calls), world, names, sha)
    ensures status.Pass? || status.Warn? || !options.fix || !world.unmanaged ==> fs.disk == old(fs.disk)
    ensures world.binaryManifest.Some? ==> forall digest :: Lists(world.binaryManifest.value, names.member, digest) ==>
      OnlyGenuine(fs, old(fs.history), names.current, old(fs.disk.Content(names.current)), sha, digest)
    ensures world.binaryManifest.None? ==> fs.disk == old(fs.disk)
  {
    hide Fixes, Lists, Split, WellFormed, Targets, OnlyGenuine, ListsOnce;
    if world.binaryManifest.Some? {
      ListsTells(world.binaryManifest.value, names.member, sha(fs.disk.Content(names.current)));
    }
    ghost var before, found := fs.history, fs.disk.Content(names.current);
    forall digest ensures OnlyGenuine(fs, before, names.current, found, sha, digest) {
      KeptIsGenuine(fs, before, names.current, {found}, found, sha, digest);
    }
    if options.offline || !options.official { return Warn; }
    if !options.versionKnown { return Fail; }
    if world.binaryManifest.None? { return Fail; }
    var expected := Expected(world.binaryManifest.value, names.member);
    if expected.None? { return Fail; }
    var current := fs.disk.Content(names.current);
    if !world.readable || |current| > BINARY_MAX_BYTES { return Fail; }
    if sha(current) == expected.value { return Pass; }
    if !options.fix || !world.unmanaged { return Fail; }
    var fixed := Fix(fs, world, names, sha, expected.value, current);
    status := if fixed then Fixed else Fail;
  }

  /** parseDoctorChecksum as the check uses it: the one digest listed, if there is one. */
  method Expected(manifest: string, name: string) returns (digest: Option<Digest>)
    ensures digest.Some? ==> forall other :: Lists(manifest, name, other) <==> other == digest.value
    ensures digest.None? ==> forall other :: !Lists(manifest, name, other)
  {
    hide Split, WellFormed, Targets, FilterMap;
    digest := ParseChecksum(manifest, name);
    if digest.Some? {
      ListsOne(manifest, name, digest.value);
    }
  }
}
