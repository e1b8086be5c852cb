/** Checking a downloaded release: member paths and the archive members. */
module ReleaseArchive {
  import opened Seqs
  import opened Text

  type Bytes = string

  const BINARY_MAX_BYTES := 64 * 1024 * 1024

  // ------------------------------------------------------------ paths

  /** One component of a relative path in path.Clean. */
  function Push(stack: seq<string>, component: string): seq<string> {
    if component == "" || component == "." then stack
    else if component == ".." && |stack| > 0 && stack[|stack| - 1] != ".." then stack[..|stack| - 1]
    else stack + [component]
  }

  function Resolve(stack: seq<string>, components: seq<string>): seq<string>
    decreases |components|
  {
    if |components| == 0 then stack else Resolve(Push(stack, components[0]), components[1..])
  }

  /** path.Clean of a relative path. */
  function Clean(name: string): string {
    var stack := Resolve([], Split(name, '/'));
    if |stack| == 0 then "." else Join(stack, '/')
  }

  predicate SafeArchivePath(name: string) {
    if name == "" || '\\' in name || name[0] == '/' then false
    else
      var clean := Clean(name);
      clean == name && clean != "." && clean != ".." && !("../" <= clean)
  }

  predicate Proper(component: string) {
    component != "" && component != "." && component != ".."
  }

  predicate AllProper(components: seq<string>) {
    forall i :: 0 <= i < |components| ==> Proper(components[i])
  }

  lemma {:induction false} ProperResolve(stack: seq<string>, components: seq<string>)
    requires AllProper(components)
    ensures Resolve(stack, components) == stack + components
    decreases |components|
  {
    if |components| == 0 {
      assert stack + components == stack;
    } else {
      assert Proper(components[0]);
      ProperResolve(Push(stack, components[0]), components[1..]);
      assert stack + components == (stack + [components[0]]) + components[1..];
    }
  }

  /** A resolved path climbs only at its start. */
  predicate ClimbsFirst(stack: seq<string>) {
    forall i :: 0 <= i < |stack| ==>
      stack[i] != "" && stack[i] != "." && '/' !in stack[i] && (i > 0 && stack[i] == ".." ==> stack[i - 1] == "..")
  }

  lemma {:induction false} ResolveClimbsFirst(stack: seq<string>, components: seq<string>)
    requires ClimbsFirst(stack)
    requires forall i :: 0 <= i < |components| ==> '/' !in components[i]
    ensures ClimbsFirst(Resolve(stack, components))
    decreases |components|
  {
    if |components| > 0 {
      ResolveClimbsFirst(Push(stack, components[0]), components[1..]);
    }
  }

  lemma {:induction false} ClimbIsAtStart(stack: seq<string>, i: nat)
    requires ClimbsFirst(stack) && i < |stack| && stack[i] == ".."
    ensures stack[0] == ".."
  {
    if i > 0 {
      ClimbIsAtStart(stack, i - 1);
    }
  }

  /** A name is accepted exactly when it has no backslash and only proper components. */
  lemma SafePathIsProper(name: string)
    ensures SafeArchivePath(name) <==> '\\' !in name && AllProper(Split(name, '/'))
  {
    var components := Split(name, '/');
    SplitPieces(name, '/');
    JoinOfSplit(name, '/');
    if AllProper(components) && '\\' !in name {
      ProperIsSafe(name);
    }
    if SafeArchivePath(name) {
      SafeIsProper(name);
    }
  }

  lemma ProperIsSafe(name: string)
    requires AllProper(Split(name, '/')) && '\\' !in name
    ensures SafeArchivePath(name)
  {
    hide Resolve, Join;
    var components := Split(name, '/');
    JoinOfSplit(name, '/');
    ProperResolve([], components);
    assert [] + components == components;
    assert Proper(components[0]);
    SplitPiece(".", '/');
    SplitPiece("..", '/');
    if "../" <= name {
      assert name == ".." + ['/'] + name[3..];
      SplitConcat("..", name[3..], '/');
    }
  }

  lemma SafeIsProper(name: string)
    requires SafeArchivePath(name)
    ensures AllProper(Split(name, '/'))
  {
    var components := Split(name, '/');
    var stack := Resolve([], components);
    SplitPieces(name, '/');
    ResolveClimbsFirst([], components);
    SplitOfJoin(stack, '/');
    forall i | 0 <= i < |stack| ensures Proper(stack[i]) {
      if stack[i] == ".." {
        ClimbIsAtStart(stack, i);
      }
    }
  }

  // ------------------------------------------------------------ archive members

  datatype Kind = Directory | Regular | Symlink | Other

  /** An archive member; `body` is what its data decompresses to, None when that fails. */
  datatype Member = Member(path: string, kind: Kind, size: int, body: Option<Bytes>)

  function NameOf(member: Member): string {
    var n := |member.path|;
    if n > 0 && member.path[n - 1] == '/' then member.path[..n - 1] else member.path
  }

  /** path.Dir of a safe path. */
  function DirOf(name: string): string {
    var components := Split(name, '/');
    if |components| == 1 then "." else Join(components[..|components| - 1], '/')
  }

  function Limited(body: Bytes): Bytes {
    if |body| <= BINARY_MAX_BYTES then body else body[..BINARY_MAX_BYTES + 1]
  }

  /** What a member is to the extractors: the parent directory, the whole binary, or a reason to refuse. */
  datatype Role = Parent | Binary(bytes: Bytes) | Refused

  function RoleOf(member: Member, expected: string): Role {
    if !SafeArchivePath(NameOf(member)) then Refused
    else if member.kind.Directory? && NameOf(member) == DirOf(expected) then Parent
    else if member.kind.Regular? && NameOf(member) == expected && member.body.Some?
      && |member.body.value| == member.size && 0 < member.size <= BINARY_MAX_BYTES then Binary(member.body.value)
    else Refused
  }

  function RolesOf(members: seq<Member>, expected: string): (roles: seq<Role>)
    ensures |roles| == |members|
  {
    seq(|members|, i requires 0 <= i < |members| => RoleOf(members[i], expected))
  }

  function BytesOf(role: Role): Option<Bytes> {
    if role.Binary? then Some(role.bytes) else None
  }

  predicate NoneRefused(roles: seq<Role>) {
    forall i :: 0 <= i < |roles| ==> !roles[i].Refused?
  }

  /** The archive is the expected binary, once and whole, and otherwise only its parent directory. */
  predicate Holds(roles: seq<Role>, bytes: Bytes) {
    NoneRefused(roles) && FilterMap(roles, BytesOf) == [bytes]
  }

  lemma HeldIsBounded(members: seq<Member>, expected: string, bytes: Bytes)
    requires Holds(RolesOf(members, expected), bytes)
    ensures 0 < |bytes| <= BINARY_MAX_BYTES
  {
    hide SafeArchivePath, NameOf, DirOf;
    var roles := RolesOf(members, expected);
    assert FilterMap(roles, BytesOf)[0] == bytes;
    var i := FilterMapMember(roles, BytesOf, bytes);
    assert roles[i] == RoleOf(members[i], expected);
  }

  /** What either loop knows after some members: none refused, and the binary if it has come. */
  predicate Seen(roles: seq<Role>, found: Bytes) {
    NoneRefused(roles) && FilterMap(roles, BytesOf) == if found == "" then [] else [found]
  }

  lemma SeenStep(roles: seq<Role>, i: nat, found: Bytes)
    requires i < |roles| && Seen(roles[..i], found)
    ensures roles[i].Parent? ==> Seen(roles[..i + 1], found)
    ensures roles[i].Binary? && roles[i].bytes != "" && found == "" ==> Seen(roles[..i + 1], roles[i].bytes)
  {
    hide FilterMap;
    FilterMapStep(roles, i, BytesOf);
    assert roles[..i + 1] == roles[..i] + [roles[i]];
    var before: seq<Bytes> := FilterMap(roles[..i], BytesOf);
    assert before + [] == before && [] + [found] == [found];
  }

  lemma RefusedForGood(roles: seq<Role>, i: nat, found: Bytes)
    requires i < |roles| && Seen(roles[..i], found)
    requires roles[i].Refused? || (found != "" && roles[i].Binary?)
    ensures forall bytes :: !Holds(roles, bytes)
  {
    if !roles[i].Refused? {
      FilterMapStep(roles, i, BytesOf);
      FilterMapConcat(roles[..i + 1], roles[i + 1..], BytesOf);
      assert roles == roles[..i + 1] + roles[i + 1..];
    }
  }

  lemma SeenAll(roles: seq<Role>, found: Bytes)
    requires Seen(roles[..|roles|], found)
    ensures if found == "" then forall bytes :: !Holds(roles, bytes) else Holds(roles, found)
  {
    assert roles[..|roles|] == roles;
  }

  lemma SeenNone(roles: seq<Role>)
    ensures Seen(roles[..0], "")
  {
  }

  lemma LimitedIsWhole(body: Bytes)
    ensures |Limited(body)| <= BINARY_MAX_BYTES ==> Limited(body) == body
    ensures |body| <= BINARY_MAX_BYTES ==> Limited(body) == body
  {
  }

  method ExtractTar(members: seq<Member>, expected: string) returns (candidate: Option<Bytes>)
    ensures candidate.Some? ==> Holds(RolesOf(members, expected), candidate.value)
    ensures candidate.None? ==> forall bytes :: !Holds(RolesOf(members, expected), bytes)
  {
    hide SafeArchivePath, NameOf, DirOf, Limited, Seen, Holds;
    ghost var roles := RolesOf(members, expected);
    SeenNone(roles);
    var found := "";
    var i := 0;
    while i < |members|
      invariant 0 <= i <= |members|
      invariant Seen(roles[..i], found)
    {
      var member, name := members[i], NameOf(members[i]);
      SeenStep(roles, i, found);
      if roles[i].Refused? || (found != "" && roles[i].Binary?) {
        RefusedForGood(roles, i, found);
      }
      if !SafeArchivePath(name) {
        return None;
      }
      if member.kind.Directory? && name == DirOf(expected) {
        i := i + 1;
        continue;
      }
      if !member.kind.Regular? || name != expected || found != "" {
        return None;
      }
      if member.size <= 0 || member.size > BINARY_MAX_BYTES {
        return None;
      }
      if member.body.Some? {
        LimitedIsWhole(member.body.value);
      }
      if member.body.None? || |Limited(member.body.value)| != member.size {
        return None;
      }
      found := Limited(member.body.value);
      i := i + 1;
    }
    SeenAll(roles, found);
    candidate := if found == "" then None else Some(found);
  }

  method ExtractZip(members: seq<Member>, expected: string) returns (candidate: Option<Bytes>)
    ensures candidate.Some? ==> Holds(RolesOf(members, expected), candidate.value)
    ensures candidate.None? ==> forall bytes :: !Holds(RolesOf(members, expected), bytes)
  {
    hide SafeArchivePath, NameOf, DirOf, Limited, Seen, Holds;
    ghost var roles := RolesOf(members, expected);
    SeenNone(roles);
    var found := "";
    var i := 0;
    while i < |members|
      invariant 0 <= i <= |members|
      invariant Seen(roles[..i], found)
    {
      var member, name := members[i], NameOf(members[i]);
      SeenStep(roles, i, found);
      if roles[i].Refused? || (found != "" && roles[i].Binary?) {
        RefusedForGood(roles, i, found);
      }
      if !SafeArchivePath(name) || member.kind.Symlink? {
        return None;
      }
      if member.kind.Directory? && name == DirOf(expected) {
        i := i + 1;
        continue;
      }
      if !member.kind.Regular? || name != expected || found != "" || member.size == 0 || member.size > BINARY_MAX_BYTES {
        return None;
      }
      if member.body.Some? {
        LimitedIsWhole(member.body.value);
      }
      if member.body.None? || |Limited(member.body.value)| != member.size {
        return None;
      }
      found := Limited(member.body.value);
      i := i + 1;
    }
    SeenAll(roles, found);
    candidate := if found == "" then None else Some(found);
  }

  // ------------------------------------------------------------ what an archive that holds the binary looks like

  /** The member named, up to one slash at its end. */
  predicate Called(member: Member, name: string) {
    member.path == name || member.path == name + "/"
  }

  predicate TheBinary(member: Member, expected: string, bytes: Bytes) {
    && Called(member, expected) && member.kind == Regular
    && member.body == Some(bytes) && member.size == |bytes| && 0 < |bytes| <= 67_108_864
  }

  /** The directory that the expected path is directly in. */
  ghost predicate TheParent(member: Member, expected: string) {
    member.kind == Directory && exists dir: string, base: string :: ParentBy(member, expected, dir, base)
  }

  ghost predicate ParentBy(member: Member, expected: string, dir: string, base: string) {
    expected == dir + "/" + base && '/' !in base && SafeArchivePath(dir) && Called(member, dir)
  }

  lemma SafeHasNoEndSlash(name: string)
    requires SafeArchivePath(name)
    ensures name != "" && name[|name| - 1] != '/'
  {
    hide SafeArchivePath, AllProper;
    SafeIsNotEmpty(name);
    if name[|name| - 1] == '/' {
      var front := name[..|name| - 1];
      assert name == front + ['/'] + "";
      SplitConcat(front, "", '/');
      SplitPiece("", '/');
      SafePathIsProper(name);
      LastIsProper(Split(front, '/'), "");
    }
  }

  lemma SafeIsNotEmpty(name: string)
    requires SafeArchivePath(name)
    ensures name != ""
  {
  }

  lemma LastIsProper(front: seq<string>, last: string)
    requires AllProper(front + [last])
    ensures Proper(last)
  {
    assert (front + [last])[|front|] == last;
  }

  lemma NameIsExactly(member: Member, name: string)
    requires SafeArchivePath(name)
    ensures NameOf(member) == name <==> Called(member, name)
  {
    hide SafeArchivePath;
    SafeHasNoEndSlash(name);
    assert (name + "/")[..|name|] == name;
    var n := |member.path|;
    if n > 0 && member.path[n - 1] == '/' {
      assert member.path == member.path[..n - 1] + "/";
    }
  }

  lemma {:induction false} DirIsExactly(expected: string, dir: string, base: string)
    requires expected == dir + "/" + base && '/' !in base
    ensures DirOf(expected) == dir
  {
    SplitConcat(dir, base, '/');
    SplitPiece(base, '/');
    assert expected == dir + ['/'] + base;
    var front := Split(dir, '/');
    assert (front + [base])[..|front|] == front;
    JoinOfSplit(dir, '/');
  }

  lemma DirOfNested(expected: string) returns (base: string)
    requires '/' in expected
    ensures '/' !in base && expected == DirOf(expected) + "/" + base
  {
    var parts := Split(expected, '/');
    SplitPieces(expected, '/');
    JoinOfSplit(expected, '/');
    base := parts[|parts| - 1];
    JoinLast(parts);
  }

  lemma {:induction false} JoinLast(parts: seq<string>)
    requires |parts| > 1
    ensures Join(parts, '/') == Join(parts[..|parts| - 1], '/') + "/" + parts[|parts| - 1]
  {
    if |parts| > 2 {
      JoinLast(parts[1..]);
      assert parts[..|parts| - 1][1..] == parts[1..][..|parts| - 2];
    } else {
      assert parts == [parts[0], parts[1]] && parts[..1] == [parts[0]];
    }
  }

  lemma BinaryExactly(member: Member, expected: string, bytes: Bytes)
    ensures RoleOf(member, expected) == Binary(bytes) <==> SafeArchivePath(expected) && TheBinary(member, expected, bytes)
  {
    hide SafeArchivePath, NameOf, DirOf;
    if SafeArchivePath(expected) {
      NameIsExactly(member, expected);
    }
  }

  lemma ParentExactly(member: Member, expected: string)
    ensures RoleOf(member, expected).Parent? <==> TheParent(member, expected)
  {
    hide SafeArchivePath, NameOf, DirOf;
    if RoleOf(member, expected).Parent? {
      NameIsExactly(member, DirOf(expected));
      DotIsUnsafe(expected);
      var base := DirOfNested(expected);
      assert ParentBy(member, expected, DirOf(expected), base);
    }
    if TheParent(member, expected) {
      var dir: string, base: string :| ParentBy(member, expected, dir, base);
      DirIsExactly(expected, dir, base);
      NameIsExactly(member, dir);
    }
  }

  lemma DotIsUnsafe(expected: string)
    requires SafeArchivePath(DirOf(expected))
    ensures '/' in expected
  {
    if '/' !in expected {
      SplitPiece(expected, '/');
      SplitPiece(".", '/');
      SafePathIsProper(".");
    }
  }

  ghost predicate OneBinary(members: seq<Member>, expected: string, bytes: Bytes, k: int) {
    && 0 <= k < |members| && TheBinary(members[k], expected, bytes)
    && forall i :: 0 <= i < |members| && i != k ==> TheParent(members[i], expected)
  }

  /** An archive holds the binary exactly when one member is it, whole and of the size it claims, and every other one
      is the directory it is in. */
  lemma HeldExactly(members: seq<Member>, expected: string, bytes: Bytes)
    ensures Holds(RolesOf(members, expected), bytes)
            <==> SafeArchivePath(expected) && exists k :: OneBinary(members, expected, bytes, k)
  {
    hide SafeArchivePath, RoleOf, TheBinary, TheParent, FilterMap;
    var roles := RolesOf(members, expected);
    OneImageExactly(roles, BytesOf, bytes);
    forall i | 0 <= i < |members|
      ensures roles[i].Parent? <==> TheParent(members[i], expected)
      ensures roles[i] == Binary(bytes) <==> SafeArchivePath(expected) && TheBinary(members[i], expected, bytes)
    {
      ParentExactly(members[i], expected);
      BinaryExactly(members[i], expected, bytes);
    }
    assert forall k :: OnlyImage(roles, BytesOf, bytes, k) ==> roles[k] == Binary(bytes);
    assert forall k :: NoneRefused(roles) && OnlyImage(roles, BytesOf, bytes, k) ==> OneBinary(members, expected, bytes, k);
    if SafeArchivePath(expected) {
      forall k | OneBinary(members, expected, bytes, k) ensures OnlyImage(roles, BytesOf, bytes, k) && NoneRefused(roles) {
        assert forall i :: 0 <= i < |roles| ==> !roles[i].Refused?;
      }
    }
  }
}
