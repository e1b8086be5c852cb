/** Listing the descendants of a process from a snapshot of parent links that need not be a tree. */
module ProcessTree {
  import opened Seqs

  type Pid = int
  type Children = map<Pid, seq<Pid>>

  function Of(children: Children, p: Pid): seq<Pid> {
    if p in children then children[p] else []
  }

  predicate Edge(children: Children, p: Pid, c: Pid) {
    c in Of(children, p)
  }

  /** A walk of n links from p down to q. */
  ghost predicate Walk(children: Children, p: Pid, q: Pid, n: nat)
    decreases n
  {
    if n == 0 then p == q else exists r :: Edge(children, r, q) && Walk(children, p, r, n - 1)
  }

  /** q is a proper descendant of p. */
  ghost predicate Reach(children: Children, p: Pid, q: Pid) {
    exists n: nat :: n > 0 && Walk(children, p, q, n)
  }

  /** No pid is listed twice: /proc has one directory, and so one parent, for each. */
  ghost predicate OneParent(children: Children) {
    && (forall p, i, j :: p in children && 0 <= i < j < |children[p]| ==> children[p][i] != children[p][j])
    && (forall p, q, c :: Edge(children, p, c) && Edge(children, q, c) ==> p == q)
  }

  /** linuxProcessChildren: the map from the readable (pid, parent) entries. */
  method BuildChildren(stats: seq<(Pid, Pid)>) returns (children: Children)
    requires forall i, j :: 0 <= i < j < |stats| ==> stats[i].0 != stats[j].0
    ensures OneParent(children)
    ensures forall p, c :: Edge(children, p, c) <==> (c, p) in stats
  {
    children := map[];
    var i := 0;
    while i < |stats|
      invariant 0 <= i <= |stats|
      invariant forall p, c :: Edge(children, p, c) <==> (c, p) in stats[..i]
      invariant forall p, a, b :: p in children && 0 <= a < b < |children[p]| ==> children[p][a] != children[p][b]
    {
      var (pid, parent) := stats[i];
      assert (pid, parent) == stats[i] && stats[..i + 1] == stats[..i] + [stats[i]];
      assert !Edge(children, parent, pid);
      children := children[parent := Of(children, parent) + [pid]];
      i := i + 1;
    }
    assert stats[..i] == stats;
  }

  // ------------------------------------------------------------ walks

  lemma {:induction false} WalkThenWalk(children: Children, p: Pid, q: Pid, r: Pid, m: nat, n: nat)
    requires Walk(children, p, q, m) && Walk(children, q, r, n)
    ensures Walk(children, p, r, m + n)
    decreases n
  {
    if n > 0 {
      var s :| Edge(children, s, r) && Walk(children, q, s, n - 1);
      WalkThenWalk(children, p, q, s, m, n - 1);
      assert Edge(children, s, r) && Walk(children, p, s, m + n - 1);
    }
  }

  lemma EdgeIsWalk(children: Children, p: Pid, c: Pid)
    requires Edge(children, p, c)
    ensures Walk(children, p, c, 1)
  {
    assert Edge(children, p, c) && Walk(children, p, p, 0);
  }

  /** The first link of a walk. */
  lemma {:induction false} WalkStarts(children: Children, p: Pid, q: Pid, n: nat) returns (c: Pid)
    requires n > 0 && Walk(children, p, q, n)
    ensures Edge(children, p, c) && Walk(children, c, q, n - 1)
    decreases n
  {
    var r :| Edge(children, r, q) && Walk(children, p, r, n - 1);
    if n == 1 {
      c := q;
    } else {
      c := WalkStarts(children, p, r, n - 1);
      assert Edge(children, r, q) && Walk(children, c, r, n - 2);
    }
  }

  lemma ReachByEdge(children: Children, p: Pid, c: Pid, q: Pid, n: nat)
    requires Edge(children, p, c) && Walk(children, c, q, n)
    ensures Reach(children, p, q) && Walk(children, p, q, n + 1)
  {
    EdgeIsWalk(children, p, c);
    WalkThenWalk(children, p, c, q, 1, n);
  }

  lemma ReachReach(children: Children, p: Pid, q: Pid, r: Pid)
    requires Reach(children, p, q) && Reach(children, q, r)
    ensures Reach(children, p, r)
  {
    var m: nat :| m > 0 && Walk(children, p, q, m);
    var n: nat :| n > 0 && Walk(children, q, r, n);
    WalkThenWalk(children, p, q, r, m, n);
  }

  /** With one parent each, a cycle reachable from the root contains the root. */
  lemma {:induction false} CycleContainsRoot(children: Children, root: Pid, q: Pid, n: nat)
    requires OneParent(children) && Walk(children, root, q, n) && Reach(children, q, q)
    ensures Reach(children, root, root)
    decreases n
  {
    if n > 0 {
      var above :| Edge(children, above, q) && Walk(children, root, above, n - 1);
      var m: nat :| m > 0 && Walk(children, q, q, m);
      var before :| Edge(children, before, q) && Walk(children, q, before, m - 1);
      assert before == above;
      ReachByEdge(children, above, q, above, m - 1);
      CycleContainsRoot(children, root, above, n - 1);
    }
  }

  /** Two ancestors of one pid are on one line. */
  lemma {:induction false} AncestorsAreOrdered(children: Children, a: Pid, b: Pid, x: Pid, m: nat, n: nat)
    requires OneParent(children) && Walk(children, a, x, m) && Walk(children, b, x, n)
    ensures a == b || Reach(children, a, b) || Reach(children, b, a)
    decreases m
  {
    if m > 0 && n > 0 {
      var r :| Edge(children, r, x) && Walk(children, a, r, m - 1);
      var s :| Edge(children, s, x) && Walk(children, b, s, n - 1);
      assert r == s;
      AncestorsAreOrdered(children, a, b, r, m - 1, n - 1);
    }
  }

  // ------------------------------------------------------------ the traversal

  function Nodes(children: Children): set<Pid> {
    set p, c | p in children && c in children[p] :: c
  }

  ghost function Below(children: Children, p: Pid): set<Pid> {
    set q | q in Nodes(children) && Reach(children, p, q)
  }

  lemma BelowIsReach(children: Children, p: Pid, q: Pid)
    ensures q in Below(children, p) <==> Reach(children, p, q)
  {
    if Reach(children, p, q) {
      var n: nat :| n > 0 && Walk(children, p, q, n);
      var r :| Edge(children, r, q) && Walk(children, p, r, n - 1);
      assert q in Nodes(children);
    }
  }

  /** No cycle can be reached from p. */
  ghost predicate Sound(children: Children, p: Pid) {
    !Reach(children, p, p) && forall q :: Reach(children, p, q) ==> !Reach(children, q, q)
  }

  lemma RootIsSound(children: Children, root: Pid)
    requires OneParent(children) && !Reach(children, root, root)
    ensures Sound(children, root)
  {
    forall q | Reach(children, root, q) ensures !Reach(children, q, q) {
      if Reach(children, q, q) {
        var n: nat :| n > 0 && Walk(children, root, q, n);
        CycleContainsRoot(children, root, q, n);
      }
    }
  }

  /** Visiting a child is visiting less. */
  lemma ChildIsSmaller(children: Children, p: Pid, c: Pid)
    requires Sound(children, p) && Edge(children, p, c)
    ensures Sound(children, c) && |Below(children, c)| < |Below(children, p)|
    ensures Reach(children, p, c)
  {
    EdgeIsWalk(children, p, c);
    forall q | Reach(children, c, q) ensures Reach(children, p, q) {
      ReachReach(children, p, c, q);
    }
    forall q ensures q in Below(children, c) ==> q in Below(children, p) {
      BelowIsReach(children, c, q);
      BelowIsReach(children, p, q);
    }
    BelowIsReach(children, p, c);
    BelowIsReach(children, c, c);
    Strictly(Below(children, c), Below(children, p), c);
  }

  lemma Strictly(small: set<Pid>, large: set<Pid>, x: Pid)
    requires small <= large && x in large && x !in small
    ensures |small| < |large|
  {
    assert large == {x} + (small + (large - {x} - small));
  }

  /** What visiting a parent appends. */
  ghost function Listing(children: Children, p: Pid): seq<Pid>
    requires Sound(children, p)
    decreases |Below(children, p)|, 1, 0
  {
    ListingOf(children, p, Of(children, p))
  }

  ghost function ListingOf(children: Children, p: Pid, list: seq<Pid>): seq<Pid>
    requires Sound(children, p) && list <= Of(children, p)
    decreases |Below(children, p)|, 0, |list|
  {
    if |list| == 0 then []
    else
      var n := |list| - 1;
      assert Edge(children, p, list[n]);
      ChildIsSmaller(children, p, list[n]);
      ListingOf(children, p, list[..n]) + Listing(children, list[n]) + [list[n]]
  }

  /** The closure of descendantPIDs and the slice it captures. */
  class Collector {
    var descendants: seq<Pid>
    const children: Children

    constructor (children: Children)
      ensures this.children == children && descendants == []
    {
      this.children := children;
      this.descendants := [];
    }

    method Visit(parent: Pid)
      requires Sound(children, parent)
      modifies this
      ensures descendants == old(descendants) + Listing(children, parent)
      decreases |Below(children, parent)|
    {
      var list := Of(children, parent);
      var i := 0;
      while i < |list|
        invariant 0 <= i <= |list|
        invariant descendants == old(descendants) + ListingOf(children, parent, list[..i])
      {
        var child := list[i];
        assert Edge(children, parent, child);
        ChildIsSmaller(children, parent, child);
        assert list[..i + 1][..i] == list[..i] && list[..i + 1] <= list;
        Visit(child);
        descendants := descendants + [child];
        i := i + 1;
      }
      assert list[..i] == list;
    }
  }

  // ------------------------------------------------------------ what is listed

  /** c itself or one of its descendants. */
  ghost predicate Under(children: Children, c: Pid, q: Pid) {
    q == c || Reach(children, c, q)
  }

  ghost predicate UnderSome(children: Children, list: seq<Pid>, q: Pid) {
    exists i :: 0 <= i < |list| && Under(children, list[i], q)
  }

  lemma {:induction false} ListingOfMembers(children: Children, p: Pid, list: seq<Pid>, q: Pid)
    requires Sound(children, p) && list <= Of(children, p)
    ensures q in ListingOf(children, p, list) <==> UnderSome(children, list, q)
    decreases |Below(children, p)|, 0, |list|
  {
    if |list| > 0 {
      var n := |list| - 1;
      assert Edge(children, p, list[n]);
      ChildIsSmaller(children, p, list[n]);
      ListingOfMembers(children, p, list[..n], q);
      ListingMembers(children, list[n], q);
      if UnderSome(children, list, q) && !Under(children, list[n], q) {
        var i :| 0 <= i < |list| && Under(children, list[i], q);
        assert list[..n][i] == list[i];
      }
    }
  }

  /** Exactly the proper descendants are listed. */
  lemma {:induction false} ListingMembers(children: Children, p: Pid, q: Pid)
    requires Sound(children, p)
    ensures q in Listing(children, p) <==> Reach(children, p, q)
    decreases |Below(children, p)|, 1, 0
  {
    var list := Of(children, p);
    ListingOfMembers(children, p, list, q);
    if UnderSome(children, list, q) {
      var i :| 0 <= i < |list| && Under(children, list[i], q);
      assert Edge(children, p, list[i]);
      ChildIsSmaller(children, p, list[i]);
      if q != list[i] {
        ReachReach(children, p, list[i], q);
      }
    }
    if Reach(children, p, q) {
      var n: nat :| n > 0 && Walk(children, p, q, n);
      var c := WalkStarts(children, p, q, n);
      var i :| 0 <= i < |list| && list[i] == c;
      assert n > 1 ==> Reach(children, c, q);
      assert Under(children, list[i], q);
    }
  }

  /** Once each, and every child before its parent. */
  ghost predicate Ordered(children: Children, listed: seq<Pid>) {
    && (forall i, j :: 0 <= i < j < |listed| ==> listed[i] != listed[j])
    && (forall i, j :: 0 <= i < |listed| && 0 <= j < |listed| && Edge(children, listed[j], listed[i]) ==> i < j)
  }

  /** Siblings have no descendants in common. */
  lemma SiblingsAreApart(children: Children, p: Pid, b: Pid, c: Pid, q: Pid)
    requires OneParent(children) && Sound(children, p) && Edge(children, p, b) && Edge(children, p, c) && b != c
    ensures !(Under(children, b, q) && Under(children, c, q))
  {
    if Under(children, b, q) && Under(children, c, q) {
      var m := LengthTo(children, b, q);
      var n := LengthTo(children, c, q);
      AncestorsAreOrdered(children, b, c, q, m, n);
      if Reach(children, b, c) {
        NotAboveSibling(children, p, b, c);
      } else {
        NotAboveSibling(children, p, c, b);
      }
    }
  }

  lemma LengthTo(children: Children, c: Pid, q: Pid) returns (n: nat)
    requires Under(children, c, q)
    ensures Walk(children, c, q, n)
  {
    if q == c {
      n := 0;
    } else {
      n :| n > 0 && Walk(children, c, q, n);
    }
  }

  lemma NotAboveSibling(children: Children, p: Pid, b: Pid, c: Pid)
    requires OneParent(children) && Edge(children, p, b) && Edge(children, p, c) && Reach(children, b, c)
    ensures Reach(children, p, p)
  {
    var n: nat :| n > 0 && Walk(children, b, c, n);
    var r :| Edge(children, r, c) && Walk(children, b, r, n - 1);
    assert r == p;
    ReachByEdge(children, p, b, p, n - 1);
  }

  lemma OrderedJoin(children: Children, a: seq<Pid>, b: seq<Pid>, c: Pid)
    requires Ordered(children, a) && Ordered(children, b)
    requires forall i, j :: 0 <= i < |a| && 0 <= j < |b| ==> a[i] != b[j] && !Edge(children, a[i], b[j])
    requires forall i :: 0 <= i < |a| ==> a[i] != c && !Edge(children, a[i], c)
    requires forall j :: 0 <= j < |b| ==> b[j] != c && !Edge(children, b[j], c)
    requires !Edge(children, c, c)
    ensures Ordered(children, a + b + [c])
  {
  }

  lemma {:induction false} ListingOfOrdered(children: Children, p: Pid, list: seq<Pid>)
    requires OneParent(children) && Sound(children, p) && list <= Of(children, p)
    ensures Ordered(children, ListingOf(children, p, list))
    decreases |Below(children, p)|, 0, |list|
  {
    if |list| > 0 {
      var n := |list| - 1;
      var c := list[n];
      assert Edge(children, p, c);
      ChildIsSmaller(children, p, c);
      ListingOfOrdered(children, p, list[..n]);
      ListingOfOrdered(children, c, Of(children, c));
      var a, b := ListingOf(children, p, list[..n]), Listing(children, c);
      forall j | 0 <= j < |b| ensures Reach(children, c, b[j]) && b[j] != c && !Edge(children, b[j], c) {
        ListingMembers(children, c, b[j]);
        if Edge(children, b[j], c) {
          assert b[j] == p;
          ReachReach(children, p, c, p);
        }
      }
      forall i | 0 <= i < |a|
        ensures a[i] != c && !Edge(children, a[i], c)
        ensures forall j :: 0 <= j < |b| ==> a[i] != b[j] && !Edge(children, a[i], b[j])
      {
        EarlierIsApart(children, p, list, a[i]);
        assert Under(children, c, c) && forall j :: 0 <= j < |b| ==> Under(children, c, b[j]);
      }
      if Edge(children, c, c) {
        EdgeIsWalk(children, c, c);
      }
      OrderedJoin(children, a, b, c);
    }
  }

  lemma EarlierIsApart(children: Children, p: Pid, list: seq<Pid>, x: Pid)
    requires OneParent(children) && Sound(children, p) && list <= Of(children, p) && |list| > 0
    requires x in ListingOf(children, p, list[..|list| - 1])
    ensures !Under(children, list[|list| - 1], x)
    ensures forall y :: Edge(children, x, y) ==> !Under(children, list[|list| - 1], y)
  {
    var n := |list| - 1;
    ListingOfMembers(children, p, list[..n], x);
    var i :| 0 <= i < n && Under(children, list[..n][i], x);
    var b := list[i];
    assert Edge(children, p, b) && Edge(children, p, list[n]) && b != list[n];
    SiblingsAreApart(children, p, b, list[n], x);
    forall y | Edge(children, x, y) ensures !Under(children, list[n], y) {
      var m := LengthTo(children, b, x);
      assert Edge(children, x, y) && Walk(children, b, x, m);
      assert Walk(children, b, y, m + 1);
      SiblingsAreApart(children, p, b, list[n], y);
    }
  }

  method DescendantPids(root: Pid, children: Children) returns (descendants: seq<Pid>)
    requires OneParent(children) && !Reach(children, root, root)
    ensures forall q :: q in descendants <==> Reach(children, root, q)
    ensures Ordered(children, descendants) && root !in descendants
  {
    RootIsSound(children, root);
    var collector := new Collector(children);
    collector.Visit(root);
    descendants := collector.descendants;
    assert descendants == Listing(children, root);
    forall q ensures q in descendants <==> Reach(children, root, q) {
      ListingMembers(children, root, q);
    }
    ListingOfOrdered(children, root, Of(children, root));
  }

  // ------------------------------------------------------------ termination

  /** The recursion cut off at a depth: None when some call goes deeper. */
  function Unrolled(children: Children, p: Pid, depth: nat): Option<seq<Pid>>
    decreases depth, 0
  {
    if depth == 0 then None else UnrolledOf(children, Of(children, p), depth - 1)
  }

  function UnrolledOf(children: Children, list: seq<Pid>, depth: nat): Option<seq<Pid>>
    decreases depth, |list| + 1
  {
    if |list| == 0 then Some([])
    else
      var n := |list| - 1;
      match (UnrolledOf(children, list[..n], depth), Unrolled(children, list[n], depth))
      case (Some(earlier), Some(below)) => Some(earlier + below + [list[n]])
      case _ => None
  }

  lemma {:induction false} EnoughDepth(children: Children, p: Pid, list: seq<Pid>, depth: nat)
    requires Sound(children, p) && list <= Of(children, p) && depth >= |Below(children, p)|
    ensures UnrolledOf(children, list, depth) == Some(ListingOf(children, p, list))
    decreases |Below(children, p)|, |list|
  {
    if |list| > 0 {
      var c := list[|list| - 1];
      assert Edge(children, p, c);
      ChildIsSmaller(children, p, c);
      EnoughDepth(children, p, list[..|list| - 1], depth);
      EnoughDepth(children, c, Of(children, c), depth - 1);
    }
  }

  lemma {:induction false} CycleNeverReturns(children: Children, p: Pid, depth: nat)
    requires Reach(children, p, p)
    ensures Unrolled(children, p, depth).None?
    decreases depth, 1, 0
  {
    if depth > 0 {
      var n: nat :| n > 0 && Walk(children, p, p, n);
      var c := WalkStarts(children, p, p, n);
      var i :| 0 <= i < |Of(children, p)| && Of(children, p)[i] == c;
      EdgeIsWalk(children, p, c);
      WalkThenWalk(children, c, p, c, n - 1, 1);
      OneNeverReturns(children, Of(children, p), i, depth - 1);
    }
  }

  lemma {:induction false} OneNeverReturns(children: Children, list: seq<Pid>, i: nat, depth: nat)
    requires i < |list| && Reach(children, list[i], list[i])
    ensures UnrolledOf(children, list, depth).None?
    decreases depth, 2, |list|
  {
    var n := |list| - 1;
    if i == n {
      CycleNeverReturns(children, list[n], depth);
    } else {
      OneNeverReturns(children, list[..n], i, depth);
    }
  }

  predicate ReturnsAt(children: Children, p: Pid, depth: nat) {
    Unrolled(children, p, depth).Some?
  }

  ghost predicate Returns(children: Children, p: Pid) {
    exists depth: nat :: ReturnsAt(children, p, depth)
  }

  /** The recursion returns exactly when the root is not its own ancestor, and then it is the listing. */
  lemma ReturnsExactlyWithoutRootCycle(children: Children, root: Pid)
    requires OneParent(children)
    ensures Returns(children, root) <==> !Reach(children, root, root)
    ensures Sound(children, root) ==> forall depth: nat :: ReturnsAt(children, root, depth) ==>
      Unrolled(children, root, depth).value == Listing(children, root)
  {
    if Reach(children, root, root) {
      forall depth: nat ensures !ReturnsAt(children, root, depth) {
        CycleNeverReturns(children, root, depth);
      }
    } else {
      RootIsSound(children, root);
      var depth := |Below(children, root)| + 1;
      EnoughDepth(children, root, Of(children, root), depth - 1);
      assert ReturnsAt(children, root, depth);
      forall d: nat | ReturnsAt(children, root, d)
        ensures Unrolled(children, root, d).value == Listing(children, root)
      {
        AnyDepth(children, root, Of(children, root), d - 1);
      }
    }
  }

  lemma {:induction false} AnyDepth(children: Children, p: Pid, list: seq<Pid>, depth: nat)
    requires Sound(children, p) && list <= Of(children, p) && UnrolledOf(children, list, depth).Some?
    ensures UnrolledOf(children, list, depth).value == ListingOf(children, p, list)
    decreases |Below(children, p)|, |list|
  {
    if |list| > 0 {
      var c := list[|list| - 1];
      assert Edge(children, p, c);
      ChildIsSmaller(children, p, c);
      AnyDepth(children, p, list[..|list| - 1], depth);
      AnyDepth(children, c, Of(children, c), depth - 1);
    }
  }
}
