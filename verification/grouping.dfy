/** Grouping items by key in order of first appearance, through an index from key to group. */
module Grouping {
  import opened Seqs

  datatype Group<T, K> = Group(key: K, items: seq<T>)

  function Under<T, K(==)>(keyOf: T -> K, key: K): T -> bool {
    x => keyOf(x) == key
  }

  /** A group holds exactly the items of its key, in order. */
  ghost predicate Complete<T, K>(s: seq<T>, keyOf: T -> K, group: Group<T, K>) {
    group.items == Filter(s, Under(keyOf, group.key)) && |group.items| > 0
  }

  ghost predicate HasGroup<T, K>(groups: seq<Group<T, K>>, key: K) {
    exists g :: 0 <= g < |groups| && groups[g].key == key
  }

  /** Key a appears in the items before key b does, if b does at all. */
  ghost predicate AppearsBefore<T, K>(s: seq<T>, keyOf: T -> K, a: K, b: K) {
    exists i :: 0 <= i < |s| && keyOf(s[i]) == a && forall j :: 0 <= j <= i ==> keyOf(s[j]) != b
  }

  ghost predicate InOrderOfAppearance<T, K>(s: seq<T>, keyOf: T -> K, groups: seq<Group<T, K>>) {
    forall g, h :: 0 <= g < h < |groups| ==> AppearsBefore(s, keyOf, groups[g].key, groups[h].key)
  }

  /** One complete group per key, and one for every item, in the order in which their keys first appear. */
  ghost predicate Partition<T, K>(s: seq<T>, keyOf: T -> K, groups: seq<Group<T, K>>) {
    && (forall a, b :: 0 <= a < b < |groups| ==> groups[a].key != groups[b].key)
    && (forall g :: 0 <= g < |groups| ==> Complete(s, keyOf, groups[g]))
    && (forall i :: 0 <= i < |s| ==> HasGroup(groups, keyOf(s[i])))
    && InOrderOfAppearance(s, keyOf, groups)
  }

  ghost predicate Indexed<T, K>(groups: seq<Group<T, K>>, indexes: map<K, nat>) {
    && (forall key :: key in indexes ==> indexes[key] < |groups| && groups[indexes[key]].key == key)
    && (forall g :: 0 <= g < |groups| ==> groups[g].key in indexes && indexes[groups[g].key] == g)
  }

  ghost predicate AllComplete<T, K>(s: seq<T>, keyOf: T -> K, groups: seq<Group<T, K>>) {
    forall g :: 0 <= g < |groups| ==> Complete(s, keyOf, groups[g])
  }

  ghost predicate Known<T, K>(s: seq<T>, keyOf: T -> K, indexes: map<K, nat>) {
    forall i :: 0 <= i < |s| ==> keyOf(s[i]) in indexes
  }

  /** The index and groups with room for a key. */
  function Room<T, K(==)>(groups: seq<Group<T, K>>, key: K, indexes: map<K, nat>): seq<Group<T, K>> {
    if key in indexes then groups else groups + [Group(key, [])]
  }

  function Noted<T, K(==)>(groups: seq<Group<T, K>>, key: K, indexes: map<K, nat>): map<K, nat> {
    if key in indexes then indexes else indexes[key := |groups|]
  }

  method GroupBy<T, K(==)>(s: seq<T>, keyOf: T -> K) returns (groups: seq<Group<T, K>>)
    ensures Partition(s, keyOf, groups)
  {
    hide Complete, AppearsBefore, InOrderOfAppearance, AllComplete, Known, Partition;
    groups := [];
    var indexes: map<K, nat> := map[];
    var i := 0;
    NoGroups(s[..0], keyOf, groups);
    while i < |s|
      invariant 0 <= i <= |s|
      invariant Indexed(groups, indexes)
      invariant AllComplete(s[..i], keyOf, groups)
      invariant Known(s[..i], keyOf, indexes)
      invariant InOrderOfAppearance(s[..i], keyOf, groups)
    {
      var key := keyOf(s[i]);
      PlaceKeepsIndex(s, i, keyOf, groups, indexes);
      PlaceCompletesAll(s, i, keyOf, groups, indexes);
      NotedIsKnown(s, i, keyOf, groups, indexes);
      PlaceKeepsOrder(s, i, keyOf, groups, indexes);
      if key !in indexes {
        indexes := indexes[key := |groups|];
        groups := groups + [Group(key, [])];
      }
      var index := indexes[key];
      groups := groups[index := Grown(groups[index], s[i])];
      i := i + 1;
    }
    assert s[..i] == s;
    IndexedIsPartition(s, keyOf, groups, indexes);
  }

  lemma NoGroups<T, K>(s: seq<T>, keyOf: T -> K, groups: seq<Group<T, K>>)
    requires |s| == 0 && |groups| == 0
    ensures AllComplete(s, keyOf, groups) && Known(s, keyOf, map[]) && InOrderOfAppearance(s, keyOf, groups)
  {
  }

  lemma IndexedIsPartition<T, K>(s: seq<T>, keyOf: T -> K, groups: seq<Group<T, K>>, indexes: map<K, nat>)
    requires Indexed(groups, indexes) && AllComplete(s, keyOf, groups) && Known(s, keyOf, indexes)
    requires InOrderOfAppearance(s, keyOf, groups)
    ensures Partition(s, keyOf, groups)
  {
    forall i | 0 <= i < |s| ensures HasGroup(groups, keyOf(s[i])) {
      assert groups[indexes[keyOf(s[i])]].key == keyOf(s[i]);
    }
  }

  lemma NotedIsKnown<T, K>(s: seq<T>, i: nat, keyOf: T -> K, groups: seq<Group<T, K>>, indexes: map<K, nat>)
    requires i < |s| && Known(s[..i], keyOf, indexes)
    ensures Known(s[..i + 1], keyOf, Noted(groups, keyOf(s[i]), indexes))
  {
    forall j | 0 <= j <= i ensures keyOf(s[j]) in Noted(groups, keyOf(s[i]), indexes) {
      assert j < i ==> s[j] == s[..i][j];
    }
  }

  function Grown<T, K>(group: Group<T, K>, item: T): Group<T, K> {
    group.(items := group.items + [item])
  }

  lemma PlaceKeepsIndex<T, K>(s: seq<T>, i: nat, keyOf: T -> K, groups: seq<Group<T, K>>, indexes: map<K, nat>)
    requires i < |s| && Indexed(groups, indexes)
    ensures var key := keyOf(s[i]);
            var known, roomy := Noted(groups, key, indexes), Room(groups, key, indexes);
            known[key] < |roomy| && Indexed(roomy[known[key] := Grown(roomy[known[key]], s[i])], known)
  {
  }

  lemma PlaceCompletes<T, K>(seen: seq<T>, item: T, keyOf: T -> K, groups: seq<Group<T, K>>, indexes: map<K, nat>, g: nat)
    requires Indexed(groups, indexes) && AllComplete(seen, keyOf, groups) && Known(seen, keyOf, indexes)
    requires g < |Room(groups, keyOf(item), indexes)|
    ensures var key := keyOf(item);
            var known, roomy := Noted(groups, key, indexes), Room(groups, key, indexes);
            Complete(seen + [item], keyOf, if g == known[key] then Grown(roomy[g], item) else roomy[g])
  {
    var key := keyOf(item);
    if g < |groups| {
      assert Complete(seen, keyOf, groups[g]);
      assert indexes[groups[g].key] == g;
      CompleteStep(seen, item, keyOf, groups[g]);
    } else {
      FilterNone(seen, Under(keyOf, key));
      CompleteStep(seen, item, keyOf, Group(key, []));
    }
  }

  lemma PlaceCompletesAll<T, K>(s: seq<T>, i: nat, keyOf: T -> K, groups: seq<Group<T, K>>, indexes: map<K, nat>)
    requires i < |s| && Indexed(groups, indexes) && AllComplete(s[..i], keyOf, groups) && Known(s[..i], keyOf, indexes)
    ensures var key := keyOf(s[i]);
            var known, roomy := Noted(groups, key, indexes), Room(groups, key, indexes);
            known[key] < |roomy|
            && AllComplete(s[..i + 1], keyOf, roomy[known[key] := Grown(roomy[known[key]], s[i])])
  {
    hide Complete;
    var roomy := Room(groups, keyOf(s[i]), indexes);
    assert s[..i + 1] == s[..i] + [s[i]];
    forall g | 0 <= g < |roomy| {
      PlaceCompletes(s[..i], s[i], keyOf, groups, indexes, g);
    }
  }

  lemma AppearedBefore<T, K>(s: seq<T>, i: nat, keyOf: T -> K, a: K, b: K)
    requires i < |s|
    requires AppearsBefore(s[..i], keyOf, a, b) || (SomeKey(s[..i], keyOf, a) && !SomeKey(s[..i], keyOf, b))
    ensures AppearsBefore(s[..i + 1], keyOf, a, b)
  {
    var k :| 0 <= k < i && keyOf(s[..i][k]) == a && forall j :: 0 <= j <= k ==> keyOf(s[..i][j]) != b;
    assert forall j :: 0 <= j <= k ==> s[..i + 1][j] == s[..i][j];
  }

  ghost predicate SomeKey<T, K>(s: seq<T>, keyOf: T -> K, key: K) {
    exists i :: 0 <= i < |s| && keyOf(s[i]) == key
  }

  lemma GroupsHaveItems<T, K>(s: seq<T>, keyOf: T -> K, group: Group<T, K>)
    requires Complete(s, keyOf, group)
    ensures SomeKey(s, keyOf, group.key)
  {
    FilterMembers(s, Under(keyOf, group.key));
    assert group.items[0] in s;
  }

  /** A new group goes last, and its key has not appeared before. */
  lemma PlaceKeepsOrder<T, K>(s: seq<T>, i: nat, keyOf: T -> K, groups: seq<Group<T, K>>, indexes: map<K, nat>)
    requires i < |s| && Indexed(groups, indexes) && AllComplete(s[..i], keyOf, groups) && Known(s[..i], keyOf, indexes)
    requires InOrderOfAppearance(s[..i], keyOf, groups)
    ensures var key := keyOf(s[i]);
            var known, roomy := Noted(groups, key, indexes), Room(groups, key, indexes);
            known[key] < |roomy|
            && InOrderOfAppearance(s[..i + 1], keyOf, roomy[known[key] := Grown(roomy[known[key]], s[i])])
  {
    hide Complete, AppearsBefore;
    var roomy := Room(groups, keyOf(s[i]), indexes);
    forall g, h | 0 <= g < h < |roomy| ensures AppearsBefore(s[..i + 1], keyOf, roomy[g].key, roomy[h].key) {
      GroupsHaveItems(s[..i], keyOf, groups[g]);
      AppearedBefore(s, i, keyOf, roomy[g].key, roomy[h].key);
    }
  }

  lemma CompleteStep<T, K>(seen: seq<T>, item: T, keyOf: T -> K, group: Group<T, K>)
    requires group.items == Filter(seen, Under(keyOf, group.key))
    ensures keyOf(item) == group.key ==> Complete(seen + [item], keyOf, Grown(group, item))
    ensures keyOf(item) != group.key && |group.items| > 0 ==> Complete(seen + [item], keyOf, group)
  {
    FilterStep(seen, item, Under(keyOf, group.key));
  }
}
