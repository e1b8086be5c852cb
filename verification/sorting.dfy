/** Stable sorting by a strict order, as sort.SliceStable does it, and the order of Go strings. */
module Sorting {
  import opened Seqs

  /** The order is a strict weak one: incomparability is an equivalence. */
  ghost predicate StrictWeak<T(!new)>(before: (T, T) -> bool) {
    && (forall x :: !before(x, x))
    && (forall x, y, z :: before(x, y) && before(y, z) ==> before(x, z))
    && (forall x, y, z :: !before(x, y) && !before(y, z) ==> !before(x, z))
  }

  ghost predicate Sorted<T>(s: seq<T>, before: (T, T) -> bool) {
    forall i, j :: 0 <= i < j < |s| ==> !before(s[j], s[i])
  }

  /** x goes after everything it is not before, looking from the end. */
  function Insert<T>(s: seq<T>, x: T, before: (T, T) -> bool): (r: seq<T>)
    ensures |r| == |s| + 1
  {
    if |s| > 0 && before(x, s[|s| - 1]) then Insert(s[..|s| - 1], x, before) + [s[|s| - 1]] else s + [x]
  }

  function Sort<T>(s: seq<T>, before: (T, T) -> bool): (r: seq<T>)
    ensures |r| == |s|
  {
    if |s| == 0 then [] else Insert(Sort(s[..|s| - 1], before), s[|s| - 1], before)
  }

  lemma {:induction false} InsertPermutes<T>(s: seq<T>, x: T, before: (T, T) -> bool)
    ensures multiset(Insert(s, x, before)) == multiset(s) + multiset{x}
  {
    if |s| > 0 && before(x, s[|s| - 1]) {
      InsertPermutes(s[..|s| - 1], x, before);
      assert s == s[..|s| - 1] + [s[|s| - 1]];
    }
  }

  lemma {:induction false} SortPermutes<T>(s: seq<T>, before: (T, T) -> bool)
    ensures multiset(Sort(s, before)) == multiset(s)
  {
    hide Insert;
    if |s| > 0 {
      var front, last := s[..|s| - 1], s[|s| - 1];
      SortPermutes(front, before);
      InsertPermutes(Sort(front, before), last, before);
      assert s == front + [last];
      assert multiset(s) == multiset(front) + multiset{last};
    }
  }

  lemma {:induction false} InsertSorts<T(!new)>(s: seq<T>, x: T, before: (T, T) -> bool)
    requires StrictWeak(before) && Sorted(s, before)
    ensures Sorted(Insert(s, x, before), before)
  {
    if |s| > 0 {
      var front, last := s[..|s| - 1], s[|s| - 1];
      if before(x, last) {
        InsertSorts(front, x, before);
        InsertPermutes(front, x, before);
        var r := Insert(front, x, before);
        forall i | 0 <= i < |r| ensures !before(last, r[i]) {
          assert r[i] in multiset(front) + multiset{x};
          assert r[i] in front || r[i] == x;
        }
      } else {
        forall i | 0 <= i < |s| ensures !before(x, s[i]) {
          assert i < |s| - 1 ==> !before(last, s[i]);
        }
      }
    }
  }

  lemma {:induction false} SortSorts<T(!new)>(s: seq<T>, before: (T, T) -> bool)
    requires StrictWeak(before)
    ensures Sorted(Sort(s, before), before)
  {
    if |s| > 0 {
      SortSorts(s[..|s| - 1], before);
      InsertSorts(Sort(s[..|s| - 1], before), s[|s| - 1], before);
    }
  }

  lemma {:induction false} SortOfSorted<T>(s: seq<T>, before: (T, T) -> bool)
    requires Sorted(s, before)
    ensures Sort(s, before) == s
  {
    if |s| > 0 {
      SortOfSorted(s[..|s| - 1], before);
    }
  }

  lemma {:induction false} InsertIsStable<T>(s: seq<T>, x: T, before: (T, T) -> bool, alike: T -> bool)
    requires forall i :: 0 <= i < |s| && alike(x) && alike(s[i]) ==> !before(x, s[i])
    ensures Filter(Insert(s, x, before), alike) == Filter(s + [x], alike)
  {
    FilterStep(s, x, alike);
    if |s| > 0 && before(x, s[|s| - 1]) {
      var front, last := s[..|s| - 1], s[|s| - 1];
      InsertIsStable(front, x, before, alike);
      FilterStep(Insert(front, x, before), last, alike);
      FilterStep(front, x, alike);
      FilterStep(front, last, alike);
      assert s == front + [last];
      assert Only(x, alike) + Only(last, alike) == Only(last, alike) + Only(x, alike);
    }
  }

  lemma SortedMember<T>(s: seq<T>, before: (T, T) -> bool, i: nat) returns (j: nat)
    requires i < |Sort(s, before)|
    ensures j < |s| && Sort(s, before)[i] == s[j]
  {
    SortPermutes(s, before);
    assert Sort(s, before)[i] in multiset(s);
    j :| 0 <= j < |s| && Sort(s, before)[i] == s[j];
  }

  /** Elements the order does not tell apart keep their order. */
  lemma {:induction false} SortIsStable<T>(s: seq<T>, before: (T, T) -> bool, alike: T -> bool)
    requires forall i, j :: 0 <= i < |s| && 0 <= j < |s| && alike(s[i]) && alike(s[j]) ==> !before(s[i], s[j])
    ensures Filter(Sort(s, before), alike) == Filter(s, alike)
  {
    hide Filter, Insert;
    if |s| > 0 {
      var front, last := s[..|s| - 1], s[|s| - 1];
      var sorted := Sort(front, before);
      SortIsStable(front, before, alike);
      forall i | 0 <= i < |sorted| && alike(last) && alike(sorted[i]) ensures !before(last, sorted[i]) {
        var j := SortedMember(front, before, i);
        assert front[j] == s[j];
      }
      InsertIsStable(sorted, last, before, alike);
      FilterStep(sorted, last, alike);
      FilterStep(front, last, alike);
      assert s == front + [last];
    }
  }

  ghost predicate Telling<T>(s: seq<T>, before: (T, T) -> bool) {
    forall i, j :: 0 <= i < |s| && 0 <= j < |s| && s[i] != s[j] ==> before(s[i], s[j]) || before(s[j], s[i])
  }

  lemma LastAgrees<T>(a: seq<T>, b: seq<T>, before: (T, T) -> bool)
    requires multiset(a) == multiset(b) && Sorted(a, before) && Sorted(b, before) && Telling(a, before)
    requires |a| == |b| > 0
    ensures a[|a| - 1] == b[|b| - 1]
  {
    var n := |a| - 1;
    assert a[n] in multiset(b) && b[n] in multiset(a);
    var i :| 0 <= i < |a| && a[i] == b[n];
    var j :| 0 <= j < |b| && b[j] == a[n];
    assert i < n ==> !before(a[n], a[i]);
    assert j < n ==> !before(b[n], b[j]);
  }

  lemma FrontsArePermutations<T>(a: seq<T>, b: seq<T>, n: nat)
    requires multiset(a) == multiset(b) && |a| == |b| == n + 1 && a[n] == b[n]
    ensures multiset(a[..n]) == multiset(b[..n])
  {
    assert a == a[..n] + [a[n]] && b == b[..n] + [b[n]];
    assert multiset(a[..n]) == multiset(a) - multiset{a[n]};
    assert multiset(b[..n]) == multiset(b) - multiset{b[n]};
  }

  /** Two sorted permutations agree when the order tells all different elements apart. */
  lemma {:induction false} SortedIsUnique<T>(a: seq<T>, b: seq<T>, before: (T, T) -> bool)
    requires multiset(a) == multiset(b) && Sorted(a, before) && Sorted(b, before) && Telling(a, before)
    ensures a == b
  {
    assert |multiset(a)| == |a| && |multiset(b)| == |b|;
    if |a| > 0 {
      var n := |a| - 1;
      LastAgrees(a, b, before);
      FrontsArePermutations(a, b, n);
      SortedIsUnique(a[..n], b[..n], before);
      assert a == a[..n] + [a[n]] && b == b[..n] + [b[n]];
    }
  }

  // ------------------------------------------------------------ keeping the last few

  function Last<T>(s: seq<T>, n: nat): (r: seq<T>) {
    if |s| <= n then s else s[|s| - n..]
  }

  lemma LastStep<T>(s: seq<T>, x: T, n: nat)
    requires n > 0
    ensures Last(s + [x], n) == Last(s, n - 1) + [x]
  {
  }

  /** Dropping early elements before an insertion or only after it ends the same. */
  lemma {:induction false} LastOfInsert<T>(s: seq<T>, x: T, before: (T, T) -> bool, n: nat)
    ensures Last(Insert(Last(s, n), x, before), n) == Last(Insert(s, x, before), n)
    decreases |s|
  {
    if |s| > n > 0 {
      var front, last := s[..|s| - 1], s[|s| - 1];
      assert s == front + [last];
      LastStep(front, last, n);
      if before(x, last) {
        LastOfInsert(front, x, before, n - 1);
        var few := Last(front, n - 1);
        assert (few + [last])[..|few|] == few;
        LastStep(Insert(few, x, before), last, n);
        LastStep(Insert(front, x, before), last, n);
      } else {
        LastStep(Last(s, n), x, n);
        LastStep(s, x, n);
      }
    }
  }

  lemma {:induction false} InsertPlaces<T>(s: seq<T>, x: T, before: (T, T) -> bool) returns (k: nat)
    ensures k <= |s| && Insert(s, x, before) == s[..k] + [x] + s[k..]
  {
    if |s| > 0 && before(x, s[|s| - 1]) {
      k := InsertPlaces(s[..|s| - 1], x, before);
    } else {
      k := |s|;
    }
  }

  // ------------------------------------------------------------ strings

  /** The byte order of strings. */
  predicate Less(a: string, b: string) {
    if |b| == 0 then false
    else if |a| == 0 then true
    else a[0] < b[0] || (a[0] == b[0] && Less(a[1..], b[1..]))
  }

  /** The texts agree up to a place where the first ends, or has the smaller character. */
  ghost predicate LessAt(a: string, b: string, k: int) {
    0 <= k <= |a| && k < |b| && a[..k] == b[..k] && (k == |a| || a[k] < b[k])
  }

  lemma {:induction false} LessIsLexicographic(a: string, b: string)
    ensures Less(a, b) <==> exists k :: LessAt(a, b, k)
  {
    if |b| == 0 {
    } else if |a| == 0 {
      assert LessAt(a, b, 0);
    } else if a[0] == b[0] {
      LessIsLexicographic(a[1..], b[1..]);
      forall k | LessAt(a[1..], b[1..], k) ensures LessAt(a, b, k + 1) {
        assert a[..k + 1] == [a[0]] + a[1..][..k] && b[..k + 1] == [b[0]] + b[1..][..k];
      }
      forall k | LessAt(a, b, k) ensures LessAt(a[1..], b[1..], k - 1) {
        assert a[..k][1..] == a[1..][..k - 1] && b[..k][1..] == b[1..][..k - 1];
      }
    } else {
      assert a[0] < b[0] ==> LessAt(a, b, 0);
      assert forall k :: LessAt(a, b, k) && k > 0 ==> a[..k][0] == b[..k][0];
    }
  }

  lemma {:induction false} LessIsTotal(a: string, b: string)
    ensures a != b ==> Less(a, b) || Less(b, a)
    ensures !(Less(a, b) && Less(b, a))
    ensures !Less(a, a)
  {
    if |a| > 0 {
      if |b| > 0 {
        LessIsTotal(a[1..], b[1..]);
        if a[0] == b[0] && a[1..] == b[1..] {
          assert a == [a[0]] + a[1..] && b == [b[0]] + b[1..];
        }
      }
      LessIsTotal(a[1..], a[1..]);
    }
  }

  lemma {:induction false} LessIsTransitive(a: string, b: string, c: string)
    requires Less(a, b) && Less(b, c)
    ensures Less(a, c)
  {
    if |a| > 0 && a[0] == b[0] == c[0] {
      LessIsTransitive(a[1..], b[1..], c[1..]);
    }
  }
}
