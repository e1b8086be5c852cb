/** The nearest-rank percentile of the replay report, over the reals. */
module Percentile {
  import opened Seqs
  import opened Sorting

  predicate Below(a: real, b: real) {
    a < b
  }

  /** How many values are at most v. */
  function AtMost(values: seq<real>, v: real): nat {
    |Filter(values, (x: real) => x <= v)|
  }

  ghost predicate Covers(values: seq<real>, v: real) {
    100 * AtMost(values, v) >= 95 * |values|
  }

  /** A member that is at most exactly the values covering 95 percent, so the least of those. */
  ghost predicate IsPercentile(values: seq<real>, p: real) {
    if |values| == 0 then p == 0.0 else p in values && forall v :: Covers(values, v) <==> p <= v
  }

  function Rank(n: nat): int {
    (95 * n + 99) / 100 - 1
  }

  lemma EnoughAtMost(s: seq<real>, k: nat, v: real)
    requires Sorted(s, Below) && k < |s| && s[k] <= v
    ensures AtMost(s, v) >= k + 1
  {
    var p := (x: real) => x <= v;
    FilterConcat(s[..k + 1], s[k + 1..], p);
    assert s == s[..k + 1] + s[k + 1..];
    assert forall i :: 0 <= i < k ==> !Below(s[k], s[i]);
    FilterAll(s[..k + 1], p);
  }

  lemma FewAtMost(s: seq<real>, k: nat, v: real)
    requires Sorted(s, Below) && k < |s| && v < s[k]
    ensures AtMost(s, v) <= k
  {
    var p := (x: real) => x <= v;
    FilterConcat(s[..k], s[k..], p);
    assert s == s[..k] + s[k..];
    assert forall i :: k < i < |s| ==> !Below(s[i], s[k]);
    FilterNone(s[k..], p);
  }

  /** The value at the rank is the least of all that are at least as large as 95 percent of the values. */
  lemma RankIsLeastCover(s: seq<real>, v: real)
    requires Sorted(s, Below) && |s| > 0
    ensures 0 <= Rank(|s|) < |s|
    ensures Covers(s, v) <==> s[Rank(|s|)] <= v
  {
    hide AtMost, Sorted;
    var k := Rank(|s|);
    assert 0 <= k < |s| && 100 * (k + 1) >= 95 * |s| > 100 * k;
    if s[k] <= v {
      EnoughAtMost(s, k, v);
    } else {
      FewAtMost(s, k, v);
    }
  }

  lemma BelowIsStrictWeak()
    ensures StrictWeak(Below)
  {
  }

  method Percentile95(values: seq<real>) returns (p: real)
    ensures IsPercentile(values, p)
  {
    hide Sort, Filter, Covers, Rank;
    if |values| == 0 {
      return 0.0;
    }
    var sorted := Sort(values, Below);
    BelowIsStrictWeak();
    SortSorts(values, Below);
    SortPermutes(values, Below);
    RankIsLeastCover(sorted, 0.0);
    assert (95 * |sorted| + 99) / 100 - 1 == Rank(|sorted|) by { RankIs(|sorted|); }
    var index := (95 * |sorted| + 99) / 100 - 1;
    p := sorted[index];
    assert p in multiset(sorted);
    forall v ensures Covers(values, v) <==> p <= v {
      RankIsLeastCover(sorted, v);
      CoversPermutes(values, sorted, v);
    }
  }

  lemma RankIs(n: nat)
    ensures Rank(n) == (95 * n + 99) / 100 - 1
  {
  }

  lemma CoversPermutes(a: seq<real>, b: seq<real>, v: real)
    requires multiset(a) == multiset(b) && |a| == |b|
    ensures Covers(a, v) <==> Covers(b, v)
  {
    FilterPermutes(a, b, (x: real) => x <= v);
  }

  /** That says which value it is, and in whatever order the values come. */
  lemma PercentileIsOneValue(a: seq<real>, b: seq<real>, p: real, q: real)
    requires multiset(a) == multiset(b) && IsPercentile(a, p) && IsPercentile(b, q)
    ensures p == q
  {
    hide Covers;
    assert |multiset(a)| == |a| && |multiset(b)| == |b|;
    if |a| > 0 {
      CoversPermutes(a, b, p);
      CoversPermutes(a, b, q);
    }
  }
}
