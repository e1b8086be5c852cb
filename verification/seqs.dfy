/** Filtering sequences, with the laws the logs and the history need. */
module Seqs {

  datatype Option<+T> = None | Some(value: T)

  function Only<T>(x: T, p: T -> bool): seq<T> {
    if p(x) then [x] else []
  }

  function Filter<T>(s: seq<T>, p: T -> bool): (r: seq<T>)
    ensures |r| <= |s|
  {
    if |s| == 0 then [] else Only(s[0], p) + Filter(s[1..], p)
  }

  lemma {:induction false} FilterConcat<T>(a: seq<T>, b: seq<T>, p: T -> bool)
    ensures Filter(a + b, p) == Filter(a, p) + Filter(b, p)
  {
    if |a| == 0 {
      assert a + b == b;
    } else {
      assert (a + b)[1..] == a[1..] + b;
      FilterConcat(a[1..], b, p);
    }
  }

  lemma FilterStep<T>(s: seq<T>, x: T, p: T -> bool)
    ensures Filter(s + [x], p) == Filter(s, p) + Only(x, p)
  {
    FilterConcat(s, [x], p);
    assert Filter([x], p) == Only(x, p);
  }

  lemma {:induction false} FilterMembers<T>(s: seq<T>, p: T -> bool)
    ensures forall i :: 0 <= i < |Filter(s, p)| ==> p(Filter(s, p)[i]) && Filter(s, p)[i] in s
    ensures forall i :: 0 <= i < |s| && p(s[i]) ==> s[i] in Filter(s, p)
  {
    if |s| > 0 {
      FilterMembers(s[1..], p);
      var tail := Filter(s[1..], p);
      forall i | 0 <= i < |s| && p(s[i]) ensures s[i] in Filter(s, p) {
        if i == 0 {
          assert Filter(s, p)[0] == s[0];
        } else {
          assert s[i] == s[1..][i - 1];
          assert s[i] in tail;
        }
      }
    }
  }

  lemma {:induction false} FilterAll<T>(s: seq<T>, p: T -> bool)
    requires forall i :: 0 <= i < |s| ==> p(s[i])
    ensures Filter(s, p) == s
  {
    if |s| > 0 {
      FilterAll(s[1..], p);
      assert [s[0]] + s[1..] == s;
    }
  }

  lemma {:induction false} FilterNone<T>(s: seq<T>, p: T -> bool)
    requires forall i :: 0 <= i < |s| ==> !p(s[i])
    ensures Filter(s, p) == []
  {
    if |s| > 0 {
      FilterNone(s[1..], p);
    }
  }

  /** Two filters in a row are one, when the one is their conjunction on the elements. */
  lemma {:induction false} FilterTwice<T>(s: seq<T>, first: T -> bool, second: T -> bool, both: T -> bool)
    requires forall i :: 0 <= i < |s| ==> (both(s[i]) <==> first(s[i]) && second(s[i]))
    ensures Filter(Filter(s, first), second) == Filter(s, both)
  {
    if |s| > 0 {
      FilterTwice(s[1..], first, second, both);
      FilterConcat(Only(s[0], first), Filter(s[1..], first), second);
      assert Filter(Only(s[0], first), second) == Only(s[0], both);
    }
  }

  function AsSeq<T>(x: Option<T>): seq<T> {
    match x case Some(value) => [value] case None => []
  }

  function FilterMap<T, U>(s: seq<T>, f: T -> Option<U>): (r: seq<U>)
    ensures |r| <= |s|
  {
    if |s| == 0 then [] else AsSeq(f(s[0])) + FilterMap(s[1..], f)
  }

  lemma {:induction false} FilterMapConcat<T, U>(a: seq<T>, b: seq<T>, f: T -> Option<U>)
    ensures FilterMap(a + b, f) == FilterMap(a, f) + FilterMap(b, f)
  {
    if |a| == 0 {
      assert a + b == b;
    } else {
      assert (a + b)[1..] == a[1..] + b;
      FilterMapConcat(a[1..], b, f);
    }
  }

  lemma FilterMapOne<T, U>(x: T, f: T -> Option<U>)
    ensures FilterMap([x], f) == AsSeq(f(x))
  {
  }

  lemma {:induction false} FilterMapMember<T, U>(s: seq<T>, f: T -> Option<U>, y: U) returns (i: nat)
    requires y in FilterMap(s, f)
    ensures i < |s| && f(s[i]) == Some(y)
  {
    if y in AsSeq(f(s[0])) {
      i := 0;
    } else {
      var j := FilterMapMember(s[1..], f, y);
      i := j + 1;
    }
  }

  /** Exactly the element at k has an image, and it is y. */
  ghost predicate OnlyImage<T, U>(s: seq<T>, f: T -> Option<U>, y: U, k: int) {
    0 <= k < |s| && f(s[k]) == Some(y) && forall i :: 0 <= i < |s| && i != k ==> f(s[i]).None?
  }

  lemma {:induction false} NoImageExactly<T, U>(s: seq<T>, f: T -> Option<U>)
    ensures FilterMap(s, f) == [] <==> forall i :: 0 <= i < |s| ==> f(s[i]).None?
  {
    if |s| > 0 {
      NoImageExactly(s[1..], f);
      assert forall i :: 1 <= i < |s| ==> s[i] == s[1..][i - 1];
    }
  }

  lemma {:induction false} OneImageExactly<T, U>(s: seq<T>, f: T -> Option<U>, y: U)
    ensures FilterMap(s, f) == [y] <==> exists k :: OnlyImage(s, f, y, k)
  {
    hide FilterMap;
    if |s| > 0 {
      var rest := s[1..];
      OneImageExactly(rest, f, y);
      NoImageExactly(rest, f);
      FilterMapCons(s, f);
      assert forall i :: 1 <= i < |s| ==> s[i] == rest[i - 1];
      if f(s[0]).None? {
        assert forall k :: OnlyImage(rest, f, y, k) ==> OnlyImage(s, f, y, k + 1);
        assert forall k :: OnlyImage(s, f, y, k) ==> OnlyImage(rest, f, y, k - 1);
      } else {
        ConsIsOne(f(s[0]).value, FilterMap(rest, f), y);
        assert FilterMap(s, f) == [y] ==> OnlyImage(s, f, y, 0);
      }
    } else {
      assert FilterMap(s, f) == [] by { NoImageExactly(s, f); }
    }
  }

  lemma ConsIsOne<U>(x: U, rest: seq<U>, y: U)
    ensures [x] + rest == [y] <==> x == y && rest == []
  {
    assert |[x] + rest| == 1 + |rest| && ([x] + rest)[0] == x;
  }

  lemma FilterMapCons<T, U>(s: seq<T>, f: T -> Option<U>)
    requires |s| > 0
    ensures FilterMap(s, f) == AsSeq(f(s[0])) + FilterMap(s[1..], f)
    ensures f(s[0]).None? ==> FilterMap(s, f) == FilterMap(s[1..], f)
  {
  }

  lemma FilterMapStep<T, U>(s: seq<T>, i: nat, f: T -> Option<U>)
    requires i < |s|
    ensures FilterMap(s[..i + 1], f) == FilterMap(s[..i], f) + AsSeq(f(s[i]))
  {
    assert s[..i + 1] == s[..i] + [s[i]];
    FilterMapConcat(s[..i], [s[i]], f);
    FilterMapOne(s[i], f);
  }

  lemma FilterMapWithout<T, U>(s: seq<T>, j: nat, f: T -> Option<U>)
    requires j < |s|
    ensures multiset(FilterMap(s, f)) == multiset(AsSeq(f(s[j]))) + multiset(FilterMap(s[..j] + s[j + 1..], f))
  {
    hide FilterMap, AsSeq;
    var left, x, right := s[..j], s[j], s[j + 1..];
    Around(s, j);
    FilterMapConcat(left, [x] + right, f);
    FilterMapConcat([x], right, f);
    FilterMapOne(x, f);
    FilterMapConcat(left, right, f);
    Shuffled(FilterMap(left, f), AsSeq(f(x)), FilterMap(right, f));
  }

  lemma Around<T>(s: seq<T>, j: nat)
    requires j < |s|
    ensures s[..j] + ([s[j]] + s[j + 1..]) == s
  {
  }

  lemma Shuffled<T>(a: seq<T>, b: seq<T>, c: seq<T>)
    ensures multiset(a + (b + c)) == multiset(b) + multiset(a + c)
  {
  }

  lemma Removed<T>(a: seq<T>, b: seq<T>, j: nat)
    requires multiset(a) == multiset(b) && |a| > 0 && j < |b| && b[j] == a[0]
    ensures multiset(a[1..]) == multiset(b[..j] + b[j + 1..])
  {
    assert a == [a[0]] + a[1..];
    assert b == b[..j] + ([b[j]] + b[j + 1..]);
    assert multiset(a[1..]) == multiset(a) - multiset{a[0]};
    assert multiset(b[..j] + b[j + 1..]) == multiset(b) - multiset{a[0]};
  }

  /** Permuting the elements permutes what they map to. */
  lemma {:induction false} FilterMapPermutes<T, U>(a: seq<T>, b: seq<T>, f: T -> Option<U>)
    requires multiset(a) == multiset(b)
    ensures multiset(FilterMap(a, f)) == multiset(FilterMap(b, f))
    decreases |a|
  {
    hide FilterMap;
    assert |multiset(a)| == |a| && |multiset(b)| == |b|;
    if |a| > 0 {
      assert a[0] in multiset(b);
      var j :| 0 <= j < |b| && b[j] == a[0];
      Removed(a, b, j);
      FilterMapPermutes(a[1..], b[..j] + b[j + 1..], f);
      FilterMapWithout(b, j, f);
      FilterMapWithout(a, 0, f);
      assert a[..0] + a[1..] == a[1..];
    } else {
      assert a == b;
    }
  }

  function IfHolds<T>(p: T -> bool): T -> Option<T> {
    x => if p(x) then Some(x) else None
  }

  lemma {:induction false} FilterIsFilterMap<T>(s: seq<T>, p: T -> bool)
    ensures Filter(s, p) == FilterMap(s, IfHolds(p))
  {
    if |s| > 0 {
      FilterIsFilterMap(s[1..], p);
    }
  }

  lemma FilterPermutes<T>(a: seq<T>, b: seq<T>, p: T -> bool)
    requires multiset(a) == multiset(b)
    ensures multiset(Filter(a, p)) == multiset(Filter(b, p)) && |Filter(a, p)| == |Filter(b, p)|
  {
    FilterIsFilterMap(a, p);
    FilterIsFilterMap(b, p);
    FilterMapPermutes(a, b, IfHolds(p));
    assert |multiset(Filter(a, p))| == |Filter(a, p)| && |multiset(Filter(b, p))| == |Filter(b, p)|;
  }

  /** Keeping an element agrees with wanting what it maps to. */
  predicate Agrees<T, U>(x: T, f: T -> Option<U>, keep: T -> bool, want: U -> bool) {
    match f(x) case Some(y) => keep(x) <==> want(y) case None => true
  }

  lemma {:induction false} KeptWanted<T, U>(s: seq<T>, f: T -> Option<U>, keep: T -> bool, want: U -> bool)
    ensures |Filter(FilterMap(Filter(s, keep), f), want)| <= |Filter(FilterMap(s, f), want)|
  {
    if |s| > 0 {
      var head, tail := AsSeq(f(s[0])), FilterMap(s[1..], f);
      KeptWanted(s[1..], f, keep, want);
      FilterConcat(head, tail, want);
      FilterMapConcat(Only(s[0], keep), Filter(s[1..], keep), f);
      if keep(s[0]) {
        assert FilterMap([s[0]], f) == head;
        FilterConcat(head, FilterMap(Filter(s[1..], keep), f), want);
      } else {
        assert Filter(s, keep) == Filter(s[1..], keep);
      }
    }
  }

  /** Keeping at least what is wanted leaves at least as much. */
  lemma {:induction false} KeptAtLeastWanted<T, U>(s: seq<T>, f: T -> Option<U>, keep: T -> bool, want: U -> bool)
    requires forall i :: 0 <= i < |s| && f(s[i]).Some? && want(f(s[i]).value) ==> keep(s[i])
    ensures |Filter(FilterMap(s, f), want)| <= |FilterMap(Filter(s, keep), f)|
  {
    if |s| > 0 {
      KeptAtLeastWanted(s[1..], f, keep, want);
      FilterConcat(AsSeq(f(s[0])), FilterMap(s[1..], f), want);
      FilterMapConcat(Only(s[0], keep), Filter(s[1..], keep), f);
      if keep(s[0]) {
        FilterMapOne(s[0], f);
      }
    }
  }

  lemma {:induction false} FilterAgree<T>(s: seq<T>, p: T -> bool, q: T -> bool)
    requires forall i :: 0 <= i < |s| ==> (p(s[i]) <==> q(s[i]))
    ensures Filter(s, p) == Filter(s, q)
  {
    if |s| > 0 {
      FilterAgree(s[1..], p, q);
    }
  }

  ghost predicate AllAgree<T, U>(s: seq<T>, f: T -> Option<U>, keep: T -> bool, want: U -> bool) {
    forall i :: 0 <= i < |s| ==> Agrees(s[i], f, keep, want)
  }

  lemma AllAgreeStep<T, U>(s: seq<T>, f: T -> Option<U>, keep: T -> bool, want: U -> bool)
    requires |s| > 0
    ensures AllAgree(s, f, keep, want) <==> Agrees(s[0], f, keep, want) && AllAgree(s[1..], f, keep, want)
  {
    hide Agrees;
    assert forall i :: 1 <= i < |s| ==> s[i] == s[1..][i - 1];
  }

  lemma SameFront<T>(front: seq<T>, a: seq<T>, b: seq<T>)
    ensures front + a == front + b <==> a == b
  {
    assert (front + a)[|front|..] == a && (front + b)[|front|..] == b;
  }

  lemma OneAgrees<T, U>(x: T, f: T -> Option<U>, keep: T -> bool, want: U -> bool)
    requires Agrees(x, f, keep, want)
    ensures FilterMap(Only(x, keep), f) == Filter(AsSeq(f(x)), want)
  {
  }

  /** Filtering before mapping equals filtering after it exactly when keeping and wanting agree. */
  lemma {:induction false} FilterCommutesExactly<T, U>(s: seq<T>, f: T -> Option<U>, keep: T -> bool, want: U -> bool)
    ensures FilterMap(Filter(s, keep), f) == Filter(FilterMap(s, f), want) <==> AllAgree(s, f, keep, want)
  {
    if |s| > 0 {
      hide AllAgree, Agrees, AsSeq, Only;
      var head, tail := AsSeq(f(s[0])), FilterMap(s[1..], f);
      AllAgreeStep(s, f, keep, want);
      if Agrees(s[0], f, keep, want) {
        FilterCommutesExactly(s[1..], f, keep, want);
        FilterConcat(head, tail, want);
        FilterMapConcat(Only(s[0], keep), Filter(s[1..], keep), f);
        OneAgrees(s[0], f, keep, want);
        SameFront(Filter(head, want), FilterMap(Filter(s[1..], keep), f), Filter(tail, want));
      } else {
        DisagreementShows(s, f, keep, want);
      }
    }
  }

  lemma DisagreementShows<T, U>(s: seq<T>, f: T -> Option<U>, keep: T -> bool, want: U -> bool)
    requires |s| > 0 && !Agrees(s[0], f, keep, want)
    ensures FilterMap(Filter(s, keep), f) != Filter(FilterMap(s, f), want)
  {
    var head, tail := AsSeq(f(s[0])), FilterMap(s[1..], f);
    var kept, wanted := FilterMap(Filter(s, keep), f), Filter(FilterMap(s, f), want);
    FilterConcat(head, tail, want);
    if keep(s[0]) {
      assert kept[0] == head[0];
      FilterMembers(FilterMap(s, f), want);
    } else {
      KeptWanted(s[1..], f, keep, want);
      FilterMembers(FilterMap(s, f), want);
      assert Filter(s, keep) == Filter(s[1..], keep) && Filter(head, want) == head;
      assert |wanted| == 1 + |Filter(tail, want)|;
      if kept == wanted {
        FilterAll(kept, want);
      }
    }
  }
}
