/** Adding up float64 values: a loop whose every addition may round. */
module Floats {
  import opened Seqs

  /** float64 arithmetic. A finite value stands for the real number it is; an operation may round as it likes. */
  datatype Arith = Arith(
    plus: (real, real) -> real, minus: (real, real) -> real, times: (real, real) -> real,
    over: (real, real) -> real, ofInt: int -> real)

  /** What the loop adds up, from the first value to the last. */
  function Sum(ar: Arith, values: seq<real>): real {
    if |values| == 0 then 0.0 else ar.plus(Sum(ar, values[..|values| - 1]), values[|values| - 1])
  }

  lemma SumStep(ar: Arith, values: seq<real>, x: real)
    ensures Sum(ar, values + [x]) == ar.plus(Sum(ar, values), x)
  {
    assert (values + [x])[..|values|] == values;
  }

  function Average(ar: Arith, values: seq<real>): real {
    if |values| == 0 then 0.0 else ar.over(Sum(ar, values), ar.ofInt(|values|))
  }

  /** average. */
  method AverageOf(ar: Arith, values: seq<real>) returns (average: real)
    ensures average == Average(ar, values)
  {
    if |values| == 0 {
      return 0.0;
    }
    var total := 0.0;
    for i := 0 to |values|
      invariant total == Sum(ar, values[..i])
    {
      assert values[..i + 1][..i] == values[..i];
      total := ar.plus(total, values[i]);
    }
    assert values[..|values|] == values;
    average := ar.over(total, ar.ofInt(|values|));
  }

  // ------------------------------------------------------------ sums without rounding

  function Total(values: seq<real>): real {
    if |values| == 0 then 0.0 else Total(values[..|values| - 1]) + values[|values| - 1]
  }

  lemma {:induction false} TotalConcat(a: seq<real>, b: seq<real>)
    ensures Total(a + b) == Total(a) + Total(b)
  {
    if |b| == 0 {
      assert a + b == a;
    } else {
      TotalConcat(a, b[..|b| - 1]);
      assert (a + b)[..|a + b| - 1] == a + b[..|b| - 1];
    }
  }

  lemma TotalWithout(s: seq<real>, j: nat)
    requires j < |s|
    ensures Total(s) == s[j] + Total(s[..j] + s[j + 1..])
  {
    hide Total;
    Around(s, j);
    TotalConcat(s[..j], [s[j]] + s[j + 1..]);
    TotalConcat([s[j]], s[j + 1..]);
    TotalConcat(s[..j], s[j + 1..]);
    TotalOne(s[j]);
  }

  lemma TotalOne(x: real)
    ensures Total([x]) == x && Total([]) == 0.0
  {
    assert [x][..0] == [];
  }

  lemma {:induction false} TotalPermutes(a: seq<real>, b: seq<real>)
    requires multiset(a) == multiset(b)
    ensures Total(a) == Total(b)
    decreases |a|
  {
    hide Total;
    assert |multiset(a)| == |a| && |multiset(b)| == |b|;
    if |a| > 0 {
      assert a[0] in multiset(b);
      var j :| 0 <= j < |b| && b[j] == a[0];
      Removed(a, b, j);
      TotalPermutes(a[1..], b[..j] + b[j + 1..]);
      TotalWithout(b, j);
      TotalWithout(a, 0);
      assert a[..0] + a[1..] == a[1..];
    } else {
      assert a == b;
    }
  }

  /** No addition of the loop rounds. */
  ghost predicate Exact(ar: Arith, values: seq<real>) {
    |values| == 0
    || (var front, last := values[..|values| - 1], values[|values| - 1];
        Exact(ar, front) && ar.plus(Sum(ar, front), last) == Sum(ar, front) + last)
  }

  lemma {:induction false} ExactIsTotal(ar: Arith, values: seq<real>)
    requires Exact(ar, values)
    ensures Sum(ar, values) == Total(values)
  {
    if |values| > 0 {
      ExactIsTotal(ar, values[..|values| - 1]);
    }
  }

  /** Where nothing rounds in either order, both orders give the same. */
  lemma ExactSumsAgree(ar: Arith, a: seq<real>, b: seq<real>)
    requires multiset(a) == multiset(b) && Exact(ar, a) && Exact(ar, b)
    ensures Sum(ar, a) == Sum(ar, b)
  {
    ExactIsTotal(ar, a);
    ExactIsTotal(ar, b);
    TotalPermutes(a, b);
  }

  const EXACT: int := 0x20_0000_0000_0000

  predicate AddsExactly(ar: Arith, m: int, n: int) {
    ar.ofInt(n) == n as real && ar.plus(m as real, n as real) == (m + n) as real
  }

  /** As in float64, integers up to 2^53 are values, and adding them does not round within that bound. */
  ghost predicate ExactOnIntegers(ar: Arith) {
    forall m: int, n: int :: -EXACT <= m <= EXACT && -EXACT <= n <= EXACT && -EXACT <= m + n <= EXACT ==>
      AddsExactly(ar, m, n)
  }

  // ------------------------------------------------------------ when the order does not matter

  /** Every order of the values adds up to the same. */
  ghost predicate OrdersAgree(ar: Arith, values: seq<real>) {
    forall b: seq<real> :: multiset(b) == multiset(values) ==> Sum(ar, b) == Sum(ar, values)
  }

  function Between(front: seq<real>, x: real, y: real, back: seq<real>): seq<real> {
    front + ([x] + ([y] + back))
  }

  /** In no order of the values does exchanging two neighbours change the sum. */
  ghost predicate NeighboursSwap(ar: Arith, values: seq<real>) {
    forall front: seq<real>, x: real, y: real, back: seq<real> ::
      multiset(Between(front, x, y, back)) == multiset(values) ==>
        Sum(ar, Between(front, x, y, back)) == Sum(ar, Between(front, y, x, back))
  }

  lemma SwapPermutes(front: seq<real>, x: real, y: real, back: seq<real>)
    ensures multiset(Between(front, x, y, back)) == multiset(Between(front, y, x, back))
  {
  }

  lemma SwapOnce(ar: Arith, values: seq<real>, front: seq<real>, x: real, y: real, back: seq<real>)
    requires NeighboursSwap(ar, values) && multiset(Between(front, x, y, back)) == multiset(values)
    ensures Sum(ar, Between(front, x, y, back)) == Sum(ar, Between(front, y, x, back))
    ensures multiset(Between(front, y, x, back)) == multiset(values)
  {
    hide Sum, Between;
    SwapPermutes(front, x, y, back);
  }

  /** The values with x in front of the middle ones, respectively behind them. */
  function Before(front: seq<real>, x: real, middle: seq<real>, back: seq<real>): seq<real> {
    front + ([x] + (middle + back))
  }

  function Behind(front: seq<real>, x: real, middle: seq<real>, back: seq<real>): seq<real> {
    front + (middle + ([x] + back))
  }

  lemma Regroup(front: seq<real>, x: real, middle: seq<real>, back: seq<real>)
    requires |middle| > 0
    ensures Before(front, x, middle, back) == Between(front, x, middle[0], middle[1..] + back)
    ensures Between(front, middle[0], x, middle[1..] + back) == Before(front + [middle[0]], x, middle[1..], back)
    ensures Behind(front + [middle[0]], x, middle[1..], back) == Behind(front, x, middle, back)
  {
    assert middle == [middle[0]] + middle[1..];
  }

  lemma NothingBetween(front: seq<real>, x: real, back: seq<real>)
    ensures Before(front, x, [], back) == Behind(front, x, [], back)
  {
  }

  /** A value moved behind those that follow it, neighbour by neighbour. */
  lemma {:induction false} MovesBack(
    ar: Arith, values: seq<real>, front: seq<real>, x: real, middle: seq<real>, back: seq<real>)
    requires NeighboursSwap(ar, values) && multiset(Before(front, x, middle, back)) == multiset(values)
    ensures Sum(ar, Before(front, x, middle, back)) == Sum(ar, Behind(front, x, middle, back))
    ensures multiset(Behind(front, x, middle, back)) == multiset(values)
    decreases |middle|
  {
    hide Sum, Between, Before, Behind, NeighboursSwap;
    if |middle| == 0 {
      NothingBetween(front, x, back);
    } else {
      Regroup(front, x, middle, back);
      SwapOnce(ar, values, front, x, middle[0], middle[1..] + back);
      MovesBack(ar, values, front + [middle[0]], x, middle[1..], back);
    }
  }

  lemma Extracted(b: seq<real>, back: seq<real>, j: nat)
    requires j < |b|
    ensures b + back == Before(b[..j], b[j], b[j + 1..], back)
    ensures Behind(b[..j], b[j], b[j + 1..], back) == (b[..j] + b[j + 1..]) + ([b[j]] + back)
  {
  }

  lemma LastRegrouped(a: seq<real>, back: seq<real>)
    requires |a| > 0
    ensures a[..|a| - 1] + ([a[|a| - 1]] + back) == a + back
  {
  }

  lemma LastRemoved(a: seq<real>, b: seq<real>, j: nat)
    requires |a| > 0 && multiset(a) == multiset(b) && j < |b| && b[j] == a[|a| - 1]
    ensures multiset(a[..|a| - 1]) == multiset(b[..j] + b[j + 1..])
  {
    assert a == a[..|a| - 1] + [a[|a| - 1]];
    assert b == b[..j] + ([b[j]] + b[j + 1..]);
    assert multiset(a[..|a| - 1]) == multiset(a) - multiset{b[j]};
    assert multiset(b[..j] + b[j + 1..]) == multiset(b) - multiset{b[j]};
  }

  /** Neighbour by neighbour, any order of some values becomes any other. */
  lemma {:induction false} SortedInto(ar: Arith, values: seq<real>, a: seq<real>, b: seq<real>, back: seq<real>)
    requires NeighboursSwap(ar, values) && multiset(a) == multiset(b) && multiset(b + back) == multiset(values)
    ensures Sum(ar, b + back) == Sum(ar, a + back)
    decreases |a|
  {
    hide Sum, NeighboursSwap, Before, Behind;
    assert |multiset(a)| == |a| && |multiset(b)| == |b|;
    if |a| == 0 {
      assert a == b;
    } else {
      var front, x := a[..|a| - 1], a[|a| - 1];
      assert x in multiset(a);
      var j :| 0 <= j < |b| && b[j] == x;
      Extracted(b, back, j);
      LastRegrouped(a, back);
      LastRemoved(a, b, j);
      MovesBack(ar, values, b[..j], x, b[j + 1..], back);
      SortedInto(ar, values, front, b[..j] + b[j + 1..], [x] + back);
    }
  }

  /** All orders of some values add up to the same, if and only if exchanging neighbours never shows. */
  lemma OrdersAgreeExactlyWhenNeighboursSwap(ar: Arith, values: seq<real>)
    ensures OrdersAgree(ar, values) <==> NeighboursSwap(ar, values)
  {
    hide Sum, Between;
    if NeighboursSwap(ar, values) {
      forall b: seq<real> | multiset(b) == multiset(values) ensures Sum(ar, b) == Sum(ar, values) {
        assert b + [] == b && values + [] == values;
        SortedInto(ar, values, values, b, []);
      }
    }
    if OrdersAgree(ar, values) {
      forall front: seq<real>, x: real, y: real, back: seq<real>
        | multiset(Between(front, x, y, back)) == multiset(values)
        ensures Sum(ar, Between(front, x, y, back)) == Sum(ar, Between(front, y, x, back))
      {
        SwapPermutes(front, x, y, back);
      }
    }
  }

  // ------------------------------------------------------------ rounding to 53 bits

  /** The integer nearest to a quotient, of two the even one. */
  function Nearest(num: nat, den: nat): nat
    requires den > 0
  {
    var q, r := num / den, num % den;
    if 2 * r < den || (2 * r == den && q % 2 == 0) then q else q + 1
  }

  /** Integers with at most 53 significant bits. */
  predicate IsFloat(n: nat) {
    n <= EXACT || (n % 2 == 0 && IsFloat(n / 2))
  }

  /** A quotient rounded to 53 significant bits, or to an integer where that is coarser. */
  function Rounded(num: nat, den: nat): (r: nat)
    requires den > 0
    ensures IsFloat(r)
    decreases if num < den then 0 else num - den
  {
    if num < den * EXACT then NearestIsFloat(num, den); Nearest(num, den)
    else
      var half := Rounded(num, 2 * den);
      assert 2 * half % 2 == 0 && 2 * half / 2 == half;
      2 * half
  }

  lemma NearestIsFloat(num: nat, den: nat)
    requires den > 0 && num < den * EXACT
    ensures Nearest(num, den) <= EXACT
  {
    assert num / den < EXACT;
  }

  function Distance(a: int, b: int): nat {
    if a < b then b - a else a - b
  }

  lemma Scales(a: int, b: int, den: nat)
    ensures a <= b ==> a * den <= b * den
  {
  }

  lemma NearestIsClosest(num: nat, den: nat, q: nat)
    requires den > 0
    ensures Distance(num, Nearest(num, den) * den) <= Distance(num, q * den)
  {
    var low, rest := num / den, num % den;
    assert num == low * den + rest && (low + 1) * den == low * den + den;
    Scales(q, low, den);
    Scales(low + 1, q, den);
  }

  /** No value of 53 significant bits is closer. */
  lemma {:induction false} RoundedIsClosest(num: nat, den: nat, q: nat)
    requires den > 0 && IsFloat(q)
    ensures Distance(num, Rounded(num, den) * den) <= Distance(num, q * den)
    decreases if num < den then 0 else num - den
  {
    if num < den * EXACT {
      NearestIsClosest(num, den, q);
    } else {
      var half := Rounded(num, 2 * den);
      Doubled(half, den);
      if q % 2 == 0 {
        RoundedIsClosest(num, 2 * den, q / 2);
        Doubled(q / 2, den);
      } else {
        RoundedIsClosest(num, 2 * den, EXACT / 2);
        Doubled(EXACT / 2, den);
        Scales(q, EXACT, den);
      }
    }
  }

  lemma Doubled(n: nat, den: nat)
    ensures (2 * n) * den == n * (2 * den)
  {
  }

  /** A value of 53 significant bits is not rounded. */
  lemma FloatsStay(n: nat)
    requires IsFloat(n)
    ensures Rounded(n, 1) == n
  {
    hide Rounded, IsFloat;
    RoundedIsClosest(n, 1, n);
    assert Distance(n, n * 1) == 0;
  }

  // ------------------------------------------------------------ binary64

  const UNIT: real := 36028797018963968.0   // 2^55

  /** A multiple of 2^-55. */
  function Value(n: nat): real {
    n as real / UNIT
  }

  predicate AddsRounded(ar: Arith, m: nat, n: nat) {
    ar.plus(Value(m), Value(n)) == Value(Rounded(m + n, 1))
  }

  predicate DividesRounded(ar: Arith, m: nat, d: nat)
    requires d > 0
  {
    ar.over(Value(m), ar.ofInt(d)) == Value(Rounded(m, d))
  }

  /** What IEEE 754 fixes of sums of positive float64 values that are multiples of 2^-55, and of their quotients by a
      count, as far as these are at least 2^-3, so that no bit of them lies below 2^-55. */
  ghost predicate Binary64(ar: Arith) {
    && (forall m: nat, n: nat :: IsFloat(m) && IsFloat(n) ==> AddsRounded(ar, m, n))
    && (forall m: nat, d: nat :: IsFloat(m) && 0 < d <= EXACT && d * (EXACT / 2) <= m ==> DividesRounded(ar, m, d))
  }

  const TENTH: nat := 3602879701896397        // the float64 values nearest to 0.1, 0.2 and 0.3
  const FIFTH: nat := 7205759403792794
  const THREE_TENTHS: nat := 10808639105689190

  lemma Roundings()
    ensures Rounded(TENTH + FIFTH, 1) == 10808639105689192
    ensures Rounded(10808639105689192 + THREE_TENTHS, 1) == 21617278211378384
    ensures Rounded(THREE_TENTHS + FIFTH, 1) == 18014398509481984
    ensures Rounded(18014398509481984 + TENTH, 1) == 21617278211378380
    ensures Rounded(21617278211378384, 3) == 7205759403792795
    ensures Rounded(21617278211378380, 3) == 7205759403792793
  {
    assert Rounded(21617278211378382, 4) == 5404319552844596;
    assert Rounded(21617278211378381, 4) == 5404319552844595;
  }

  lemma Parts(ar: Arith, x: real, y: real, z: real)
    ensures Sum(ar, [x, y, z]) == ar.plus(ar.plus(ar.plus(0.0, x), y), z)
  {
    assert [x, y, z] == [] + [x] + [y] + [z];
    SumStep(ar, [], x);
    SumStep(ar, [] + [x], y);
    SumStep(ar, [] + [x] + [y], z);
  }

  lemma Adds(ar: Arith, m: nat, n: nat)
    requires Binary64(ar) && IsFloat(m) && IsFloat(n)
    ensures ar.plus(Value(m), Value(n)) == Value(Rounded(m + n, 1)) && IsFloat(Rounded(m + n, 1))
  {
    hide Value, Rounded, IsFloat;
    assert AddsRounded(ar, m, n);
  }

  lemma AddsToZero(ar: Arith, n: nat)
    requires Binary64(ar) && IsFloat(n)
    ensures ar.plus(0.0, Value(n)) == Value(n)
  {
    hide Rounded, Binary64;
    FloatsStay(n);
    Adds(ar, 0, n);
  }

  lemma ThreeAreFloats()
    ensures IsFloat(TENTH) && IsFloat(FIFTH) && IsFloat(THREE_TENTHS)
  {
    assert IsFloat(THREE_TENTHS / 2);
  }

  /** 0.1 + 0.2 + 0.3 and 0.3 + 0.2 + 0.1 differ, and so do their thirds. */
  lemma OrderShows(ar: Arith)
    requires Binary64(ar)
    ensures Sum(ar, [Value(TENTH), Value(FIFTH), Value(THREE_TENTHS)]) == Value(21617278211378384)
    ensures Sum(ar, [Value(THREE_TENTHS), Value(FIFTH), Value(TENTH)]) == Value(21617278211378380)
    ensures ar.over(Value(21617278211378384), ar.ofInt(3)) == Value(7205759403792795)
    ensures ar.over(Value(21617278211378380), ar.ofInt(3)) == Value(7205759403792793)
  {
    hide Value, Rounded, IsFloat, Sum;
    ThreeAreFloats();
    Roundings();
    Parts(ar, Value(TENTH), Value(FIFTH), Value(THREE_TENTHS));
    AddsToZero(ar, TENTH);
    Adds(ar, TENTH, FIFTH);
    Adds(ar, 10808639105689192, THREE_TENTHS);
    Parts(ar, Value(THREE_TENTHS), Value(FIFTH), Value(TENTH));
    AddsToZero(ar, THREE_TENTHS);
    Adds(ar, THREE_TENTHS, FIFTH);
    Adds(ar, 18014398509481984, TENTH);
    assert DividesRounded(ar, 21617278211378384, 3) && DividesRounded(ar, 21617278211378380, 3);
  }
}
