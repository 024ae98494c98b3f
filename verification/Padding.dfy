// The padding between two pieces: powers of two that fill up to a multiple of the new piece.
module Padding {
  import opened Base
  import opened Powers

  // ---------------------------------------------------------------- multiples

  ghost predicate Multiple(x: int, d: nat)
    requires d > 0
  {
    exists q: int :: x == Times(d, q)
  }

  // Multiplication by itself, so that it is used only where it is needed.
  ghost function Times(d: int, q: int): (r: int) {
    d * q
  }

  lemma MultipleDifference(x: int, y: int, d: nat)
    requires d > 0 && Multiple(x, d) && Multiple(y, d)
    ensures Multiple(x - y, d)
  {
    var p :| x == Times(d, p);
    var q :| y == Times(d, q);
    assert x - y == Times(d, p - q);
  }

  lemma MultipleOfFactor(x: int, d: nat, k: nat)
    requires d > 0 && k > 0 && Times(d, k) > 0 && Multiple(x, Times(d, k))
    ensures Multiple(x, d)
  {
    var q :| x == Times(Times(d, k), q);
    assert x == Times(d, Times(k, q));
  }

  lemma {:induction false} PowersNest(j: nat, k: nat)
    requires j <= k
    ensures Multiple(Pow2(k), Pow2(j))
    decreases k - j
  {
    if j == k {
      assert Pow2(k) == Times(Pow2(j), 1);
    } else {
      PowersNest(j + 1, k);
      DoubleFactor(Pow2(k), Pow2(j));
    }
  }

  lemma DoubleFactor(x: int, d: nat)
    requires d > 0 && Multiple(x, 2 * d)
    ensures Multiple(x, d)
  {
    assert Times(d, 2) == 2 * d;
    MultipleOfFactor(x, d, 2);
  }

  lemma MultipleOfPower(x: int, j: nat, k: nat)
    requires j <= k && Multiple(x, Pow2(k))
    ensures Multiple(x, Pow2(j))
    decreases k - j
  {
    if j < k {
      DoubleFactor(x, Pow2(k - 1));
      MultipleOfPower(x, j, k - 1);
    }
  }

  lemma RemainderIsMultiple(x: int, d: nat)
    requires d > 0
    ensures Multiple(x - x % d, d)
    ensures x % d == 0 <==> Multiple(x, d)
  {
    assert x - x % d == Times(d, x / d);
    if Multiple(x, d) {
      var q :| x == Times(d, q);
      ExactDivision(q, d, x % d, x / d);
    }
  }

  lemma ExactDivision(q: int, d: nat, r: int, p: int)
    requires d > 0 && 0 <= r < d && Times(d, q) == Times(d, p) + r
    ensures r == 0
  {
    assert Times(d, q - p) == r;
    TimesBound(d, q - p);
  }

  lemma TimesBound(d: nat, z: int)
    ensures z >= 1 ==> Times(d, z) >= d
    ensures z <= -1 ==> Times(d, z) + d <= 0
  {
  }

  // ---------------------------------------------------------------- bits

  function Ones(n: nat): (c: nat)
    ensures c == 0 <==> n == 0
  {
    if n == 0 then 0 else n % 2 + Ones(n / 2)
  }

  // Zeros below the lowest one.
  function Zeros(n: nat): (c: nat)
    requires n > 0
  {
    if n % 2 == 1 then 0 else 1 + Zeros(n / 2)
  }

  method CountSetBits(n: U64) returns (count: nat)
    ensures count == Ones(n)
  {
    count := 0;
    var m: nat := n;
    while m != 0
      invariant count + Ones(m) == Ones(n)
      decreases m
    {
      count := count + m % 2;
      m := m / 2;
    }
  }

  method CountTrailingZeros(n: U64) returns (count: nat)
    ensures count == if n == 0 then 64 else Zeros(n)
  {
    if n == 0 {
      return 64;
    }
    count := 0;
    var m: nat := n;
    while m % 2 == 0
      invariant m > 0 && count + Zeros(m) == Zeros(n)
      decreases m
    {
      count := count + 1;
      m := m / 2;
    }
  }

  function BitOf(n: nat, k: nat): (b: nat)
    ensures b <= 1
    ensures b == 1 ==> Pow2(k) <= n
    decreases k
  {
    if k == 0 then n % 2 else BitOf(n / 2, k - 1)
  }

  // Flips bit `k`.
  function FlipBit(n: nat, k: nat): (r: nat) {
    if BitOf(n, k) == 1 then n - Pow2(k) else n + Pow2(k)
  }

  // The lowest one of a number is its largest power of two factor; taking it away leaves one bit
  // less, and a multiple of the next power.
  lemma {:induction false} LowestOne(n: nat)
    requires n > 0
    ensures var p := Pow2(Zeros(n));
            && p <= n && Multiple(n, p) && Multiple(n - p, 2 * p)
            && Ones(n - p) == Ones(n) - 1 && BitOf(n, Zeros(n)) == 1
    decreases n
  {
    hide Multiple, Times;
    if n % 2 == 1 {
      OddNumber(n);
    } else {
      var h := n / 2;
      LowestOne(h);
      var p := Pow2(Zeros(h));
      assert Pow2(Zeros(n)) == 2 * p;
      Doubled(h, p);
      Doubled(h - p, 2 * p);
      OnesOfDouble(h - p);
    }
  }

  lemma OddNumber(n: nat)
    requires n % 2 == 1
    ensures Multiple(n, 1) && Multiple(n - 1, 2) && Ones(n - 1) == Ones(n) - 1
  {
    assert n == Times(1, n) && n - 1 == Times(2, n / 2);
    assert (n - 1) / 2 == n / 2 && (n - 1) % 2 == 0;
  }

  lemma OnesOfDouble(n: nat)
    ensures Ones(2 * n) == Ones(n)
  {
    assert (2 * n) / 2 == n && (2 * n) % 2 == 0;
  }

  lemma Doubled(x: int, d: nat)
    requires d > 0 && Multiple(x, d)
    ensures Multiple(2 * x, 2 * d)
  {
    var q :| x == Times(d, q);
    assert 2 * x == Times(2 * d, q);
  }

  // A multiple of a power of two has no one below it.
  lemma {:induction false} ZerosOfMultiple(n: nat, k: nat)
    requires n > 0 && Multiple(n, Pow2(k))
    ensures k <= Zeros(n)
    decreases k
  {
    if k > 0 {
      var q :| n == Times(Pow2(k), q);
      assert n == 2 * Times(Pow2(k - 1), q);
      assert n / 2 == Times(Pow2(k - 1), q);
      ZerosOfMultiple(n / 2, k - 1);
    }
  }

  // ---------------------------------------------------------------- the padding

  // What the 64-bit expression computes.
  function ToFill(oldLength: U64, newLength: nat): (r: nat)
    requires newLength > 0
  {
    (if oldLength == 0 then 0 else TWO_64 - oldLength) % newLength
  }

  ghost predicate Completes(oldLength: nat, newLength: nat, amount: nat)
    requires newLength > 0
  {
    Multiple(oldLength + amount, newLength)
  }

  // Theorem: for every divisor of 2^64 this is the least amount that makes the old length a
  // multiple of the new one.
  lemma FillIsLeast(oldLength: U64, newLength: nat)
    requires newLength > 0 && Multiple(TWO_64, newLength)
    ensures ToFill(oldLength, newLength) < newLength && Completes(oldLength, newLength, ToFill(oldLength, newLength))
    ensures forall amount: nat | Completes(oldLength, newLength, amount) :: ToFill(oldLength, newLength) <= amount
  {
    hide Times;
    var fill := ToFill(oldLength, newLength);
    FillCompletes(oldLength, newLength);
    forall amount: nat | Completes(oldLength, newLength, amount) ensures fill <= amount {
      MultipleDifference(oldLength + fill, oldLength + amount, newLength);
      NoSmallMultiple(fill - amount, newLength);
    }
  }

  lemma NoSmallMultiple(x: int, d: nat)
    requires d > 0 && x < d && Multiple(x, d)
    ensures x <= 0
  {
    var q :| x == Times(d, q);
    TimesBound(d, q);
  }

  lemma FillCompletes(oldLength: U64, newLength: nat)
    requires newLength > 0
    ensures oldLength > 0 ==>
              (Multiple(oldLength + ToFill(oldLength, newLength), newLength) <==> Multiple(TWO_64, newLength))
    ensures oldLength == 0 ==> ToFill(oldLength, newLength) == 0 && Multiple(0, newLength)
  {
    if oldLength > 0 {
      var x := TWO_64 - oldLength;
      var fill := ToFill(oldLength, newLength);
      RemainderIsMultiple(x, newLength);
      assert TWO_64 - (oldLength + fill) == x - x % newLength;
      if Multiple(TWO_64, newLength) {
        MultipleDifference(TWO_64, x - x % newLength, newLength);
      }
      if Multiple(oldLength + fill, newLength) {
        MultipleDifference(x - x % newLength, 0 - (oldLength + fill), newLength) by {
          MultipleDifference(0, oldLength + fill, newLength) by { assert 0 == Times(newLength, 0); }
        }
      }
    } else {
      assert 0 == Times(newLength, 0);
    }
  }

  ghost function Sum(pads: seq<nat>): (s: nat) {
    if pads == [] then 0 else Sum(pads[..|pads| - 1]) + pads[|pads| - 1]
  }

  ghost predicate IsPower(p: nat) {
    exists k: nat :: p == Pow2(k)
  }

  // Every pad is a power of two, larger than the one before and smaller than the new piece.
  ghost predicate PowersBelow(newLength: nat, pads: seq<nat>) {
    && (forall i | 0 <= i < |pads| :: 0 < pads[i] < newLength && IsPower(pads[i]))
    && (forall i, j | 0 <= i < j < |pads| :: pads[i] < pads[j])
  }

  // And starts at a multiple of its own size.
  ghost predicate GoodPads(oldLength: nat, newLength: nat, pads: seq<nat>) {
    PowersBelow(newLength, pads) && forall i | 0 <= i < |pads| :: Aligned(oldLength, pads, i)
  }

  ghost predicate Aligned(oldLength: nat, pads: seq<nat>, i: nat)
    requires i < |pads|
  {
    pads[i] > 0 && Multiple(oldLength + Sum(pads[..i]), pads[i])
  }

  // What is left to fill has no bit at or below the pads already made.
  ghost predicate Above(left: nat, pads: seq<nat>) {
    forall i | 0 <= i < |pads| :: pads[i] > 0 && Multiple(left, 2 * pads[i])
  }

  lemma OnePad(newLength: nat, pads: seq<nat>, left: nat)
    requires 0 < left < newLength && PowersBelow(newLength, pads) && Above(left, pads)
    ensures var p := Pow2(Zeros(left));
            && p <= left && BitOf(left, Zeros(left)) == 1 && Ones(left - p) == Ones(left) - 1
            && PowersBelow(newLength, pads + [p]) && Above(left - p, pads + [p]) && Sum(pads + [p]) == Sum(pads) + p
  {
    hide Multiple, Ones, Pow2, Zeros, BitOf;
    var p := Pow2(Zeros(left));
    LowestOne(left);
    PadIsAboveOthers(pads, left);
    SumAppend(pads, p);
    LeftIsAbove(pads, left, p);
  }

  lemma OneGoodPad(oldLength: nat, newLength: nat, pads: seq<nat>, left: nat)
    requires 0 < left < newLength && IsPower(newLength) && GoodPads(oldLength, newLength, pads) && Above(left, pads)
    requires Multiple(oldLength + Sum(pads) + left, newLength)
    ensures GoodPads(oldLength, newLength, pads + [Pow2(Zeros(left))])
  {
    hide Multiple, Ones, Pow2, Zeros, BitOf, PowersBelow, Above, IsPower;
    var k := Zeros(left);
    var p := Pow2(k);
    LowestOne(left);
    PowerInside(oldLength + Sum(pads) + left, newLength, k, left);
    MultipleDifference(oldLength + Sum(pads) + left, left, p);
    OnePad(newLength, pads, left);
    PadsAppend(oldLength, newLength, pads, p);
  }

  lemma PowerInside(x: int, newLength: nat, k: nat, left: nat)
    requires newLength > 0 && IsPower(newLength) && Multiple(x, newLength) && Pow2(k) <= left < newLength
    ensures Multiple(x, Pow2(k))
  {
    hide Multiple, Pow2;
    var e: nat :| newLength == Pow2(e);
    SmallerPower(k, e, left);
    MultipleOfPower(x, k, e);
  }

  lemma SmallerPower(k: nat, e: nat, left: nat)
    requires Pow2(k) <= left < Pow2(e)
    ensures k < e
  {
    if e < k {
      Pow2Grows(e, k);
    }
  }

  lemma PadIsAboveOthers(pads: seq<nat>, left: nat)
    requires left > 0 && Above(left, pads) && forall i | 0 <= i < |pads| :: IsPower(pads[i])
    ensures forall i | 0 <= i < |pads| :: 2 * pads[i] <= Pow2(Zeros(left))
  {
    hide Multiple, Zeros;
    forall i | 0 <= i < |pads| ensures 2 * pads[i] <= Pow2(Zeros(left)) {
      var j: nat :| pads[i] == Pow2(j);
      assert 2 * pads[i] == Pow2(j + 1);
      ZerosOfMultiple(left, j + 1);
      Pow2Grows(j, Zeros(left));
    }
  }

  lemma PadsAppend(oldLength: nat, newLength: nat, pads: seq<nat>, p: nat)
    requires GoodPads(oldLength, newLength, pads) && PowersBelow(newLength, pads + [p]) && p > 0
    requires Multiple(oldLength + Sum(pads), p)
    ensures GoodPads(oldLength, newLength, pads + [p])
  {
    hide Aligned, PowersBelow, Sum, Multiple;
    var more := pads + [p];
    forall i | 0 <= i < |more| ensures Aligned(oldLength, more, i) {
      if i < |pads| {
        AlignedInLonger(oldLength, pads, i, p);
      } else {
        AlignedLast(oldLength, pads, p);
      }
    }
  }

  lemma NoSum()
    ensures Sum([]) == 0
  {
  }

  lemma SumAppend(pads: seq<nat>, p: nat)
    ensures Sum(pads + [p]) == Sum(pads) + p
  {
    assert (pads + [p])[..|pads|] == pads;
  }

  lemma AlignedInLonger(oldLength: nat, pads: seq<nat>, i: nat, p: nat)
    requires i < |pads| && Aligned(oldLength, pads, i)
    ensures Aligned(oldLength, pads + [p], i)
  {
    hide Multiple, Sum;
    assert (pads + [p])[..i] == pads[..i];
  }

  lemma AlignedLast(oldLength: nat, pads: seq<nat>, p: nat)
    requires p > 0 && Multiple(oldLength + Sum(pads), p)
    ensures Aligned(oldLength, pads + [p], |pads|)
  {
    hide Multiple, Sum;
    assert (pads + [p])[..|pads|] == pads;
  }

  lemma LeftIsAbove(pads: seq<nat>, left: nat, p: nat)
    requires 0 < p <= left && Above(left, pads) && Multiple(left, p) && Multiple(left - p, 2 * p)
    requires (forall i | 0 <= i < |pads| :: IsPower(pads[i]) && 2 * pads[i] <= p) && IsPower(p)
    ensures Above(left - p, pads + [p])
  {
    hide Multiple;
    forall i | 0 <= i < |pads| ensures Multiple(left - p, 2 * pads[i]) {
      PowerDivides(2 * pads[i], p, pads[i]);
      MultipleDifference(left, p, 2 * pads[i]);
    }
  }

  lemma PowerDivides(q: nat, p: nat, h: nat)
    requires IsPower(h) && IsPower(p) && q == 2 * h && q <= p
    ensures Multiple(p, q)
  {
    hide Multiple;
    var j: nat :| h == Pow2(j);
    var k: nat :| p == Pow2(k);
    assert q == Pow2(j + 1);
    if k < j + 1 {
      Pow2Grows(k, j + 1);
    }
    PowersNest(j + 1, k);
  }

  // Theorem: for every new length, the pads are increasing powers of two below it that add up to
  // the 64-bit expression. For a power of two, each starts at a multiple of its own size and
  // together they are the least amount that makes the old length a multiple of the new one; for
  // any other length they do not make a non-empty old length a multiple.
  method GetRequiredPadding(oldLength: U64, newLength: U64) returns (pads: seq<nat>, size: nat)
    requires newLength > 0
    ensures PowersBelow(newLength, pads) && size == Sum(pads) == ToFill(oldLength, newLength) < newLength
    ensures IsPower(newLength) ==> GoodPads(oldLength, newLength, pads) && Completes(oldLength, newLength, size)
    ensures IsPower(newLength) ==> forall amount: nat | Completes(oldLength, newLength, amount) :: size <= amount
    ensures !IsPower(newLength) && oldLength > 0 ==> !Completes(oldLength, newLength, size)
  {
    hide Multiple, Ones, Zeros, BitOf, Pow2, PowersBelow, GoodPads, Above, IsPower, ToFill, Sum, Times;
    FillIsExact(oldLength, newLength);
    ghost var fill := ToFill(oldLength, newLength);
    var left: nat := ToFill(oldLength, newLength);
    pads, size := [], 0;
    NoPads(oldLength, newLength, left);
    assert Sum([]) == 0 by { NoSum(); }
    var n := CountSetBits(left);
    for i := 0 to n
      invariant Ones(left) == n - i && left + size == fill && size == Sum(pads)
      invariant PowersBelow(newLength, pads) && Above(left, pads)
      invariant IsPower(newLength) ==> GoodPads(oldLength, newLength, pads)
    {
      OnePad(newLength, pads, left);
      if IsPower(newLength) {
        OneGoodPad(oldLength, newLength, pads, left);
      }
      var next := CountTrailingZeros(left);
      var piece := Pow2(next);
      left := FlipBit(left, next);
      pads := pads + [piece];
      size := size + piece;
    }
  }

  // The expression is right for every old length exactly when the new one is a power of two.
  lemma FillIsExact(oldLength: U64, newLength: U64)
    requires newLength > 0
    ensures ToFill(oldLength, newLength) < newLength
    ensures IsPower(newLength) ==>
              Completes(oldLength, newLength, ToFill(oldLength, newLength)) &&
              forall amount: nat | Completes(oldLength, newLength, amount) :: ToFill(oldLength, newLength) <= amount
    ensures !IsPower(newLength) && oldLength > 0 ==> !Completes(oldLength, newLength, ToFill(oldLength, newLength))
  {
    hide Multiple, ToFill, IsPower;
    FillIsBelow(oldLength, newLength);
    if IsPower(newLength) {
      PowerOf64(newLength);
      FillIsLeast(oldLength, newLength);
    } else if oldLength > 0 {
      FillCompletes(oldLength, newLength);
      if Multiple(TWO_64, newLength) {
        DivisorOf64(newLength);
      }
    }
  }

  // A piece of length 3 after one of length 1: nothing is filled, and 1 is not a multiple of 3.
  lemma FillFailsForThree()
    ensures ToFill(1, 3) == 0 && !Completes(1, 3, 0)
  {
    RemainderIsMultiple(1, 3);
  }

  lemma FillIsBelow(oldLength: U64, newLength: U64)
    requires newLength > 0
    ensures ToFill(oldLength, newLength) < newLength
  {
  }

  // A divisor of a power of two is a power of two.
  lemma {:induction false} DivisorIsPower(n: nat, d: nat, q: nat)
    requires Times(d, q) == Pow2(n)
    ensures IsPower(d)
    decreases n
  {
    hide IsPower;
    if n == 0 {
      FactorOfOne(d, q);
      OneIsPower();
    } else if d % 2 == 0 {
      HalveFirst(d, q, Pow2(n - 1));
      DivisorIsPower(n - 1, d / 2, q);
      DoubleIsPower(d / 2);
    } else {
      OddTimesIsEven(d, q, Pow2(n - 1));
      HalveFirst(q, d, Pow2(n - 1));
      DivisorIsPower(n - 1, d, q / 2);
    }
  }

  lemma OneIsPower()
    ensures IsPower(1)
  {
    assert Pow2(0) == 1;
  }

  lemma FactorOfOne(d: nat, q: nat)
    requires Times(d, q) == 1
    ensures d == 1
  {
    TimesBound(d, q);
  }

  lemma HalveFirst(d: nat, q: nat, p: nat)
    requires d % 2 == 0 && (Times(d, q) == 2 * p || Times(q, d) == 2 * p)
    ensures Times(d / 2, q) == p && Times(q, d / 2) == p
  {
    var h := d / 2;
    assert d == 2 * h;
    assert Times(2 * h, q) == 2 * Times(h, q) && Times(q, 2 * h) == 2 * Times(q, h);
  }

  lemma OddTimesIsEven(d: nat, q: nat, p: nat)
    requires d % 2 == 1 && Times(d, q) == 2 * p
    ensures q % 2 == 0
  {
    var h := d / 2;
    assert d == 2 * h + 1;
    assert Times(2 * h + 1, q) == 2 * Times(h, q) + q;
  }

  lemma DoubleIsPower(p: nat)
    requires IsPower(p)
    ensures IsPower(2 * p)
  {
    var k: nat :| p == Pow2(k);
    assert 2 * p == Pow2(k + 1);
  }

  lemma DivisorOf64(d: nat)
    requires d > 0 && Multiple(TWO_64, d)
    ensures IsPower(d)
  {
    hide Pow2, IsPower;
    var q :| TWO_64 == Times(d, q);
    Pow2Of64();
    TimesBound(d, q);
    NonNegativeFactor(d, q);
    DivisorIsPower(64, d, q);
  }

  lemma NonNegativeFactor(d: nat, q: int)
    requires Times(d, q) > 0
    ensures q > 0
  {
    if q <= 0 {
      assert Times(d, q) == -Times(d, -q);
      TimesIsNat(d, -q);
    }
  }

  lemma TimesIsNat(d: nat, q: nat)
    ensures Times(d, q) >= 0
  {
  }

  lemma NoPads(oldLength: nat, newLength: nat, left: nat)
    ensures PowersBelow(newLength, []) && GoodPads(oldLength, newLength, []) && Above(left, [])
  {
  }

  lemma PowerOf64(p: U64)
    requires p > 0 && IsPower(p)
    ensures Multiple(TWO_64, p)
  {
    hide Pow2, Multiple;
    var e: nat :| p == Pow2(e);
    Pow2Of64();
    if e > 64 {
      Pow2Grows(64, e);
    }
    PowersNest(e, 64);
  }
}
