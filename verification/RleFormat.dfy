// What the blocks of RLE+ cost and hold, said with lengths and powers of 128.
module RleFormat {
  import opened Base
  import opened Powers
  import opened RleBits
  import opened RleRuns
  import opened RlePlus

  function Pow128(m: nat): (p: nat) {
    Pow2(7 * m)
  }

  lemma Pow128Step(m: nat)
    ensures Pow128(0) == 1 && Pow128(m + 1) == 128 * Pow128(m)
  {
    Pow2Add(7 * m, 7);
    Pow2Of8();
  }

  // ---------------------------------------------------------------- writing

  // A varint takes as many bytes as the number has digits to the base 128.
  lemma {:induction false} VarintLength(n: nat)
    requires n > 0
    ensures Pow128(|Varint(n)| - 1) <= n < Pow128(|Varint(n)|)
    decreases n
  {
    hide Pow128;
    var m := |Varint(n)|;
    Pow128Step(m - 1);
    if n >= 128 {
      VarintLength(n / 128);
      Pow128Step(m - 2);
    }
  }

  lemma {:induction false} VarintIsShort(n: nat, m: nat)
    requires m > 0 && n < Pow128(m)
    ensures |Varint(n)| <= m
    decreases m
  {
    hide Pow128;
    Pow128Step(m - 1);
    if n >= 128 {
      assert m > 1 by { Pow128Step(0); }
      VarintIsShort(n / 128, m - 1);
    }
  }

  // Theorem: a run of one takes one bit, a run below 16 six bits, and a longer run eight bits for
  // each digit to the base 128, after two.
  lemma BlockLengths(run: nat)
    ensures run == 1 ==> |Block(run)| == 1
    ensures 2 <= run < 16 ==> |Block(run)| == 6
    ensures run >= 16 ==> exists m: nat | m > 0 ::
                            Pow128(m - 1) <= run < Pow128(m) && |Block(run)| == 2 + 8 * m
  {
    hide Pow128, Varint, LowBits;
    if run >= 16 {
      VarintLength(run);
      var m := |Varint(run)|;
      assert Pow128(m - 1) <= run < Pow128(m) && |Block(run)| == 2 + 8 * m;
    }
  }

  // ---------------------------------------------------------------- reading

  // Every byte but the last has its top bit set.
  ghost predicate Continued(bytes: seq<Byte>) {
    bytes != [] && bytes[|bytes| - 1] < 128 && forall k | 0 <= k < |bytes| - 1 :: bytes[k] >= 128
  }

  lemma {:induction false} LongBytesContinue(bits: seq<bool>, i: nat)
    ensures Continued(LongBytes(bits, i).0)
    decreases |bits| - i
  {
    hide NumAt;
    Pow2Of8();
    if NumAt(bits, i, 8) >= 128 {
      TopBitIsInside(bits, i);
      LongBytesContinue(bits, i + 8);
    }
  }

  // The number whose digits to the base 128 the bytes hold, least significant first.
  function Digits(bytes: seq<Byte>): (n: nat) {
    if bytes == [] then 0 else bytes[0] % 128 + 128 * Digits(bytes[1..])
  }

  lemma {:induction false} DigitsBound(bytes: seq<Byte>)
    ensures Digits(bytes) < Pow128(|bytes|)
  {
    hide Pow128;
    if bytes == [] {
      Pow128Step(0);
    } else {
      DigitsBound(bytes[1..]);
      Pow128Step(|bytes| - 1);
    }
  }

  lemma ShiftDigits(low: nat, high: nat, shift: nat)
    ensures ShiftLeft(low + 128 * high, shift) == ShiftLeft(low, shift) + ShiftLeft(high, shift + 7)
  {
    var p := Pow2(shift);
    assert Pow2(shift + 7) == 128 * p by {
      Pow2Add(shift, 7);
      Pow2Of8();
    }
    assert (low + 128 * high) * p == low * p + high * (128 * p);
  }

  lemma ReducedTwice(a: nat, b: nat, c: nat)
    ensures ((a + b) % TWO_64 + c) % TWO_64 == (a + (b + c)) % TWO_64
  {
  }

  lemma UnpackStep(bytes: seq<Byte>, shift: nat, value: U64)
    requires bytes != []
    ensures var next := (value + ShiftLeft(bytes[0] % 128, shift)) % TWO_64;
            Unpack(bytes, shift, value) ==
              if shift > 64 then Err(UnpackOverflow)
              else if bytes[0] < 128 then Ok(next)
              else Unpack(bytes[1..], shift + 7, next)
  {
    hide ShiftLeft;
  }

  lemma DigitsStep(bytes: seq<Byte>)
    requires Continued(bytes)
    ensures Digits(bytes) == bytes[0] % 128 + 128 * Digits(bytes[1..])
    ensures if |bytes| == 1 then bytes[0] < 128 && Digits(bytes[1..]) == 0 else bytes[0] >= 128 && Continued(bytes[1..])
  {
  }

  lemma {:induction false} UnpackMeans(bytes: seq<Byte>, shift: nat, value: U64)
    requires Continued(bytes)
    ensures Unpack(bytes, shift, value) ==
            if shift + 7 * (|bytes| - 1) > 64 then Err(UnpackOverflow)
            else Ok((value + ShiftLeft(Digits(bytes), shift)) % TWO_64)
    decreases |bytes|
  {
    DigitsStep(bytes);
    hide ShiftLeft, Unpack, Continued, Digits;
    var low, rest := bytes[0] % 128, bytes[1..];
    UnpackStep(bytes, shift, value);
    ShiftDigits(low, Digits(rest), shift);
    if |bytes| == 1 {
      NothingShifted(shift + 7);
    } else {
      UnpackMeans(rest, shift + 7, (value + ShiftLeft(low, shift)) % TWO_64);
      ReducedTwice(value, ShiftLeft(low, shift), ShiftLeft(Digits(rest), shift + 7));
    }
  }

  lemma NothingShifted(shift: nat)
    ensures ShiftLeft(0, shift) == 0
  {
  }

  // Theorem: a block of more than ten bytes is refused, and any other long block gives the number
  // its digits hold, reduced to 64 bits.
  lemma LongBlockMeans(bits: seq<bool>, i: nat)
    requires !Bit(bits, i) && !Bit(bits, i + 1)
    ensures var (bytes, next) := LongBytes(bits, i + 2);
            ParseBlock(bits, i) ==
              if |bytes| > 10 then Err(UnpackOverflow) else Ok((Digits(bytes) % TWO_64, next))
  {
    hide LongBytes, Unpack, ShiftLeft;
    var bytes := LongBytes(bits, i + 2).0;
    LongBytesContinue(bits, i + 2);
    UnpackMeans(bytes, 0, 0);
    assert ShiftLeft(Digits(bytes), 0) == Digits(bytes) by { ShiftedByNothing(Digits(bytes)); }
  }

  lemma ShiftedByNothing(n: nat)
    ensures ShiftLeft(n, 0) == n
  {
  }

  // Theorem: no block that the decoder accepts says the same run in fewer bits.
  lemma BlockIsShortest(bits: seq<bool>, i: nat)
    requires ParseBlock(bits, i).Ok?
    ensures var (run, next) := ParseBlock(bits, i).value;
            |Block(run)| <= next - i
  {
    hide LongBytes, Unpack, NumAt, Varint, BytesBits, LowBits, Pow128;
    Pow2Of8();
    if !Bit(bits, i) && !Bit(bits, i + 1) {
      LongBlockMeans(bits, i);
      var bytes := LongBytes(bits, i + 2).0;
      DigitsBound(bytes);
      VarintIsShort(Digits(bytes) % TWO_64, |bytes|);
    }
  }

  // ---------------------------------------------------------------- what runs stand for

  // The number `t` places on, in 64 bits.
  function Onward(n: nat, t: nat): (x: U64) {
    (n + t) % TWO_64
  }

  // `x` is a number of the run numbered `k`, counted on from all runs before it.
  ghost predicate InRun(runs: seq<U64>, k: nat, x: U64) {
    k < |runs| && exists t: nat :: t < runs[k] && Onward(Sum(runs[..k]), t) == x
  }

  // Every other run is of present numbers.
  ghost predicate InPresentRun(runs: seq<U64>, first: bool, x: U64) {
    exists k: nat :: InRun(runs, k, x) && (k % 2 == 0 <==> first)
  }

  lemma InSpanMeans(value: U64, run: U64, x: U64)
    ensures InSpan(x, value, run) <==> exists t: nat :: t < run && Onward(value, t) == x
  {
    if InSpan(x, value, run) {
      var t: nat := if value <= x < value + run then x - value else x + TWO_64 - value;
      assert Onward(value, t) == x;
    }
  }

  lemma SpanMeans(runs: seq<U64>, k: nat, x: U64)
    requires k < |runs|
    ensures x in Span(Sum(runs[..k]) % TWO_64, runs[k]) <==> InRun(runs, k, x)
  {
    hide Sum, Onward, InSpan;
    var n := Sum(runs[..k]);
    InSpanMeans(n % TWO_64, runs[k], x);
    forall t: nat
      ensures Onward(n % TWO_64, t) == Onward(n, t)
    {
      OnwardReduced(n, t);
    }
  }

  lemma OnwardReduced(n: nat, t: nat)
    ensures Onward(n % TWO_64, t) == Onward(n, t)
  {
    ReducedTwice(n, 0, t);
  }

  // Theorem: whatever the runs, empty ones and sums beyond 64 bits included, they stand for the numbers
  // of the present runs.
  lemma {:induction false} RunsStandFor(runs: seq<U64>, first: bool, x: U64)
    ensures x in FromRuns(runs, first) <==> InPresentRun(runs, first, x)
    decreases |runs|
  {
    hide Span, InRun, Sum;
    if runs == [] {
      NoRunHas(first, x);
    } else {
      var n, front := |runs| - 1, runs[..|runs| - 1];
      RunsStandFor(front, first, x);
      SpanMeans(runs, n, x);
      forall k: nat
        ensures InRun(runs, k, x) <==> InRun(front, k, x) || (k == n && InRun(runs, n, x))
      {
        RunOfFront(runs, k, x);
      }
    }
  }

  lemma NoRunHas(first: bool, x: U64)
    ensures !InPresentRun([], first, x)
  {
  }

  lemma RunOfFront(runs: seq<U64>, k: nat, x: U64)
    requires runs != []
    ensures InRun(runs, k, x) <==> InRun(runs[..|runs| - 1], k, x) || (k == |runs| - 1 && InRun(runs, |runs| - 1, x))
  {
    hide Sum, Onward;
    if k < |runs| - 1 {
      assert runs[..|runs| - 1][..k] == runs[..k];
    }
  }

  // ---------------------------------------------------------------- refusals

  // Theorem: the decoder refuses a string over 32 KiB for its size, and a string whose two version
  // bits are not zero for its version; otherwise only a block of more than ten bytes is refused.
  lemma RefusedExactly(bytes: seq<Byte>)
    ensures Decode(bytes) == Err(MaxSizeExceed) <==> |bytes| > 32768
    ensures Decode(bytes) == Err(VersionMismatch) <==> 0 < |bytes| <= 32768 && bytes[0] % 4 != 0
    ensures Decode(bytes) == Err(UnpackOverflow) <==>
              0 < |bytes| <= 32768 && bytes[0] % 4 == 0 && DecodeRuns(UnpackBits(bytes), 3).Err?
  {
    hide DecodeRuns, FromRuns;
    if bytes != [] {
      var bits := UnpackBits(bytes);
      RunsRefusal(bits, 3);
      assert bits[0] == BitOf(bytes[0], 0) && bits[1] == BitOf(bytes[0], 1);
      VersionBits(bytes[0]);
      assert NumAt(bits, 0, 2) == 0 <==> !bits[0] && !bits[1];
    }
  }

  lemma VersionBits(b: Byte)
    ensures b % 4 == 0 <==> !BitOf(b, 0) && !BitOf(b, 1)
  {
    assert BitOf(b, 1) == BitOf(b / 2, 0);
  }

  lemma {:induction false} RunsRefusal(bits: seq<bool>, i: nat)
    ensures DecodeRuns(bits, i).Err? ==> DecodeRuns(bits, i).error == UnpackOverflow
    decreases |bits| - i
  {
    hide ParseBlock;
    if AnySet(bits, i) {
      if ParseBlock(bits, i).Err? {
        BlockRefusal(bits, i);
      } else {
        RunsRefusal(bits, ParseBlock(bits, i).value.1);
      }
    }
  }

  lemma BlockRefusal(bits: seq<bool>, i: nat)
    ensures ParseBlock(bits, i).Err? ==> ParseBlock(bits, i).error == UnpackOverflow
  {
    hide LongBytes, Unpack, NumAt;
    if !Bit(bits, i) && !Bit(bits, i + 1) {
      LongBlockMeans(bits, i);
    }
  }

  // ---------------------------------------------------------------- an example

  lemma BitsOfNumber(n: nat)
    ensures LowBits(n, 4) == [n % 2 == 1, n / 2 % 2 == 1, n / 4 % 2 == 1, n / 8 % 2 == 1]
  {
    assert LowBits(n, 4) == [n % 2 == 1] + LowBits(n / 2, 3);
    assert LowBits(n / 2, 3) == [n / 2 % 2 == 1] + LowBits(n / 4, 2);
    assert LowBits(n / 4, 2) == [n / 4 % 2 == 1] + LowBits(n / 8, 1);
    assert LowBits(n / 8, 0 + 1) == [n / 8 % 2 == 1] + LowBits(n / 16, 0);
  }

  lemma TwoBits(bits: seq<bool>, i: nat, count: nat)
    ensures NumAt(bits, i, count + 2) == Weight(bits, i, 1) + Weight(bits, i + 1, 2) + 4 * NumAt(bits, i + 2, count)
  {
    assert NumAt(bits, i, count + 2) == Weight(bits, i, 1) + 2 * NumAt(bits, i + 1, count + 1);
  }

  lemma EightBits(bits: seq<bool>, i: nat)
    ensures NumAt(bits, i, 8) == Weight(bits, i, 1) + Weight(bits, i + 1, 2) + Weight(bits, i + 2, 4) +
              Weight(bits, i + 3, 8) + Weight(bits, i + 4, 16) + Weight(bits, i + 5, 32) +
              Weight(bits, i + 6, 64) + Weight(bits, i + 7, 128)
  {
    hide NumAt;
    TwoBits(bits, i, 6);
    TwoBits(bits, i + 2, 4);
    TwoBits(bits, i + 4, 2);
    TwoBits(bits, i + 6, 0);
    assert NumAt(bits, i + 8, 0) == 0 by { NoBits(bits, i + 8); }
  }

  lemma NoBits(bits: seq<bool>, i: nat)
    ensures NumAt(bits, i, 0) == 0
  {
  }

  function Weight(bits: seq<bool>, i: nat, w: nat): (n: nat) {
    if Bit(bits, i) then w else 0
  }

  // The set {8}: eight absent numbers in a short block, then one present.
  lemma OneNumber()
    ensures Encode([8]) == [0x10, 0x03]
  {
    hide Block, Blocks, Pack;
    var data: seq<U64> := [8];
    assert Periods(data) == [8, 1];
    EightThenOne();
  }

  lemma EightThenOne()
    ensures Pack(Stream(false, [8, 1])) == [0x10, 0x03]
  {
    hide LowBits, NumAt, Blocks;
    BitsOfNumber(8);
    TwoBlocks(8, 1);
    var bits := Stream(false, [8, 1]);
    assert bits == [false, false, false, false, true, false, false, false, true, true];
    EightBits(bits, 0);
    EightBits(bits, 8);
  }

  lemma TwoBlocks(a: U64, b: U64)
    ensures Blocks([a, b]) == Block(a) + Block(b)
  {
    hide Block;
    assert [a, b][1..] == [b] && [b][1..] == [];
    assert Blocks([b]) == Block(b) + Blocks([]);
  }
}
