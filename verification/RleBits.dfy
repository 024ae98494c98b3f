// The bit blocks of RLE+ and their packing into bytes.
module RleBits {
  import opened Base
  import opened Powers

  const LONG_BLOCK_VALUE := 16

  // A bit stream reads as zero beyond its end.
  predicate Bit(bits: seq<bool>, i: nat) {
    i < |bits| && bits[i]
  }

  // The number held by `count` bits from `i`, least significant first.
  function NumAt(bits: seq<bool>, i: nat, count: nat): (n: nat)
    ensures n < Pow2(count)
    decreases count
  {
    if count == 0 then 0 else (if Bit(bits, i) then 1 else 0) + 2 * NumAt(bits, i + 1, count - 1)
  }

  // The low `count` bits of a number, least significant first.
  function LowBits(n: nat, count: nat): (bits: seq<bool>)
    ensures |bits| == count
  {
    if count == 0 then [] else [n % 2 == 1] + LowBits(n / 2, count - 1)
  }

  predicate BitOf(n: nat, j: nat) {
    if j == 0 then n % 2 == 1 else BitOf(n / 2, j - 1)
  }

  // ---------------------------------------------------------------- blocks

  // Seven bits per byte, the top bit set on all but the last.
  function Varint(n: nat): (bytes: seq<Byte>)
    ensures bytes != []
  {
    if n < 128 then [n] else [n % 128 + 128] + Varint(n / 128)
  }

  function BytesBits(bytes: seq<Byte>): (bits: seq<bool>)
    ensures |bits| == 8 * |bytes|
  {
    if bytes == [] then [] else LowBits(bytes[0], 8) + BytesBits(bytes[1..])
  }

  // The block of one run: a single bit, a 4-bit number, or a varint.
  function Block(run: nat): (bits: seq<bool>)
    ensures |bits| > 0
  {
    if run == 1 then [true]
    else if run < LONG_BLOCK_VALUE then [false, true] + LowBits(run, 4)
    else [false, false] + BytesBits(Varint(run))
  }

  function Blocks(runs: seq<U64>): (bits: seq<bool>) {
    if runs == [] then [] else Block(runs[0]) + Blocks(runs[1..])
  }

  // Two version bits, the polarity of the first run, and the blocks.
  function Stream(first: bool, runs: seq<U64>): (bits: seq<bool>) {
    [false, false, first] + Blocks(runs)
  }

  // ---------------------------------------------------------------- reading blocks

  datatype Error = VersionMismatch | UnpackOverflow | MaxSizeExceed

  // The bytes of a long block: up to the first one whose top bit is clear.
  function LongBytes(bits: seq<bool>, i: nat): (r: (seq<Byte>, nat))
    ensures r.0 != [] && r.1 == i + 8 * |r.0|
    decreases |bits| - i
  {
    Pow2Of8();
    var slice := NumAt(bits, i, 8);
    if slice < 128 then ([slice], i + 8)
    else
      TopBitIsInside(bits, i);
      var (bytes, next) := LongBytes(bits, i + 8);
      ([slice] + bytes, next)
  }

  lemma {:induction false} NumBelow(bits: seq<bool>, i: nat, count: nat)
    ensures i + count > |bits| && count > 0 ==> 2 * NumAt(bits, i, count) < Pow2(count)
    decreases count
  {
    if count > 1 {
      NumBelow(bits, i + 1, count - 1);
    }
  }

  lemma TopBitIsInside(bits: seq<bool>, i: nat)
    requires NumAt(bits, i, 8) >= 128
    ensures i + 8 <= |bits|
  {
    NumBelow(bits, i, 8);
    Pow2Of8();
  }

  function ShiftLeft(n: nat, shift: nat): (r: nat) {
    n * Pow2(shift)
  }

  // Puts seven-bit groups together in 64-bit arithmetic.
  function Unpack(bytes: seq<Byte>, shift: nat, value: U64): (r: Result<U64, Error>) {
    if bytes == [] then Ok(value)
    else if shift > 64 then Err(UnpackOverflow)
    else
      var next := (value + ShiftLeft(bytes[0] % 128, shift)) % TWO_64;
      if bytes[0] < 128 then Ok(next) else Unpack(bytes[1..], shift + 7, next)
  }

  // The run of the block at `i`, and the position after it.
  function ParseBlock(bits: seq<bool>, i: nat): (r: Result<(U64, nat), Error>)
    ensures r.Ok? ==> r.value.1 > i
  {
    if Bit(bits, i) then Ok((1, i + 1))
    else if Bit(bits, i + 1) then
      Pow2Of8();
      Ok((NumAt(bits, i + 2, 4), i + 6))
    else
      var (bytes, next) := LongBytes(bits, i + 2);
      var run :- Unpack(bytes, 0, 0);
      Ok((run, next))
  }

  predicate AnySet(bits: seq<bool>, i: nat) {
    exists j :: i <= j < |bits| && bits[j]
  }

  // The runs from `i` on, up to where no bit is set any more.
  function DecodeRuns(bits: seq<bool>, i: nat): (r: Result<seq<U64>, Error>)
    decreases |bits| - i
  {
    if !AnySet(bits, i) then Ok([])
    else
      var (run, next) :- ParseBlock(bits, i);
      var rest :- DecodeRuns(bits, next);
      Ok([run] + rest)
  }

  // ---------------------------------------------------------------- blocks read back

  // `bits` holds `part` at position `i`.
  ghost predicate Holds(bits: seq<bool>, i: nat, part: seq<bool>) {
    forall k | 0 <= k < |part| :: Bit(bits, i + k) == part[k]
  }

  lemma {:induction false} NumReadsBack(bits: seq<bool>, i: nat, n: nat, count: nat)
    requires Holds(bits, i, LowBits(n, count)) && n < Pow2(count)
    ensures NumAt(bits, i, count) == n
    decreases count
  {
    if count > 0 {
      var part := LowBits(n / 2, count - 1);
      assert Bit(bits, i + 0) == LowBits(n, count)[0];
      forall k | 0 <= k < |part|
        ensures Bit(bits, i + 1 + k) == part[k]
      {
        assert Bit(bits, i + (k + 1)) == LowBits(n, count)[k + 1];
      }
      NumReadsBack(bits, i + 1, n / 2, count - 1);
    }
  }

  lemma HoldsParts(bits: seq<bool>, i: nat, a: seq<bool>, b: seq<bool>)
    requires Holds(bits, i, a + b)
    ensures Holds(bits, i, a) && Holds(bits, i + |a|, b)
  {
    forall k | 0 <= k < |a|
      ensures Bit(bits, i + k) == a[k]
    {
      assert (a + b)[k] == a[k];
    }
    forall k | 0 <= k < |b|
      ensures Bit(bits, i + |a| + k) == b[k]
    {
      assert (a + b)[|a| + k] == b[k];
      assert Bit(bits, i + (|a| + k)) == (a + b)[|a| + k];
    }
  }

  lemma {:induction false} VarintReadsBack(bits: seq<bool>, i: nat, n: nat)
    requires Holds(bits, i, BytesBits(Varint(n)))
    ensures LongBytes(bits, i) == (Varint(n), i + 8 * |Varint(n)|)
    decreases n
  {
    hide NumAt, LowBits;
    var bytes := Varint(n);
    Pow2Of8();
    assert BytesBits(bytes) == LowBits(bytes[0], 8) + BytesBits(bytes[1..]);
    HoldsParts(bits, i, LowBits(bytes[0], 8), BytesBits(bytes[1..]));
    NumReadsBack(bits, i, bytes[0], 8);
    if n >= 128 {
      assert bytes[1..] == Varint(n / 128);
      VarintReadsBack(bits, i + 8, n / 128);
    }
  }

  // A shift that keeps a positive number below 2^64 is smaller than 64.
  lemma ShiftIsSmall(n: nat, shift: nat)
    requires n > 0 && ShiftLeft(n, shift) < TWO_64
    ensures shift < 64
  {
    if shift >= 64 {
      Pow2Of64();
      if shift > 64 {
        Pow2Grows(64, shift);
      }
      ProductGrows(n, Pow2(shift));
    }
  }

  lemma ProductGrows(n: nat, p: nat)
    requires n > 0
    ensures n * p >= p
  {
  }

  // A shifted number is its low seven bits shifted, plus the rest shifted seven places more.
  lemma SplitGroup(n: nat, shift: nat)
    ensures ShiftLeft(n, shift) == ShiftLeft(n % 128, shift) + ShiftLeft(n / 128, shift + 7)
  {
    var low, high, p := n % 128, n / 128, Pow2(shift);
    Pow2Add(shift, 7);
    Pow2Of8();
    assert n == low + 128 * high;
    assert n * p == low * p + 128 * high * p;
    assert 128 * high * p == high * (128 * p);
  }

  lemma {:induction false} UnpackReadsBack(n: nat, shift: nat, value: nat)
    requires n > 0 && value + ShiftLeft(n, shift) < TWO_64
    ensures Unpack(Varint(n), shift, value) == Ok(value + ShiftLeft(n, shift))
    decreases n
  {
    hide ShiftLeft;
    ShiftIsSmall(n, shift);
    if n >= 128 {
      SplitGroup(n, shift);
      assert Varint(n)[1..] == Varint(n / 128);
      UnpackReadsBack(n / 128, shift + 7, value + ShiftLeft(n % 128, shift));
    }
  }

  // Theorem: wherever the block of a run lies, it reads back as that run.
  lemma BlockReadsBack(bits: seq<bool>, i: nat, run: U64)
    requires run > 0 && Holds(bits, i, Block(run))
    ensures ParseBlock(bits, i) == Ok((run, i + |Block(run)|))
  {
    hide LongBytes, Unpack, NumAt, LowBits, BytesBits, Varint;
    assert Bit(bits, i + 0) == Block(run)[0];
    if run > 1 {
      assert Bit(bits, i + 1) == Block(run)[1];
      if run < LONG_BLOCK_VALUE {
        Pow2Of8();
        HoldsParts(bits, i, [false, true], LowBits(run, 4));
        NumReadsBack(bits, i + 2, run, 4);
      } else {
        HoldsParts(bits, i, [false, false], BytesBits(Varint(run)));
        VarintReadsBack(bits, i + 2, run);
        assert ShiftLeft(run, 0) == run;
        UnpackReadsBack(run, 0, 0);
      }
    }
  }

  // ---------------------------------------------------------------- set bits

  lemma {:induction false} SomeBitIsSet(n: nat, count: nat) returns (k: nat)
    requires 0 < n < Pow2(count)
    ensures k < count && LowBits(n, count)[k]
  {
    if n % 2 == 1 {
      k := 0;
    } else {
      k := SomeBitIsSet(n / 2, count - 1);
      k := k + 1;
    }
  }

  lemma {:induction false} VarintEndsInSetBit(n: nat) returns (k: nat)
    requires n > 0
    ensures var bits := BytesBits(Varint(n)); |bits| - 8 <= k < |bits| && bits[k]
    decreases n
  {
    Pow2Of8();
    if n < 128 {
      k := SomeBitIsSet(n, 8);
      assert BytesBits(Varint(n)) == LowBits(n, 8) + BytesBits([]);
    } else {
      k := VarintEndsInSetBit(n / 128);
      assert Varint(n)[1..] == Varint(n / 128);
      k := k + 8;
    }
  }

  // Every block has a set bit among its last eight.
  lemma BlockEndsInSetBit(run: nat) returns (k: nat)
    requires run > 0
    ensures var bits := Block(run); |bits| - 8 <= k < |bits| && bits[k]
  {
    if run == 1 {
      k := 0;
    } else if run < LONG_BLOCK_VALUE {
      Pow2Of8();
      k := SomeBitIsSet(run, 4);
      k := k + 2;
    } else {
      k := VarintEndsInSetBit(run);
      k := k + 2;
    }
  }

  ghost predicate Positive(runs: seq<U64>) {
    forall i | 0 <= i < |runs| :: runs[i] > 0
  }

  lemma {:induction false} BlocksEndInSetBit(runs: seq<U64>) returns (k: nat)
    requires runs != [] && Positive(runs)
    ensures var bits := Blocks(runs); |bits| - 8 <= k < |bits| && bits[k]
  {
    hide Block;
    if |runs| == 1 {
      k := BlockEndsInSetBit(runs[0]);
      assert Blocks(runs[1..]) == [];
    } else {
      k := BlocksEndInSetBit(runs[1..]);
      k := k + |Block(runs[0])|;
    }
  }

  // Theorem: a stream that holds blocks, followed by nothing but zeros, reads back as exactly
  // the runs that were written.
  lemma {:induction false} BlocksReadBack(bits: seq<bool>, i: nat, runs: seq<U64>)
    requires Positive(runs)
    requires Holds(bits, i, Blocks(runs))
    requires forall j | j >= i + |Blocks(runs)| :: !Bit(bits, j)
    ensures DecodeRuns(bits, i) == Ok(runs)
    decreases |runs|
  {
    hide Block, ParseBlock;
    if runs == [] {
      forall j | i <= j < |bits|
        ensures !bits[j]
      {
        assert !Bit(bits, j);
      }
      assert !AnySet(bits, i);
    } else {
      var block, rest := Block(runs[0]), Blocks(runs[1..]);
      HoldsParts(bits, i, block, rest);
      var k := BlockEndsInSetBit(runs[0]);
      assert Bit(bits, i + k);
      assert AnySet(bits, i);
      BlockReadsBack(bits, i, runs[0]);
      assert [runs[0]] + runs[1..] == runs;
      BlocksReadBack(bits, i + |block|, runs[1..]);
    }
  }
}
