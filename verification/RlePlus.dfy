// RLE+: a set of numbers as a byte string, and back.
module RlePlus {
  import opened Base
  import opened Powers
  import opened RleBits
  import opened RleRuns

  const BYTES_MAX_SIZE := 0x8000

  // ---------------------------------------------------------------- bits and bytes

  // Byte k of a packed bit stream.
  function PackedByte(bits: seq<bool>, k: nat): (b: Byte) {
    Pow2Of8();
    NumAt(bits, 8 * k, 8)
  }

  function Pack(bits: seq<bool>): (bytes: seq<Byte>) {
    seq((|bits| + 7) / 8, k requires k >= 0 => PackedByte(bits, k))
  }

  // One zero byte at the end is left out.
  function Trim(bytes: seq<Byte>): (r: seq<Byte>) {
    if bytes != [] && bytes[|bytes| - 1] == 0 then bytes[..|bytes| - 1] else bytes
  }

  function UnpackBits(bytes: seq<Byte>): (bits: seq<bool>)
    ensures |bits| == 8 * |bytes|
  {
    seq(8 * |bytes|, i requires 0 <= i < 8 * |bytes| => BitOf(bytes[i / 8], i % 8))
  }

  lemma {:induction false} BitOfNum(bits: seq<bool>, i: nat, count: nat, j: nat)
    requires j < count
    ensures BitOf(NumAt(bits, i, count), j) == Bit(bits, i + j)
    decreases count
  {
    if j > 0 {
      BitOfNum(bits, i + 1, count - 1, j - 1);
    }
  }

  lemma {:induction false} ZeroHasNoBits(j: nat)
    ensures !BitOf(0, j)
  {
    if j > 0 {
      ZeroHasNoBits(j - 1);
    }
  }

  // Packing and trimming change no bit of the stream, as the decoder reads missing bits as zero.
  lemma PackingKeepsBits(bits: seq<bool>, i: nat)
    ensures Bit(UnpackBits(Trim(Pack(bits))), i) == Bit(bits, i)
  {
    hide NumAt, BitOf;
    var k, j := i / 8, i % 8;
    assert i == 8 * k + j;
    var packed := Pack(bits);
    var sent := Trim(packed);
    if k < |packed| {
      BitOfNum(bits, 8 * k, 8, j);
      ZeroHasNoBits(j);
      assert k < |sent| ==> sent[k] == packed[k] == PackedByte(bits, k);
      assert k >= |sent| ==> packed[k] == 0;
    } else {
      assert i >= |bits|;
    }
  }

  // With a set bit among the last eight, the packed bytes end in a non-zero byte once trimmed.
  lemma TrimmedEndsNonZero(bits: seq<bool>, p: nat)
    requires |bits| - 8 <= p < |bits| && bits[p]
    ensures var bytes := Trim(Pack(bits)); bytes != [] && bytes[|bytes| - 1] != 0
  {
    hide NumAt, BitOf;
    var packed := Pack(bits);
    var k := p / 8;
    BitOfNum(bits, 8 * k, 8, p % 8);
    ZeroHasNoBits(p % 8);
    assert packed[k] != 0;
    assert |packed| - 2 <= k < |packed|;
  }

  // ---------------------------------------------------------------- encoding and decoding

  // The runs that are written: an empty first run is left out.
  function Periods(data: seq<U64>): (runs: seq<U64>)
    requires Ascending(data)
  {
    var runs := Runs(data);
    if data != [] && data[0] == 0 then runs[1..] else runs
  }

  function Encode(data: seq<U64>): (bytes: seq<Byte>)
    requires Ascending(data)
  {
    if data == [] then [] else Trim(Pack(Stream(data[0] == 0, Periods(data))))
  }

  ghost function DecodeStream(bits: seq<bool>): (r: Result<set<U64>, Error>) {
    if |bits| < 4 || NumAt(bits, 0, 2) != 0 then Err(VersionMismatch)
    else
      var runs :- DecodeRuns(bits, 3);
      Ok(FromRuns(runs, NumAt(bits, 2, 1) == 1))
  }

  ghost function Decode(bytes: seq<Byte>): (r: Result<set<U64>, Error>) {
    if bytes == [] then Ok({})
    else if |bytes| > BYTES_MAX_SIZE then Err(MaxSizeExceed)
    else DecodeStream(UnpackBits(bytes))
  }

  lemma PeriodsMeanTheSet(data: seq<U64>)
    requires Ascending(data) && data != []
    ensures Periods(data) != [] && Positive(Periods(data))
    ensures FromRuns(Periods(data), data[0] == 0) == Elements(data)
  {
    hide FromRuns, Runs, Sum;
    RunsAreCanonical(data);
    RunsMeanTheSet(data);
    var runs := Runs(data);
    if data[0] == 0 {
      EmptyFirstRun(runs[1..], false);
      assert [0] + runs[1..] == runs;
    }
  }

  // Theorem: the encoding of a non-empty set is not empty and does not end in a zero byte.
  lemma EncodingEndsNonZero(data: seq<U64>)
    requires Ascending(data) && data != []
    ensures Encode(data) != [] && Encode(data)[|Encode(data)| - 1] != 0
  {
    hide Runs, Blocks, Pack, Trim;
    PeriodsMeanTheSet(data);
    var k := BlocksEndInSetBit(Periods(data));
    TrimmedEndsNonZero(Stream(data[0] == 0, Periods(data)), k + 3);
  }

  // Packed and trimmed, a stream of blocks decodes to the set its runs stand for.
  lemma StreamReadsBack(first: bool, runs: seq<U64>)
    requires runs != [] && Positive(runs)
    ensures DecodeStream(UnpackBits(Trim(Pack(Stream(first, runs))))) == Ok(FromRuns(runs, first))
  {
    hide FromRuns, Blocks, Pack, Trim, UnpackBits, DecodeRuns;
    var stream := Stream(first, runs);
    var bits := UnpackBits(Trim(Pack(stream)));
    var k := BlocksEndInSetBit(runs);
    assert Bit(stream, k + 3);
    forall i: nat
      ensures Bit(bits, i) == Bit(stream, i)
    {
      PackingKeepsBits(stream, i);
    }
    assert Bit(bits, k + 3);
    assert NumAt(bits, 0, 2) == 0;
    assert NumAt(bits, 2, 1) == if first then 1 else 0;
    forall j | 0 <= j < |Blocks(runs)|
      ensures Bit(bits, 3 + j) == Blocks(runs)[j]
    {
      assert Bit(stream, 3 + j) == Blocks(runs)[j];
    }
    BlocksReadBack(bits, 3, runs);
  }

  // Theorem: decoding an encoded set gives the set back exactly when the encoding is within
  // the size limit; beyond it the decoder refuses.
  lemma RoundTrip(data: seq<U64>)
    requires Ascending(data)
    ensures Decode(Encode(data)) ==
            if |Encode(data)| <= BYTES_MAX_SIZE then Ok(Elements(data)) else Err(MaxSizeExceed)
  {
    hide Runs, FromRuns, DecodeStream, UnpackBits, Pack, Trim, Stream;
    if data == [] {
      assert Elements(data) == {};
    } else {
      PeriodsMeanTheSet(data);
      EncodingEndsNonZero(data);
      StreamReadsBack(data[0] == 0, Periods(data));
    }
  }
}
