// The RLE+ encoding and decoding streams, and the run-length conversions.
module RleStreams {
  import opened Base
  import opened Powers
  import opened RleBits
  import opened RleRuns
  import opened RlePlus
  import opened RleFormat

  // ---------------------------------------------------------------- encoder

  lemma {:induction false} LowBitsAt(n: nat, count: nat, i: nat)
    requires i < count
    ensures LowBits(n, count)[i] == BitOf(n, i)
  {
    if i > 0 {
      LowBitsAt(n / 2, count - 1, i - 1);
    }
  }

  lemma BlocksPush(runs: seq<U64>, run: U64)
    ensures Blocks(runs + [run]) == Blocks(runs) + Block(run)
    decreases |runs|
  {
    hide Block;
    if runs == [] {
      assert runs + [run] == [run] && [run][1..] == [];
    } else {
      assert (runs + [run])[1..] == runs[1..] + [run];
      BlocksPush(runs[1..], run);
    }
  }

  lemma NoBlocks()
    ensures Blocks([]) == []
  {
  }

  class RLEPlusEncodingStream {
    var content: seq<bool>

    constructor ()
      ensures content == []
    {
      content := [];
    }

    method InitContent()
      modifies this
      ensures content == [false, false]
    {
      content := [];
      content := content + [false];
      content := content + [false];
    }

    // Appends the low bits of a number.
    method PushBits(n: nat, count: nat)
      modifies this
      ensures content == old(content) + LowBits(n, count)
    {
      for i := 0 to count
        invariant |content| == |old(content)| + i
        invariant content == old(content) + LowBits(n, count)[..i]
      {
        LowBitsAt(n, count, i);
        content := content + [BitOf(n, i)];
      }
    }

    method PushSmallBlock(run: U64)
      modifies this
      ensures content == old(content) + ([false, true] + LowBits(run, 4))
    {
      content := content + [false];
      content := content + [true];
      PushBits(run, 4);
    }

    method PushLongBlock(run: U64)
      modifies this
      ensures content == old(content) + ([false, false] + BytesBits(Varint(run)))
    {
      hide LowBits, Varint, BytesBits;
      content := content + [false];
      content := content + [false];
      ghost var header := content;
      ghost var written: seq<bool> := [];
      var slice := run;
      while slice >= 128
        invariant content == header + written
        invariant BytesBits(Varint(run)) == written + BytesBits(Varint(slice))
        decreases slice
      {
        VarintUnfold(slice);
        PushBits(slice % 128 + 128, 8);
        written := written + LowBits(slice % 128 + 128, 8);
        slice := slice / 128;
      }
      VarintUnfold(slice);
      PushBits(slice, 8);
    }

    method PushBlock(run: U64)
      modifies this
      ensures content == old(content) + Block(run)
      ensures run == 1 ==> content == old(content) + [true]
      ensures 2 <= run < 16 ==> |content| == |old(content)| + 6
      ensures run >= 16 ==> exists m: nat | m > 0 ::
                              Pow128(m - 1) <= run < Pow128(m) && |content| == |old(content)| + 2 + 8 * m
    {
      BlockLengths(run);
      if run == 1 {
        content := content + [true];
      } else if run < LONG_BLOCK_VALUE {
        PushSmallBlock(run);
      } else {
        PushLongBlock(run);
      }
    }

    // Encodes a set, given by its elements in order.
    method Write(input: seq<U64>)
      requires Ascending(input)
      modifies this
      ensures content == Stream(input != [] && input[0] == 0, Periods(input))
    {
      hide Runs, Block, Blocks;
      var periods := GetPeriods(input);
      InitContent();
      var flag := input != [] && input[0] == 0;
      content := content + [flag];
      assert periods[..0] == [] && Blocks([]) == [] by { NoBlocks(); }
      for i := 0 to |periods|
        invariant content == Stream(flag, periods[..i])
      {
        BlocksPush(periods[..i], periods[i]);
        assert periods[..i] + [periods[i]] == periods[..i + 1];
        PushBlock(periods[i]);
      }
      assert periods[..|periods|] == periods;
    }

    // The bytes of the stream, without one trailing zero byte.
    method Data() returns (bytes: seq<Byte>)
      ensures bytes == Trim(Pack(content))
    {
      bytes := [];
      var k := 0;
      while 8 * k < |content|
        invariant |bytes| == k <= (|content| + 7) / 8
        invariant bytes == Pack(content)[..k]
      {
        bytes := bytes + [PackedByte(content, k)];
        k := k + 1;
      }
      assert bytes == Pack(content);
      if bytes != [] && bytes[|bytes| - 1] == 0 {
        bytes := bytes[..|bytes| - 1];
      }
    }
  }

  lemma LongBytesUnfold(bits: seq<bool>, i: nat)
    ensures var slice := NumAt(bits, i, 8);
            slice < 256 &&
            LongBytes(bits, i) ==
              if slice < 128 then ([slice], i + 8)
              else ([slice] + LongBytes(bits, i + 8).0, LongBytes(bits, i + 8).1)
  {
    hide NumAt;
    Pow2Of8();
  }

  lemma VarintUnfold(n: nat)
    ensures BytesBits(Varint(n)) ==
            if n < 128 then LowBits(n, 8)
            else LowBits(n % 128 + 128, 8) + BytesBits(Varint(n / 128))
  {
    hide LowBits;
    if n < 128 {
      assert Varint(n)[1..] == [];
      assert BytesBits(Varint(n)) == LowBits(n, 8) + [];
    } else {
      assert Varint(n)[1..] == Varint(n / 128);
    }
  }

  // Run lengths of a set, without an empty first run.
  method GetPeriods(data: seq<U64>) returns (periods: seq<U64>)
    requires Ascending(data)
    ensures periods == Periods(data)
  {
    hide Sum;
    periods := [];
    if data == [] {
      return;
    }
    var prev := data[0];
    if prev != 0 {
      periods := periods + [prev];
    }
    periods := periods + [1];
    FirstPeriods(data);
    for i := 1 to |data|
      invariant prev == data[i - 1] && |periods| > 0
      invariant Ascending(data[..i]) && periods == Periods(data[..i])
    {
      PeriodsPush(data, i);
      var diff := data[i] - prev;
      if diff == 1 {
        periods := periods[|periods| - 1 := periods[|periods| - 1] + 1];
      }
      if diff > 1 {
        periods := periods + [diff - 1];
        periods := periods + [1];
      }
      prev := data[i];
    }
    assert data[..|data|] == data;
  }

  lemma FirstPeriods(data: seq<U64>)
    requires Ascending(data) && data != []
    ensures Ascending(data[..1])
    ensures Periods(data[..1]) == if data[0] != 0 then [data[0], 1] else [1]
  {
  }

  lemma PeriodsPush(data: seq<U64>, i: nat)
    requires Ascending(data) && 1 <= i < |data|
    ensures Ascending(data[..i]) && Ascending(data[..i + 1]) && Periods(data[..i]) != []
    ensures var before := Periods(data[..i]);
            if data[i] - data[i - 1] == 1
            then Last(before) + 1 < TWO_64 && Periods(data[..i + 1]) == before[|before| - 1 := Last(before) + 1]
            else Periods(data[..i + 1]) == before + [data[i] - data[i - 1] - 1] + [1]
  {
    hide Sum, Runs;
    assert data[..i + 1] == data[..i] + [data[i]];
    RunsPush(data[..i], data[i]);
    RunsAreCanonical(data[..i]);
  }

  method EncodeSet(input: seq<U64>) returns (bytes: seq<Byte>)
    requires Ascending(input)
    ensures bytes == Encode(input)
    ensures Decode(bytes) == if |bytes| <= 32768 then Ok(Elements(input)) else Err(MaxSizeExceed)
  {
    RoundTrip(input);
    if input == [] {
      return [];
    }
    var encoder := new RLEPlusEncodingStream();
    encoder.Write(input);
    bytes := encoder.Data();
  }

  // ---------------------------------------------------------------- decoder

  lemma {:induction false} MissingBitsAreZero(bits: seq<bool>, i: nat, count: nat)
    requires i >= |bits|
    ensures NumAt(bits, i, count) == 0
    decreases count
  {
    if count > 0 {
      MissingBitsAreZero(bits, i + 1, count - 1);
    }
  }

  lemma NumAtStep(bits: seq<bool>, i: nat, count: nat, shift: nat)
    requires count > 0
    ensures ShiftLeft(NumAt(bits, i, count), shift) ==
            ShiftLeft(if Bit(bits, i) then 1 else 0, shift) + ShiftLeft(NumAt(bits, i + 1, count - 1), shift + 1)
  {
    hide ShiftLeft, Bit;
    var rest := NumAt(bits, i + 1, count - 1);
    ShiftIsLinear(if Bit(bits, i) then 1 else 0, rest, shift);
  }

  lemma ShiftIsLinear(bit: nat, rest: nat, shift: nat)
    ensures ShiftLeft(bit + 2 * rest, shift) == ShiftLeft(bit, shift) + ShiftLeft(rest, shift + 1)
  {
    hide Pow2;
    var p := Pow2(shift);
    assert Pow2(shift + 1) == 2 * p by { Pow2Doubles(shift); }
    assert (bit + 2 * rest) * p == bit * p + rest * (2 * p);
  }

  // Inserts a run of numbers one by one; the numbers wrap around at 2^64.
  method InsertRun(output: set<U64>, value: U64, run: U64) returns (grown: set<U64>, next: U64)
    ensures grown == output + Span(value, run) && next == (value + run) % TWO_64
  {
    grown, next := output, value;
    assert Span(value, 0) == {};
    for i := 0 to run
      invariant grown == output + Span(value, i) && next == (value + i) % TWO_64
    {
      SpanGrows(value, i);
      grown := grown + {next};
      next := (next + 1) % TWO_64;
    }
  }

  lemma SpanGrows(value: U64, run: U64)
    requires run + 1 < TWO_64
    ensures Span(value, run + 1) == Span(value, run) + {(value + run) % TWO_64}
  {
    var x := (value + run) % TWO_64;
    forall y | 0 <= y < TWO_64
      ensures InSpan(y, value, run + 1) <==> InSpan(y, value, run) || y == x
    {
    }
  }

  class RLEPlusDecodingStream {
    var index: nat
    var magnitude: bool
    const content: seq<bool>

    constructor (data: seq<Byte>)
      ensures index == 0 && content == UnpackBits(data)
    {
      index, magnitude, content := 0, false, UnpackBits(data);
    }

    // The next `count` bits as a number; bits beyond the end count as zero.
    method GetSpan(count: nat) returns (value: nat)
      modifies this`index
      ensures value == NumAt(content, old(index), count)
      ensures index == old(index) + count
    {
      hide NumAt, ShiftLeft;
      value := 0;
      var shift := 0;
      var end := if |content| < index + count then |content| else index + count;
      var i := index;
      ghost var whole := NumAt(content, index, count);
      assert ShiftLeft(whole, 0) == whole by { ShiftByNothing(whole); }
      while i < end
        invariant index == old(index) && index <= i && shift == i - index && (i <= end || i == index)
        invariant value + ShiftLeft(NumAt(content, i, count - shift), shift) == whole
      {
        NumAtStep(content, i, count - shift, shift);
        value := value + ShiftLeft(if content[i] then 1 else 0, shift);
        shift := shift + 1;
        i := i + 1;
      }
      SpanEnds(content, i, count - shift, shift);
      index := index + count;
    }

    method DecodeLongBlock() returns (r: Result<U64, Error>)
      modifies this`index
      ensures r == Unpack(LongBytes(content, old(index)).0, 0, 0)
      ensures index == LongBytes(content, old(index)).1
    {
      hide NumAt, Unpack, LongBytes, Pow2, Bit;
      Pow2Of8();
      var bytes: seq<Byte> := [];
      var slice := GetSpan(8);
      ghost var whole := LongBytes(content, old(index));
      assert bytes + whole.0 == whole.0;
      while slice >= 128
        invariant 0 <= slice < 256 && index >= 8 && slice == NumAt(content, index - 8, 8)
        invariant whole.0 == bytes + LongBytes(content, index - 8).0
        invariant whole.1 == LongBytes(content, index - 8).1
        decreases |content| + 8 - index
      {
        TopBitIsInside(content, index - 8);
        LongBytesUnfold(content, index - 8);
        ghost var rest := LongBytes(content, index).0;
        assert bytes + ([slice] + rest) == bytes + [slice] + rest;
        bytes := bytes + [slice];
        slice := GetSpan(8);
      }
      LongBytesUnfold(content, index - 8);
      bytes := bytes + [slice];
      r := UnpackBytes(bytes);
    }

    static method UnpackBytes(bytes: seq<Byte>) returns (r: Result<U64, Error>)
      ensures r == Unpack(bytes, 0, 0)
    {
      hide ShiftLeft;
      var value: U64 := 0;
      var shift := 0;
      assert bytes[0..] == bytes;
      for i := 0 to |bytes|
        invariant Unpack(bytes, 0, 0) == Unpack(bytes[i..], shift, value)
      {
        if shift > 64 {
          return Err(UnpackOverflow);
        }
        assert bytes[i..][1..] == bytes[i + 1..];
        value := (value + ShiftLeft(bytes[i] % 128, shift)) % TWO_64;
        if bytes[i] < 128 {
          return Ok(value);
        }
        shift := shift + 7;
      }
      return Ok(value);
    }

    // The run of the next block.
    method DecodeBlock() returns (r: Result<U64, Error>)
      modifies this`index
      ensures match ParseBlock(content, old(index))
              case Err(e) => r == Err(e)
              case Ok((run, next)) => r == Ok(run) && index == next
    {
      hide LongBytes, Unpack;
      Pow2Of8();
      var header := GetSpan(1);
      if header == 1 {
        return Ok(1);
      }
      header := GetSpan(1);
      if header == 0 {
        r := DecodeLongBlock();
      } else {
        var run := GetSpan(4);
        return Ok(run);
      }
    }

    // Decodes the whole stream into a set.
    method Read() returns (r: Result<set<U64>, Error>)
      requires index == 0
      modifies this
      ensures r == DecodeStream(content)
    {
      hide ParseBlock, NumAt, FromRuns, Sum, Span;
      if |content| < 4 {
        return Err(VersionMismatch);
      }
      var version := GetSpan(2);
      if version != 0 {
        return Err(VersionMismatch);
      }
      var flag := GetSpan(1);
      magnitude := flag == 1;
      ghost var first := magnitude;
      var output: set<U64> := {};
      var value: U64 := 0;
      ghost var done: seq<U64> := [];
      NoRuns();
      assert DecodeRuns(content, 3).Ok? ==> done + DecodeRuns(content, 3).value == DecodeRuns(content, 3).value;
      while AnySet(content, index)
        invariant output == FromRuns(done, first) && value == Sum(done) % TWO_64
        invariant magnitude == Present(first, |done|)
        invariant DecodeRuns(content, 3) == Prepend(done, DecodeRuns(content, index))
        decreases |content| - index
      {
        ghost var before := index;
        var run := DecodeBlock();
        if run.Err? {
          return Err(run.error);
        }
        if magnitude {
          output, value := InsertRun(output, value, run.value);
        } else {
          value := (value + run.value) % TWO_64;
        }
        magnitude := !magnitude;
        FromRunsPush(done, run.value, first);
        PrependStep(done, run.value, DecodeRuns(content, index));
        done := done + [run.value];
      }
      assert done + [] == done;
      return Ok(output);
    }
  }

  ghost function Prepend(done: seq<U64>, rest: Result<seq<U64>, Error>): (r: Result<seq<U64>, Error>) {
    match rest
    case Err(e) => Err(e)
    case Ok(runs) => Ok(done + runs)
  }

  lemma PrependStep(done: seq<U64>, run: U64, rest: Result<seq<U64>, Error>)
    ensures Prepend(done, Prepend([run], rest)) == Prepend(done + [run], rest)
  {
    if rest.Ok? {
      assert done + ([run] + rest.value) == done + [run] + rest.value;
    }
  }

  lemma ShiftByNothing(n: nat)
    ensures ShiftLeft(n, 0) == n
  {
  }

  lemma SpanEnds(bits: seq<bool>, i: nat, count: nat, shift: nat)
    requires count == 0 || i >= |bits|
    ensures ShiftLeft(NumAt(bits, i, count), shift) == 0
  {
    if count > 0 {
      MissingBitsAreZero(bits, i, count);
    }
  }

  method DecodeBytes(input: seq<Byte>) returns (r: Result<set<U64>, Error>)
    ensures r == Decode(input)
  {
    if input == [] {
      return Ok({});
    }
    if |input| > BYTES_MAX_SIZE {
      return Err(MaxSizeExceed);
    }
    var decoder := new RLEPlusDecodingStream(input);
    r := decoder.Read();
  }

  // ---------------------------------------------------------------- run lengths

  method ToRuns(data: seq<U64>) returns (runs: seq<U64>)
    requires Ascending(data)
    ensures runs == Runs(data)
  {
    hide Sum, Runs;
    RunsOfFew(data);
    runs := [];
    if data != [] {
      var last := data[0];
      runs := runs + [last];
      runs := runs + [1];
      for i := 1 to |data|
        invariant last == data[i - 1]
        invariant Ascending(data[..i]) && runs == Runs(data[..i])
      {
        assert data[..i + 1] == data[..i] + [data[i]];
        RunsPush(data[..i], data[i]);
        var diff := data[i] - last;
        if diff == 1 {
          runs := runs[|runs| - 1 := runs[|runs| - 1] + 1];
        } else {
          runs := runs + [diff - 1];
          runs := runs + [1];
        }
        last := data[i];
      }
      assert data[..|data|] == data;
    }
  }

  lemma RunsOfFew(data: seq<U64>)
    requires Ascending(data)
    ensures data == [] ==> Runs(data) == []
    ensures data != [] ==> Ascending(data[..1]) && Runs(data[..1]) == [data[0], 1]
  {
  }

  // Where the loop over a run stands: its 32-bit counter, and the set so far.
  datatype RunLoop = RunLoop(i: nat, grown: set<U64>)

  // After `k` passes through the body of the loop.
  ghost function AfterPasses(output: set<U64>, value: U64, k: nat): (r: RunLoop) {
    if k == 0 then RunLoop(0, output)
    else
      var before := AfterPasses(output, value, k - 1);
      RunLoop((before.i + 1) % TWO_32, before.grown + {(value + before.i) % TWO_64})
  }

  lemma FirstPass(output: set<U64>, value: U64)
    ensures AfterPasses(output, value, 0) == RunLoop(0, output)
  {
  }

  lemma NextPass(output: set<U64>, value: U64, k: nat)
    ensures var before := AfterPasses(output, value, k);
            AfterPasses(output, value, k + 1) ==
              RunLoop((before.i + 1) % TWO_32, before.grown + {(value + before.i) % TWO_64})
  {
  }

  // The guard holds before each of `k` passes, and no longer.
  ghost predicate EndsAfter(output: set<U64>, value: U64, run: U64, k: nat) {
    AfterPasses(output, value, k).i >= run && forall j: nat | j < k :: AfterPasses(output, value, j).i < run
  }

  lemma {:induction false} CounterWraps(output: set<U64>, value: U64, k: nat)
    ensures AfterPasses(output, value, k).i < TWO_32
    ensures k < TWO_32 ==> AfterPasses(output, value, k).i == k && AfterPasses(output, value, k).grown == output + Span(value, k)
  {
    hide AfterPasses, Span;
    if k == 0 {
      FirstPass(output, value);
      assert Span(value, 0) == {} by { EmptySpan(value); }
    } else {
      CounterWraps(output, value, k - 1);
      NextPass(output, value, k - 1);
      if k < TWO_32 {
        SpanGrows(value, k - 1);
      }
    }
  }

  lemma EmptySpan(value: U64)
    ensures Span(value, 0) == {}
  {
  }

  // Theorem: the loop over a member run ends, after as many passes as the run is long and with
  // exactly its numbers inserted, if and only if the run is shorter than 2^32; otherwise its guard
  // holds after any number of passes.
  lemma CounterEndsExactlyOnShortRuns(output: set<U64>, value: U64, run: U64)
    ensures (exists k: nat :: EndsAfter(output, value, run, k)) <==> run < TWO_32
    ensures run < TWO_32 ==>
              EndsAfter(output, value, run, run) && AfterPasses(output, value, run).grown == output + Span(value, run)
    ensures run >= TWO_32 ==> forall k: nat :: AfterPasses(output, value, k).i < run
  {
    hide AfterPasses, Span;
    forall k: nat
      ensures AfterPasses(output, value, k).i < TWO_32
      ensures k < TWO_32 ==> AfterPasses(output, value, k).i == k
    {
      CounterWraps(output, value, k);
    }
    if run < TWO_32 {
      CounterWraps(output, value, run);
      var k: nat := run;
      assert EndsAfter(output, value, run, k);
    }
  }

  // The shortest run that is never finished.
  lemma EndlessRun(output: set<U64>, value: U64)
    ensures forall k: nat :: !EndsAfter(output, value, TWO_32, k) && AfterPasses(output, value, k).i < TWO_32
  {
    CounterEndsExactlyOnShortRuns(output, value, TWO_32);
  }

  method FromRunsSet(runs: seq<U64>) returns (result: set<U64>)
    requires forall i | 0 <= i < |runs| :: i % 2 == 1 ==> runs[i] < TWO_32
    ensures result == FromRuns(runs, false)
  {
    hide FromRuns, Sum, Span;
    result := {};
    var value: U64 := 0;
    var present := false;
    NoRuns();
    for k := 0 to |runs|
      invariant result == FromRuns(runs[..k], false) && value == Sum(runs[..k]) % TWO_64
      invariant present == Present(false, k)
    {
      FromRunsPush(runs[..k], runs[k], false);
      assert runs[..k] + [runs[k]] == runs[..k + 1];
      if present {
        result := InsertShortRun(result, value, runs[k]);
      }
      value := (value + runs[k]) % TWO_64;
      present := !present;
    }
    assert runs[..|runs|] == runs;
  }

  method InsertShortRun(output: set<U64>, value: U64, run: U64) returns (grown: set<U64>)
    requires run < TWO_32
    ensures grown == output + Span(value, run)
  {
    hide Span, AfterPasses, EndsAfter;
    grown := output;
    var i := 0;
    ghost var passes := 0;
    FirstPass(output, value);
    CounterEndsExactlyOnShortRuns(output, value, run);
    while i < run
      invariant 0 <= i <= run && passes == i && RunLoop(i, grown) == AfterPasses(output, value, passes)
    {
      NextPass(output, value, passes);
      grown := grown + {(value + i) % TWO_64};
      i := (i + 1) % TWO_32;
      passes := passes + 1;
    }
  }
}
