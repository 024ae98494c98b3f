// The resumable decoder that finds the end of one CBOR item in network chunks, with an
// explicit stack of outstanding item counts.
module CborBuffering {
  import opened Base
  import opened CborGrammar

  // A head of which only some argument bytes have arrived.
  datatype PartialHead = PartialHead(major: Major, value: nat)

  // `bytes` counts the outstanding argument bytes of `head`, or else outstanding payload bytes.
  datatype State = State(nested: seq<U64>, bytes: nat, head: Option<PartialHead>)

  datatype Status = Good | InvalidHead | SignedOverflow

  const IDLE := State([], 0, None)
  const RESET := State([1], 0, None)

  function MoreBytes(st: State): (n: nat) {
    if st.bytes != 0 then st.bytes else if st.nested == [] then 0 else 1
  }

  predicate Done(st: State) {
    MoreBytes(st) == 0 && st.nested == []
  }

  ghost predicate Consistent(st: State) {
    && (st.nested != [] ==> st.nested[|st.nested| - 1] > 0)
    && (st.head.Some? ==> st.nested != [] && 0 < st.bytes <= 8)
    && (st.head.Some? ==> st.head.value.value < Pow256(8 - st.bytes))
  }

  // ---------------------------------------------------------------- specification

  // Drops the exhausted counters on top of the stack.
  function Settle(nested: seq<U64>): (r: seq<U64>)
    ensures r != [] ==> r[|r| - 1] > 0
  {
    if nested != [] && nested[|nested| - 1] == 0 then Settle(nested[..|nested| - 1]) else nested
  }

  // One item of the innermost list begins.
  function TakeOne(nested: seq<U64>): (r: seq<U64>)
    requires nested != [] && nested[|nested| - 1] > 0
  {
    nested[|nested| - 1 := nested[|nested| - 1] - 1]
  }

  // A head is complete. None stands for a length or count that leaves the range of the signed
  // 64-bit type it is kept in.
  function HeadDone(nested: seq<U64>, major: Major, value: U64): (r: Option<State>)
    requires nested != [] && nested[|nested| - 1] > 0
  {
    var left := TakeOne(nested);
    if major == BYTES || major == TEXT then
      if value < TWO_63 then Some(State(Settle(left), value, None)) else None
    else if major == ARRAY then Some(State(Settle(left + [value]), 0, None))
    else if major == MAP then
      if value < TWO_62 then Some(State(Settle(left + [2 * value]), 0, None)) else None
    else if major == TAG then Some(State(Settle(left + [1]), 0, None))
    else Some(State(Settle(left), 0, None))
  }

  datatype StepResult = Next(st: State) | Stuck(status: Status)

  function AfterHead(nested: seq<U64>, major: Major, value: U64): (r: StepResult)
    requires nested != [] && nested[|nested| - 1] > 0
    ensures r.Stuck? ==> r.status == SignedOverflow
  {
    match HeadDone(nested, major, value)
    case None => Stuck(SignedOverflow)
    case Some(st) => Next(st)
  }

  // One byte into the decoder.
  function Step(st: State, byte: Byte): (r: StepResult)
    requires Consistent(st) && !Done(st)
    ensures r.Stuck? ==> r.status != Good
  {
    if st.head.Some? then
      var value := st.head.value.value * 256 + byte;
      if st.bytes > 1 then
        Next(st.(bytes := st.bytes - 1, head := Some(PartialHead(st.head.value.major, value))))
      else
        PartialFits(st);
        AfterHead(st.nested, st.head.value.major, value)
    else if st.bytes > 0 then Next(st.(bytes := st.bytes - 1))
    else
      match ExtraWidth(byte % 32)
      case None => Stuck(InvalidHead)
      case Some(w) =>
        if w == 0 then AfterHead(st.nested, byte / 32, byte % 32)
        else Next(st.(bytes := w, head := Some(PartialHead(byte / 32, 0))))
  }

  lemma PartialFits(st: State)
    requires Consistent(st) && st.head.Some?
    ensures st.bytes == 1 ==> st.head.value.value * 256 + 255 < TWO_64
  {
    Pow256Values();
    assert Pow256(8) == 256 * Pow256(7);
  }

  lemma StepKeepsConsistent(st: State, byte: Byte)
    requires Consistent(st) && !Done(st) && Step(st, byte).Next?
    ensures Consistent(Step(st, byte).st)
  {
    hide Settle;
    Pow256Values();
    if st.head.Some? && st.bytes > 1 {
      assert Pow256(8 - (st.bytes - 1)) == 256 * Pow256(8 - st.bytes);
    } else if st.head.None? && st.bytes == 0 {
      assert forall w: nat :: Pow256(w) > 0;
    }
  }

  datatype Fed = Fed(st: State, pos: nat, status: Status)

  // The decoder fed byte by byte from position `i` until it is done, is stuck, or has used up
  // the input. A byte on which it gets stuck is not taken.
  function Feed(st: State, s: seq<Byte>, i: nat): (r: Fed)
    requires Consistent(st) && i <= |s|
    ensures Consistent(r.st) && i <= r.pos <= |s|
    decreases |s| - i
  {
    if Done(st) || i == |s| then Fed(st, i, Good)
    else
      match Step(st, s[i])
      case Stuck(status) => Fed(st, i, status)
      case Next(next) =>
        StepKeepsConsistent(st, s[i]);
        Feed(next, s, i + 1)
  }

  // Skipping payload in bulk is feeding it byte by byte.
  lemma {:induction false} FeedPayload(st: State, s: seq<Byte>, i: nat, n: nat)
    requires Consistent(st) && st.head.None? && n <= st.bytes && i + n <= |s|
    ensures Feed(st, s, i) == Feed(st.(bytes := st.bytes - n), s, i + n)
    decreases n
  {
    if n > 0 {
      FeedPayload(st.(bytes := st.bytes - 1), s, i + 1, n - 1);
    }
  }

  // ---------------------------------------------------------------- decoder object

  class Decoder {
    var moreNested: seq<U64>
    var moreBytes: nat
    var partialHead: Option<PartialHead>

    ghost function View(): (st: State)
      reads this
    {
      State(moreNested, moreBytes, partialHead)
    }

    constructor ()
      ensures View() == IDLE
    {
      moreNested, moreBytes, partialHead := [], 0, None;
    }

    // Prepares for the next item.
    method Reset()
      requires View() == IDLE
      modifies this
      ensures View() == RESET
    {
      moreNested := moreNested + [1];
    }

    // Accounts for a complete head; false when its value does not fit the signed type.
    method FinishHead(major: Major, value: U64) returns (ok: bool)
      requires moreNested != [] && moreNested[|moreNested| - 1] > 0
      modifies this
      ensures match AfterHead(old(moreNested), major, value)
              case Stuck(_) => !ok
              case Next(st) => ok && View() == st
      ensures ok ==> moreBytes == (if major == BYTES || major == TEXT then value else 0) && partialHead.None?
    {
      hide Settle;
      partialHead := None;
      moreBytes := 0;
      moreNested := TakeOne(moreNested);
      if major == BYTES || major == TEXT {
        if value >= TWO_63 { return false; }
        moreBytes := value;
      } else if major == ARRAY {
        moreNested := moreNested + [value];
      } else if major == MAP {
        if value >= TWO_62 { return false; }
        moreNested := moreNested + [2 * value];
      } else if major == TAG {
        moreNested := moreNested + [1];
      }
      PopEnded();
      return true;
    }

    // Ends the lists that are complete.
    method PopEnded()
      modifies this`moreNested
      ensures moreNested == Settle(old(moreNested))
    {
      ghost var pushed := moreNested;
      while moreNested != [] && moreNested[|moreNested| - 1] == 0
        invariant Settle(moreNested) == Settle(pushed)
        decreases |moreNested|
      {
        moreNested := moreNested[..|moreNested| - 1];
      }
    }

    // Reads the argument bytes of the head begun in `partialHead`.
    method ContinueHead(input: seq<Byte>, start: nat) returns (consumed: nat)
      requires start <= |input| && partialHead.Some? && Consistent(View())
      modifies this
      ensures start <= consumed <= |input| && moreNested == old(moreNested)
      ensures moreBytes != 0 ==> consumed == |input|
      ensures start < |input| ==> start < consumed
      ensures partialHead.Some? && partialHead.value.major == old(partialHead).value.major
      ensures moreBytes != 0 ==>
                Consistent(View()) && Feed(old(View()), input, start) == Feed(View(), input, consumed)
      ensures moreBytes == 0 ==>
                partialHead.value.value < TWO_64 &&
                match AfterHead(moreNested, partialHead.value.major, partialHead.value.value)
                case Stuck(status) => Feed(old(View()), input, start).status == status
                case Next(st) => Consistent(st) &&
                                 Feed(old(View()), input, start) == Feed(st, input, consumed)
    {
      hide HeadDone;
      consumed := start;
      while consumed < |input| && moreBytes != 0
        invariant start <= consumed <= |input| && moreNested == old(moreNested)
        invariant moreBytes == 0 ==> start < consumed
        invariant partialHead.Some? && partialHead.value.major == old(partialHead).value.major
        invariant moreBytes != 0 ==>
                    Consistent(View()) && Feed(old(View()), input, start) == Feed(View(), input, consumed)
        invariant moreBytes == 0 ==>
                    partialHead.value.value < TWO_64 &&
                    match AfterHead(moreNested, partialHead.value.major, partialHead.value.value)
                    case Stuck(status) => Feed(old(View()), input, start).status == status
                    case Next(st) => Consistent(st) &&
                                     Feed(old(View()), input, start) == Feed(st, input, consumed)
      {
        PartialFits(View());
        if Step(View(), input[consumed]).Next? {
          StepKeepsConsistent(View(), input[consumed]);
        }
        moreBytes := moreBytes - 1;
        partialHead := Some(PartialHead(partialHead.value.major,
                                        partialHead.value.value * 256 + input[consumed]));
        consumed := consumed + 1;
      }
    }

    // Reads the next head, or as much of it as the input holds.
    method ReadHead(input: seq<Byte>, start: nat) returns (consumed: nat, valid: bool)
      requires start < |input| && moreNested != [] && Consistent(View())
      requires partialHead.None? ==> moreBytes == 0
      modifies this
      ensures start <= consumed <= |input| && moreNested == old(moreNested)
      ensures !valid ==> Feed(old(View()), input, start) == Fed(View(), consumed, InvalidHead)
      ensures valid ==> start < consumed && partialHead.Some?
      ensures valid && moreBytes != 0 ==>
                consumed == |input| && Consistent(View()) &&
                Feed(old(View()), input, start) == Feed(View(), input, consumed)
      ensures valid && moreBytes == 0 ==>
                partialHead.value.value < TWO_64 &&
                match AfterHead(moreNested, partialHead.value.major, partialHead.value.value)
                case Stuck(status) => Feed(old(View()), input, start).status == status
                case Next(st) => Consistent(st) &&
                                 Feed(old(View()), input, start) == Feed(st, input, consumed)
    {
      hide HeadDone;
      consumed := start;
      if partialHead.None? {
        var first := input[start];
        var w := ExtraWidth(first % 32);
        if w.None? {
          return start, false;
        }
        if Step(View(), first).Next? {
          StepKeepsConsistent(View(), first);
        }
        moreBytes := w.value;
        partialHead := Some(PartialHead(first / 32, if w.value == 0 then first % 32 else 0));
        consumed := start + 1;
      }
      if moreBytes != 0 {
        consumed := ContinueHead(input, consumed);
      }
      return consumed, true;
    }

    // Reads one head and whatever payload follows it in the input.
    method TakeHead(input: seq<Byte>, start: nat) returns (consumed: nat, status: Status)
      requires start < |input| && moreNested != [] && Consistent(View())
      requires partialHead.None? ==> moreBytes == 0
      modifies this
      ensures status != Good ==> status == Feed(old(View()), input, start).status
      ensures status == InvalidHead ==> Fed(View(), consumed, status) == Feed(old(View()), input, start)
      ensures status == Good ==>
                start < consumed <= |input| && Consistent(View()) &&
                (moreBytes != 0 ==> consumed == |input|) &&
                Feed(old(View()), input, start) == Feed(View(), input, consumed)
    {
      hide Feed, Step, AfterHead;
      var valid;
      consumed, valid := ReadHead(input, start);
      if !valid {
        return consumed, InvalidHead;
      }
      if moreBytes == 0 {
        var major, value := partialHead.value.major, partialHead.value.value;
        var fits := FinishHead(major, value);
        if !fits {
          return consumed, SignedOverflow;
        }
        if major == BYTES || major == TEXT {
          var partial := if value < |input| - consumed then value else |input| - consumed;
          FeedPayload(View(), input, consumed, partial);
          consumed := consumed + partial;
          moreBytes := value - partial;
        }
      }
      return consumed, Good;
    }

    // Continues reading an item; returns how many bytes were taken.
    method Consume(input: seq<Byte>) returns (consumed: nat, status: Status)
      requires Consistent(View()) && !Done(View())
      modifies this
      ensures status == Feed(old(View()), input, 0).status
      ensures status != SignedOverflow ==>
                View() == Feed(old(View()), input, 0).st && consumed == Feed(old(View()), input, 0).pos
    {
      hide Step;
      consumed := 0;
      if partialHead.None? && moreBytes != 0 {
        var partial := if moreBytes < |input| then moreBytes else |input|;
        FeedPayload(View(), input, 0, partial);
        moreBytes := moreBytes - partial;
        consumed := consumed + partial;
      }
      while consumed < |input| && moreNested != []
        invariant consumed <= |input| && Consistent(View())
        invariant partialHead.None? && moreBytes != 0 ==> consumed == |input|
        invariant Feed(old(View()), input, 0) == Feed(View(), input, consumed)
        decreases |input| - consumed
      {
        consumed, status := TakeHead(input, consumed);
        if status != Good {
          return;
        }
      }
      return consumed, Good;
    }
  }
}
