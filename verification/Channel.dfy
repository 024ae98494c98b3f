// A channel between a writer and a reader: values are queued until a handler takes over.
module Channels {
  import opened Base

  type T = nat

  datatype State = Queue(values: seq<T>, closed: bool) | Handler | Closed

  // The state, the calls made to the handler (None is the end marker), and the writes accepted.
  datatype Channel = Channel(state: State, calls: seq<Option<T>>, accepted: seq<T>)

  // The handler's answer to its n-th call.
  type Answers = nat -> bool

  // ---------------------------------------------------------------- operations on values

  datatype Drained = Drained(calls: seq<Option<T>>, stop: bool)

  // Hands the queued values over until one is refused.
  function Drain(answer: Answers, calls: seq<Option<T>>, values: seq<T>): (r: Drained)
    decreases |values|
  {
    if values == [] then Drained(calls, false)
    else if !answer(|calls|) then Drained(calls + [Some(values[0])], true)
    else Drain(answer, calls + [Some(values[0])], values[1..])
  }

  datatype Operation = Write(value: T) | CloseWrite | Read | CloseRead

  // Whether the operation is accepted.
  predicate Accepts(c: Channel, op: Operation) {
    match op
    case Write(_) => c.state.Handler? || (c.state.Queue? && !c.state.closed)
    case CloseWrite => c.state.Handler? || (c.state.Queue? && !c.state.closed)
    case Read => c.state.Queue?
    case CloseRead => !c.state.Closed?
  }

  function WriteTo(answer: Answers, c: Channel, value: T): (r: Channel) {
    if !Accepts(c, Write(value)) then c
    else if c.state.Queue? then
      c.(state := Queue(c.state.values + [value], false), accepted := c.accepted + [value])
    else
      Channel(if answer(|c.calls|) then Handler else Closed, c.calls + [Some(value)], c.accepted + [value])
  }

  function CloseWriteOf(c: Channel): (r: Channel) {
    if !Accepts(c, CloseWrite) then c
    else if c.state.Queue? then c.(state := Queue(c.state.values, true))
    else c.(state := Closed, calls := c.calls + [None])
  }

  function ReadFrom(answer: Answers, c: Channel): (r: Channel) {
    if !Accepts(c, Read) then c
    else
      var d := Drain(answer, c.calls, c.state.values);
      if d.stop then c.(state := Closed, calls := d.calls)
      else if c.state.closed then c.(state := Closed, calls := d.calls + [None])
      else c.(state := Handler, calls := d.calls)
  }

  function CloseReadOf(c: Channel): (r: Channel) {
    if !Accepts(c, CloseRead) then c
    else if c.state.Handler? then c.(state := Closed, calls := c.calls + [None])
    else c.(state := Closed)
  }

  function Perform(answer: Answers, c: Channel, op: Operation): (r: Channel) {
    match op
    case Write(value) => WriteTo(answer, c, value)
    case CloseWrite => CloseWriteOf(c)
    case Read => ReadFrom(answer, c)
    case CloseRead => CloseReadOf(c)
  }

  // Operations hold the lock, so every interleaving is one after the other.
  function Run(answer: Answers, ops: seq<Operation>): (c: Channel)
    decreases |ops|
  {
    if ops == [] then Channel(Queue([], false), [], [])
    else Perform(answer, Run(answer, ops[..|ops| - 1]), ops[|ops| - 1])
  }

  // ---------------------------------------------------------------- what every run keeps

  ghost predicate AllValues(calls: seq<Option<T>>, values: seq<T>) {
    |calls| == |values| && forall i | 0 <= i < |calls| :: calls[i] == Some(values[i])
  }

  ghost predicate AllTrue(answer: Answers, n: nat) {
    forall i | 0 <= i < n :: answer(i)
  }

  // The calls are the first accepted values, in order, then possibly the end marker once all of
  // them are delivered; no call follows an answer of false.
  ghost predicate Orderly(answer: Answers, c: Channel) {
    match c.state
    case Queue(values, _) => c.calls == [] && values == c.accepted
    case Handler => AllValues(c.calls, c.accepted) && AllTrue(answer, |c.calls|)
    case Closed =>
      || c.calls == []
      || (Ended(c) && AllValues(c.calls[..|c.calls| - 1], c.accepted) && AllTrue(answer, |c.calls| - 1))
      || (|c.calls| <= |c.accepted| && AllValues(c.calls, c.accepted[..|c.calls|]) &&
          AllTrue(answer, |c.calls| - 1) && !answer(|c.calls| - 1))
  }

  // The handler received the end marker.
  predicate Ended(c: Channel) {
    c.calls != [] && c.calls[|c.calls| - 1] == None
  }

  lemma {:induction false} DrainIsOrderly(answer: Answers, values: seq<T>, n: nat)
    requires n <= |values| && AllTrue(answer, n)
    ensures var d := Drain(answer, Wrap(values[..n]), values[n..]);
            if d.stop then
              n < |d.calls| <= |values| && AllValues(d.calls, values[..|d.calls|]) && AllTrue(answer, |d.calls| - 1) &&
              !answer(|d.calls| - 1)
            else AllValues(d.calls, values) && AllTrue(answer, |values|)
    decreases |values| - n
  {
    if n < |values| {
      assert Wrap(values[..n]) + [Some(values[n])] == Wrap(values[..n + 1]);
      assert values[n..][0] == values[n] && values[n..][1..] == values[n + 1..];
      if answer(n) {
        DrainIsOrderly(answer, values, n + 1);
      } else {
        assert AllValues(Wrap(values[..n + 1]), values[..n + 1]);
      }
    } else {
      assert values[..n] == values;
    }
  }

  function Wrap(values: seq<T>): (r: seq<Option<T>>)
    ensures |r| == |values| && forall i | 0 <= i < |r| :: r[i] == Some(values[i])
  {
    seq(|values|, i requires 0 <= i < |values| => Some(values[i]))
  }

  lemma PerformIsOrderly(answer: Answers, c: Channel, op: Operation)
    requires Orderly(answer, c)
    ensures Orderly(answer, Perform(answer, c, op))
  {
    hide Drain;
    if op.Read? && c.state.Queue? {
      var values := c.state.values;
      assert values[..0] == [] && values[0..] == values && Wrap([]) == [];
      DrainIsOrderly(answer, values, 0);
      var d := Drain(answer, [], values);
      if !d.stop && c.state.closed {
        assert (d.calls + [None])[..|d.calls|] == d.calls;
      }
    } else if c.state.Handler? {
      assert (c.calls + [None])[..|c.calls|] == c.calls;
      if op.Write? {
        var r := Perform(answer, c, op);
        assert r.accepted[..|r.calls|] == r.accepted;
      }
    }
  }

  // Theorem: every run of operations, whatever the handler answers, is orderly.
  lemma {:induction false} EveryRunIsOrderly(answer: Answers, ops: seq<Operation>)
    ensures Orderly(answer, Run(answer, ops))
    decreases |ops|
  {
    hide Perform, Orderly;
    if ops == [] {
      assert Orderly(answer, Run(answer, [])) by { StartIsOrderly(answer); }
    } else {
      EveryRunIsOrderly(answer, ops[..|ops| - 1]);
      PerformIsOrderly(answer, Run(answer, ops[..|ops| - 1]), ops[|ops| - 1]);
    }
  }

  lemma StartIsOrderly(answer: Answers)
    ensures Orderly(answer, Channel(Queue([], false), [], []))
  {
  }

  // Theorem: what the handler is given is a prefix of what was accepted, in order; the end marker
  // comes at most once, last, and only after everything accepted; and no call follows an answer of
  // false or the end marker.
  lemma DeliveryIsFifo(answer: Answers, ops: seq<Operation>)
    ensures var c := Run(answer, ops);
            && (forall i | 0 <= i < |c.calls| - 1 :: c.calls[i].Some? && answer(i))
            && (forall i | 0 <= i < |c.calls| && c.calls[i].Some? ::
                  i < |c.accepted| && c.calls[i].value == c.accepted[i])
            && (Ended(c) ==> |c.calls| == |c.accepted| + 1 && c.state.Closed?)
            && (c.state.Handler? ==> |c.calls| == |c.accepted|)
  {
    hide Run;
    EveryRunIsOrderly(answer, ops);
    var c := Run(answer, ops);
    if c.state.Closed? && c.calls != [] {
      assert forall i | 0 <= i < |c.calls| - 1 :: c.calls[..|c.calls| - 1][i] == c.calls[i];
    }
  }

  // ---------------------------------------------------------------- what the operations add up to

  // The values of all writes, accepted or not.
  function Written(ops: seq<Operation>): (values: seq<T>)
    decreases |ops|
  {
    if ops == [] then []
    else
      var before, op := Written(ops[..|ops| - 1]), ops[|ops| - 1];
      if op.Write? then before + [op.value] else before
  }

  // The state that the operations stand for, whatever their order.
  ghost predicate StateIs(answer: Answers, c: Channel, read: bool, closeRead: bool, closeWrite: bool) {
    && (c.state.Queue? <==> !read && !closeRead)
    && (c.state.Queue? ==> (c.state.closed <==> closeWrite))
    && (c.state.Handler? <==> read && !closeRead && !closeWrite && AllTrue(answer, |c.calls|))
  }

  // The reader was told of the end, or has refused a value.
  ghost predicate Told(answer: Answers, c: Channel) {
    c.calls != [] && (Ended(c) || !answer(|c.calls| - 1))
  }

  ghost predicate Summed(answer: Answers, c: Channel, ops: seq<Operation>) {
    && StateIs(answer, c, Read in ops, CloseRead in ops, CloseWrite in ops)
    && c.accepted <= Written(ops)
    && (Accepts(c, CloseWrite) ==> c.accepted == Written(ops))
  }

  lemma OneMore(ops: seq<Operation>)
    requires ops != []
    ensures var front, op := ops[..|ops| - 1], ops[|ops| - 1];
            && (Read in ops <==> Read in front || op == Read)
            && (CloseRead in ops <==> CloseRead in front || op == CloseRead)
            && (CloseWrite in ops <==> CloseWrite in front || op == CloseWrite)
  {
    assert ops == ops[..|ops| - 1] + [ops[|ops| - 1]];
  }

  lemma PerformSums(answer: Answers, c: Channel, ops: seq<Operation>)
    requires ops != [] && Orderly(answer, c) && Summed(answer, c, ops[..|ops| - 1])
    ensures Summed(answer, Perform(answer, c, ops[|ops| - 1]), ops)
  {
    hide Drain;
    OneMore(ops);
    var op := ops[|ops| - 1];
    if op.Read? && c.state.Queue? {
      var values := c.state.values;
      assert values[..0] == [] && values[0..] == values && Wrap([]) == [];
      DrainIsOrderly(answer, values, 0);
    }
  }

  // Theorem: after any operations the channel is a queue if and only if neither a read nor a close
  // of the reader was among them; it hands values over if and only if there was a read, no close of
  // either side, and no refusal; otherwise it is closed. The writes accepted are the first of the
  // writes made, and all of them while the channel can still be written to.
  lemma {:induction false} OperationsAddUp(answer: Answers, ops: seq<Operation>)
    ensures Summed(answer, Run(answer, ops), ops)
    decreases |ops|
  {
    hide Perform, Orderly, Summed;
    if ops == [] {
      assert Summed(answer, Run(answer, []), []) by { NoOperations(answer); }
    } else {
      EveryRunIsOrderly(answer, ops[..|ops| - 1]);
      OperationsAddUp(answer, ops[..|ops| - 1]);
      PerformSums(answer, Run(answer, ops[..|ops| - 1]), ops);
    }
  }

  lemma NoOperations(answer: Answers)
    ensures Summed(answer, Channel(Queue([], false), [], []), [])
  {
  }

  // Theorem: a write is accepted if and only if neither side was closed before and no value was
  // refused; a read if and only if nothing was read before and the reader was not closed.
  lemma AcceptedExactly(answer: Answers, ops: seq<Operation>, value: T)
    ensures var c := Run(answer, ops);
            && (Accepts(c, Write(value)) <==>
                  CloseWrite !in ops && CloseRead !in ops && AllTrue(answer, |c.calls|))
            && (Accepts(c, CloseWrite) <==> Accepts(c, Write(value)))
            && (Accepts(c, Read) <==> Read !in ops && CloseRead !in ops)
  {
    hide Run;
    OperationsAddUp(answer, ops);
    EveryRunIsOrderly(answer, ops);
  }

  // A read was accepted, at the operation numbered `k`.
  ghost predicate ReadAt(answer: Answers, ops: seq<Operation>, k: nat) {
    k < |ops| && ops[k] == Read && Run(answer, ops[..k]).state.Queue?
  }

  lemma PerformTells(answer: Answers, c: Channel, op: Operation)
    requires Orderly(answer, c)
    requires c.state.Handler? || (op.Read? && c.state.Queue?) || (c.state.Closed? && Told(answer, c))
    ensures var r := Perform(answer, c, op); r.state.Handler? || (r.state.Closed? && Told(answer, r))
  {
    hide Drain;
    if op.Read? && c.state.Queue? {
      var values := c.state.values;
      assert values[..0] == [] && values[0..] == values && Wrap([]) == [];
      DrainIsOrderly(answer, values, 0);
    }
  }

  // Theorem: a reader that was accepted is told of the end when the channel is closed, unless it
  // has refused a value.
  lemma {:induction false} ReaderIsTold(answer: Answers, ops: seq<Operation>, k: nat)
    requires ReadAt(answer, ops, k)
    ensures var c := Run(answer, ops); c.state.Handler? || (c.state.Closed? && Told(answer, c))
    decreases |ops|
  {
    hide Perform, Orderly, Told;
    var front := ops[..|ops| - 1];
    EveryRunIsOrderly(answer, front);
    if k < |front| {
      assert front[..k] == ops[..k];
      ReaderIsTold(answer, front, k);
    }
    PerformTells(answer, Run(answer, front), ops[|ops| - 1]);
  }

  // A channel once closed stays as it is.
  lemma {:induction false} ClosedIsFinal(answer: Answers, before: seq<Operation>, after: seq<Operation>)
    requires Run(answer, before).state.Closed?
    ensures Run(answer, before + after) == Run(answer, before)
    decreases |after|
  {
    if after == [] {
      assert before + after == before;
    } else {
      var ops := before + after;
      assert ops[..|ops| - 1] == before + after[..|after| - 1];
      ClosedIsFinal(answer, before, after[..|after| - 1]);
    }
  }

  // ---------------------------------------------------------------- the channel as an object

  class ChannelObject {
    var state: State
    const answer: Answers
    // Calls made to the handler that is reading.
    var calls: seq<Option<T>>
    ghost var accepted: seq<T>

    ghost function View(): (c: Channel)
      reads this
    {
      Channel(state, calls, accepted)
    }

    constructor (answer: Answers)
      ensures View() == Run(answer, []) && this.answer == answer
    {
      this.answer := answer;
      state, calls, accepted := Queue([], false), [], [];
    }

    method Call(value: Option<T>) returns (more: bool)
      modifies this`calls
      ensures calls == old(calls) + [value] && more == answer(|old(calls)|)
    {
      more := answer(|calls|);
      calls := calls + [value];
    }

    method CanWrite() returns (r: bool)
      ensures r <==> Accepts(View(), Operation.CloseWrite)
    {
      match state
      case Queue(_, closed) => return !closed;
      case Handler => return true;
      case Closed => return false;
    }

    method Write(value: T) returns (ok: bool)
      modifies this
      ensures View() == WriteTo(answer, old(View()), value) && ok == Accepts(old(View()), Operation.Write(value))
    {
      if state.Queue? {
        if state.closed {
          return false;
        }
        state := Queue(state.values + [value], false);
      } else if state.Handler? {
        var more := Call(Some(value));
        if !more {
          state := Closed;
        }
      } else {
        return false;
      }
      accepted := accepted + [value];
      return true;
    }

    method CloseWrite() returns (ok: bool)
      modifies this
      ensures View() == CloseWriteOf(old(View())) && ok == Accepts(old(View()), Operation.CloseWrite)
    {
      if state.Queue? {
        if state.closed {
          return false;
        }
        state := Queue(state.values, true);
      } else if state.Handler? {
        var _ := Call(None);
        state := Closed;
      } else {
        return false;
      }
      return true;
    }

    method Read() returns (ok: bool)
      modifies this
      ensures View() == ReadFrom(answer, old(View())) && ok == Accepts(old(View()), Operation.Read)
    {
      if !state.Queue? {
        return false;
      }
      var values, closed := state.values, state.closed;
      var stop, i := false, 0;
      while i < |values|
        invariant 0 <= i <= |values| && state == old(state) && accepted == old(accepted)
        invariant !stop
        invariant Drain(answer, old(calls), values) == Drain(answer, calls, values[i..])
      {
        assert values[i..][0] == values[i] && values[i..][1..] == values[i + 1..];
        var more := Call(Some(values[i]));
        stop := !more;
        if stop {
          break;
        }
        i := i + 1;
      }
      if closed || stop {
        if !stop {
          var _ := Call(None);
        }
        state := Closed;
      } else {
        state := Handler;
      }
      return true;
    }

    method CloseRead() returns (ok: bool)
      modifies this
      ensures View() == CloseReadOf(old(View())) && ok == Accepts(old(View()), Operation.CloseRead)
    {
      if state.Closed? {
        return false;
      }
      if state.Handler? {
        var _ := Call(None);
      }
      state := Closed;
      return true;
    }
  }
}
