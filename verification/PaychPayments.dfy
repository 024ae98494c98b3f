// From payer to receiver: vouchers that one side makes, and the other side adds.
module PaychPayments {
  import opened Base
  import opened PaychVouchers
  import opened PaychLedger
  import opened PaychAcceptance

  // The receiver has accepted exactly the vouchers that the payer has made.
  ghost predicate Mirrors(payer: Row, receiver: Row) {
    && Ordered(payer.lanes) && Received(receiver.lanes)
    && forall k: LaneId :: VouchersAt(payer.lanes, k) == VouchersAt(receiver.lanes, k)
  }

  // Both sides then see the same lanes.
  lemma MirrorsCombine(base: Lanes, payer: Row, receiver: Row)
    requires Mirrors(payer, receiver)
    ensures Combine(base, payer.lanes, false) == Combine(base, receiver.lanes, true)
    ensures TotalOf(base, payer.lanes, false) == TotalOf(base, receiver.lanes, true)
  {
    hide Combine, Raise, CountedAt, VouchersAt, Ordered, Received, LanesOrdered;
    var m, n := Combine(base, payer.lanes, false), Combine(base, receiver.lanes, true);
    ReceivedIsOrdered(receiver.lanes);
    OrderedParts(payer.lanes);
    forall k: LaneId
      ensures Lookup(m, k) == Lookup(n, k)
    {
      CombineAt(base, payer.lanes, false, k);
      CombineAt(base, receiver.lanes, true, k);
      CountedIsAll(payer.lanes, k);
      ReceivedAt(receiver.lanes, k);
    }
    SameLookups(m, n);
  }

  lemma MakeKeepsOthers(row: Row, actor: ActorState, lane: LaneId, amount: int, sign: Result<nat, Error>, k: LaneId)
    requires Ordered(row.lanes) && Make(row, actor, lane, amount, sign).Ok? && k != lane
    ensures VouchersAt(Make(row, actor, lane, amount, sign).value.0.lanes, k) == VouchersAt(row.lanes, k)
  {
    hide Combine, TotalOf, Ordered, WithLane, InsertVoucher, LanesOrdered, CountedAt, VouchersOrdered;
    var lanes, i := row.lanes, LaneIndex(row.lanes, lane);
    OrderedParts(lanes);
    LaneAfterWith(lanes, lane);
    var (r, v) := Make(row, actor, lane, amount, sign).value;
    var lv := WithLane(lanes, lane)[i];
    var next := lv.(vouchers := InsertVoucher(lv.vouchers, v));
    assert r.lanes == WithLane(lanes, lane)[i := next];
    CountedAfterUpdate(lanes, lane, next, false, k);
    CountedIsAll(lanes, k);
    CountedIsAll(r.lanes, k);
  }

  // Theorem: a voucher that was made is accepted by the other side, for what it adds, unless more is
  // asked for; and both sides agree again.
  lemma PaymentArrives(payer: Row, receiver: Row, actor: ActorState, lane: LaneId, amount: int, sign: Result<nat, Error>,
                       minDelta: int)
    requires Mirrors(payer, receiver) && Make(payer, actor, lane, amount, sign).Ok?
    ensures var (sent, v) := Make(payer, actor, lane, amount, sign).value;
            var delta := amount - Promised(actor.lanes, payer.lanes, lane, false);
            delta > 0 &&
            match Add(receiver, actor, v, minDelta, Ok(true))
            case Err(e) => minDelta > delta && e == InsufficientVoucher
            case Ok((kept, value)) => minDelta <= delta && value == delta && Mirrors(sent, kept)
  {
    hide Make, Add, Combine, TotalOf, Promised, AllPromised, Ordered, Received, VouchersAt, NonceIsNew;
    var (sent, v) := Make(payer, actor, lane, amount, sign).value;
    MakesExactly(payer, actor, lane, amount, sign);
    MakeIsExact(payer, actor, lane, amount, sign);
    ReceivedIsOrdered(receiver.lanes);
    MirrorsCombine(actor.lanes, payer, receiver);
    PromisedIsRedeem(actor.lanes, payer.lanes, lane, false);
    PromisedIsRedeem(actor.lanes, receiver.lanes, lane, true);
    TotalIsPromised(actor.lanes, payer.lanes, false);
    TotalIsPromised(actor.lanes, receiver.lanes, true);
    MadeNonceIsNew(payer, receiver, actor, lane, amount, sign);
    AcceptsExactly(receiver, actor, v, minDelta, Ok(true));
    RefusedWithReason(receiver, actor, v, minDelta, Ok(true));
    if Add(receiver, actor, v, minDelta, Ok(true)).Ok? {
      ArrivedMirrors(payer, receiver, actor, lane, amount, sign, minDelta);
    }
  }

  lemma MadeNonceIsNew(payer: Row, receiver: Row, actor: ActorState, lane: LaneId, amount: int, sign: Result<nat, Error>)
    requires Mirrors(payer, receiver) && Make(payer, actor, lane, amount, sign).Ok?
    ensures var v := Make(payer, actor, lane, amount, sign).value.1;
            v.lane == lane && NonceIsNew(actor.lanes, receiver.lanes, v) && !UsedByOther(receiver.lanes, v) &&
            !Stands(receiver.lanes, lane, true, v)
  {
    hide Make, Ordered, Received, Combine, TotalOf, VouchersAt, Stands, CountedAt;
    MakeIsExact(payer, actor, lane, amount, sign);
    var v := Make(payer, actor, lane, amount, sign).value.1;
    ReceivedIsOrdered(receiver.lanes);
    forall w
      ensures Stands(receiver.lanes, lane, true, w) ==> w.nonce < v.nonce
    {
      CountedStands(receiver.lanes, lane, true, w);
      ReceivedAt(receiver.lanes, lane);
    }
  }

  lemma ArrivedMirrors(payer: Row, receiver: Row, actor: ActorState, lane: LaneId, amount: int, sign: Result<nat, Error>,
                       minDelta: int)
    requires Mirrors(payer, receiver) && Make(payer, actor, lane, amount, sign).Ok?
    requires var r := Add(receiver, actor, Make(payer, actor, lane, amount, sign).value.1, minDelta, Ok(true));
             r.Ok? && r.value.1 > 0
    ensures var (sent, v) := Make(payer, actor, lane, amount, sign).value;
            Mirrors(sent, Add(receiver, actor, v, minDelta, Ok(true)).value.0)
  {
    hide Make, Add, Ordered, Received, Combine, TotalOf, VouchersAt;
    var (sent, v) := Make(payer, actor, lane, amount, sign).value;
    MakeIsExact(payer, actor, lane, amount, sign);
    ReceivedIsOrdered(receiver.lanes);
    ReceiverAdd(receiver, actor, v, minDelta, Ok(true));
    AcceptedIsStored(receiver, actor, v, minDelta, Ok(true));
    var kept := Add(receiver, actor, v, minDelta, Ok(true)).value.0;
    forall k: LaneId
      ensures VouchersAt(sent.lanes, k) == VouchersAt(kept.lanes, k)
    {
      if k != lane {
        MakeKeepsOthers(payer, actor, lane, amount, sign, k);
      }
    }
  }

  // ---------------------------------------------------------------- runs

  datatype Payment = Payment(lane: LaneId, amount: int, sign: Result<nat, Error>)

  // Both rows after a run of payments, and whether every voucher made was accepted.
  ghost function Pay(payer: Row, receiver: Row, actor: ActorState, payments: seq<Payment>): (r: (Row, Row, bool))
    decreases |payments|
  {
    if payments == [] then (payer, receiver, true)
    else
      var p := payments[0];
      match Make(payer, actor, p.lane, p.amount, p.sign)
      case Err(_) => Pay(payer, receiver, actor, payments[1..])
      case Ok((sent, v)) =>
        match Add(receiver, actor, v, 0, Ok(true))
        case Err(_) => (sent, receiver, false)
        case Ok((kept, _)) => Pay(sent, kept, actor, payments[1..])
  }

  // Theorem: over every run of payments, everything made is accepted, and payer and receiver agree on
  // every voucher and on the total.
  lemma {:induction false} PaymentsArrive(payer: Row, receiver: Row, actor: ActorState, payments: seq<Payment>)
    requires Mirrors(payer, receiver)
    ensures var (sent, kept, ok) := Pay(payer, receiver, actor, payments);
            ok && Mirrors(sent, kept) && TotalOf(actor.lanes, sent.lanes, false) == TotalOf(actor.lanes, kept.lanes, true)
    decreases |payments|
  {
    hide Make, Add, TotalOf, Mirrors;
    if payments == [] {
      MirrorsCombine(actor.lanes, payer, receiver);
    } else {
      var p := payments[0];
      match Make(payer, actor, p.lane, p.amount, p.sign) {
        case Err(_) => PaymentsArrive(payer, receiver, actor, payments[1..]);
        case Ok((sent, v)) =>
          PaymentArrives(payer, receiver, actor, p.lane, p.amount, p.sign, 0);
          var kept := Add(receiver, actor, v, 0, Ok(true)).value.0;
          PaymentsArrive(sent, kept, actor, payments[1..]);
      }
    }
  }

  lemma NewRowsMirror()
    ensures Mirrors(EMPTY_ROW, EMPTY_ROW)
  {
  }

  // Theorem: between two new rows, every payment made arrives, and what the receiver counts is what the
  // payer has promised.
  lemma PaymentsFromNothing(actor: ActorState, payments: seq<Payment>)
    ensures var (sent, kept, ok) := Pay(EMPTY_ROW, EMPTY_ROW, actor, payments);
            && ok && (forall k: LaneId :: VouchersAt(sent.lanes, k) == VouchersAt(kept.lanes, k))
            && TotalOf(actor.lanes, sent.lanes, false) == TotalOf(actor.lanes, kept.lanes, true)
  {
    hide Pay, TotalOf;
    NewRowsMirror();
    PaymentsArrive(EMPTY_ROW, EMPTY_ROW, actor, payments);
  }
}
