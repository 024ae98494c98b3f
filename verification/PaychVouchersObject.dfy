// The voucher store: one row per payment channel, loaded, updated and saved by each operation.
module PaychVouchersObject {
  import opened Base
  import Spec = PaychVouchers
  import opened PaychVouchers
  import opened PaychLedger
  import opened PaychAcceptance

  type Hash = nat

  // Lane states from the chain raised by stored vouchers, and the sum of their redeemed amounts.
  method LaneStates(actor: ActorState, rows: seq<LaneVouchers>, accepting: bool) returns (lanes: Lanes, total: int)
    ensures lanes == Combine(actor.lanes, rows, accepting)
    ensures total == TotalOf(actor.lanes, rows, accepting)
  {
    hide Raise, Counted;
    lanes := actor.lanes;
    for n := 0 to |rows|
      invariant lanes == Combine(actor.lanes, rows[..n], accepting)
    {
      assert rows[..n + 1][..n] == rows[..n];
      var counted := CountedVouchers(rows[n], accepting);
      if counted == [] {
        assert Raise(Lookup(lanes, rows[n].lane), counted) == Lookup(lanes, rows[n].lane) by { RaiseNothing(); }
        continue;
      }
      var raised := RaiseLane(Lookup(lanes, rows[n].lane), counted);
      lanes := lanes[rows[n].lane := raised];
    }
    assert rows[..|rows|] == rows;
    total := SumLanes(lanes);
  }

  lemma RaiseNothing()
    ensures forall base: Option<LaneState> :: Raise(base, []) == base
  {
  }

  method CountedVouchers(lv: LaneVouchers, accepting: bool) returns (vs: seq<Voucher>)
    ensures vs == Counted(lv, accepting)
  {
    if !accepting {
      return lv.vouchers;
    }
    if lv.added.None? {
      return [];
    }
    var end := 0;
    assert lv.vouchers[0..] == lv.vouchers;
    while end < |lv.vouchers| && lv.vouchers[end].nonce <= lv.added.value
      invariant 0 <= end <= |lv.vouchers|
      invariant UpTo(lv.vouchers, lv.added.value) == end + UpTo(lv.vouchers[end..], lv.added.value)
    {
      assert lv.vouchers[end..][1..] == lv.vouchers[end + 1..];
      end := end + 1;
    }
    return lv.vouchers[..end];
  }

  method RaiseLane(base: Option<LaneState>, vs: seq<Voucher>) returns (lane: LaneState)
    requires vs != []
    ensures Raise(base, vs) == Some(lane)
  {
    lane := if base.Some? then base.value else LaneState(vs[0].amount, vs[0].nonce);
    for i := 0 to |vs|
      invariant i == 0 ==> lane == if base.Some? then base.value else LaneState(vs[0].amount, vs[0].nonce)
      invariant i > 0 ==> Raise(base, vs[..i]) == Some(lane)
    {
      assert vs[..i + 1][..i] == vs[..i];
      lane := LaneState(Max(lane.redeem, vs[i].amount), Max(lane.nonce, vs[i].nonce));
    }
    assert vs[..|vs|] == vs;
  }

  method SumLanes(m: Lanes) returns (total: int)
    ensures total == SumRedeem(m)
  {
    total := 0;
    var rest := m;
    while rest != map[]
      invariant total + SumRedeem(rest) == SumRedeem(m)
      decreases |rest|
    {
      var k :| k in rest;
      SumWithout(rest, k);
      total := total + rest[k].redeem;
      rest := rest - {k};
    }
  }

  method FindLane(lanes: seq<LaneVouchers>, k: LaneId) returns (i: nat)
    ensures i == LaneIndex(lanes, k)
  {
    i := 0;
    assert lanes[0..] == lanes;
    while i < |lanes| && lanes[i].lane < k
      invariant 0 <= i <= |lanes| && LaneIndex(lanes, k) == i + LaneIndex(lanes[i..], k)
    {
      assert lanes[i..][1..] == lanes[i + 1..];
      i := i + 1;
    }
  }

  method FindNonce(vs: seq<Voucher>, v: Voucher) returns (i: nat)
    ensures i == VoucherIndex(vs, v)
  {
    i := 0;
    assert vs[0..] == vs;
    while i < |vs| && VoucherLess(vs[i], v)
      invariant 0 <= i <= |vs| && VoucherIndex(vs, v) == i + VoucherIndex(vs[i..], v)
    {
      assert vs[i..][1..] == vs[i + 1..];
      i := i + 1;
    }
  }

  // The place of a voucher in a row; a missing lane is added to the row.
  method FindVoucher(row: Row, v: Voucher) returns (found: bool, lanes: seq<LaneVouchers>, i: nat, j: nat)
    ensures lanes == WithLane(row.lanes, v.lane) && i == LaneIndex(lanes, v.lane) && i < |lanes|
    ensures j == VoucherIndex(lanes[i].vouchers, v) && found == Found(lanes[i].vouchers, v)
    ensures j <= |lanes[i].vouchers| && (found ==> j < |lanes[i].vouchers|)
  {
    lanes := row.lanes;
    i := FindLane(lanes, v.lane);
    if i == |lanes| || lanes[i].lane != v.lane {
      lanes := lanes[..i] + [LaneVouchers(v.lane, None, [])] + lanes[i..];
    }
    var vs := lanes[i].vouchers;
    j := FindNonce(vs, v);
    found := j < |vs| && vs[j].lane == v.lane && vs[j].nonce == v.nonce;
  }

  class Vouchers {
    var rows: map<Hash, Row>

    function RowOf(paych: Hash): (row: Row)
      reads this
    {
      if paych in rows then rows[paych] else EMPTY_ROW
    }

    constructor ()
      ensures forall paych :: RowOf(paych) == EMPTY_ROW
    {
      rows := map[];
    }

    method Save(paych: Hash, row: Row)
      modifies this
      ensures RowOf(paych) == row && forall p | p != paych :: RowOf(p) == old(RowOf(p))
    {
      rows := rows[paych := row];
    }

    // Checks a voucher against an accepting view of the lanes.
    static method CheckVoucher(actor: ActorState, lanes: seq<LaneVouchers>, v: Voucher, verify: Result<bool, Error>)
      returns (delta: Result<int, Error>, total: int)
      ensures delta == Check(actor.lanes, lanes, v, verify)
      ensures delta.Ok? ==> total == TotalOf(actor.lanes, lanes, true)
      ensures Ordered(lanes) ==>
                && (delta.Ok? <==> Plain(v) && Signed(v, verify) && NonceIsNew(actor.lanes, lanes, v) &&
                                   v.amount > Promised(actor.lanes, lanes, v.lane, true))
                && (delta.Ok? ==> delta.value == v.amount - Promised(actor.lanes, lanes, v.lane, true))
    {
      hide Ordered, NonceIsNew, Promised;
      if Ordered(lanes) {
        CheckMeans(actor.lanes, lanes, v, verify);
      }
      total := 0;
      if v.timeLockMin != 0 { return Err(TimeLockMin), total; }
      if v.timeLockMax != 0 { return Err(TimeLockMax), total; }
      if v.secretPreimage != [] { return Err(SecretPreimage), total; }
      if v.hasExtra { return Err(Extra), total; }
      if v.merges != 0 { return Err(Merges), total; }
      if v.signature.None? { return Err(EmptySignature), total; }
      if verify.Err? { return Err(verify.error), total; }
      if !verify.value { return Err(InvalidSignature), total; }
      var states;
      states, total := LaneStates(actor, lanes, true);
      if v.lane in states && v.nonce <= states[v.lane].nonce {
        return Err(NonceTooLow), total;
      }
      var value := v.amount - RedeemOf(Lookup(states, v.lane));
      if value <= 0 {
        return Err(NoValue), total;
      }
      return Ok(value), total;
    }

    // Tells whether a voucher would be good, and changes nothing.
    method CheckOnly(paych: Hash, chain: Result<ActorState, Error>, v: Voucher, verify: Result<bool, Error>)
      returns (r: Result<int, Error>)
      ensures r == if chain.Err? then Err(chain.error) else CheckRow(RowOf(paych), chain.value, v, verify)
      ensures chain.Ok? && Ordered(RowOf(paych).lanes) ==>
                && (r.Ok? <==> Good(RowOf(paych), chain.value, v, 0, verify))
                && (r.Ok? ==> r.value == v.amount - Promised(chain.value.lanes, RowOf(paych).lanes, v.lane, true))
    {
      hide Check, TotalOf, Ordered, Good, Promised, NonceIsNew;
      if chain.Err? {
        return Err(chain.error);
      }
      if Ordered(RowOf(paych).lanes) {
        ChecksExactly(RowOf(paych), chain.value, v, verify);
      }
      var delta, total := CheckVoucher(chain.value, RowOf(paych).lanes, v, verify);
      if delta.Err? {
        return delta;
      }
      if total + delta.value > chain.value.balance {
        return Err(InsufficientBalance);
      }
      return delta;
    }

    // Accepts a voucher; `chain` is the state of the channel, or why it could not be loaded.
    method Add(paych: Hash, chain: Result<ActorState, Error>, v: Voucher, minDelta: int, verify: Result<bool, Error>)
      returns (r: Result<int, Error>)
      modifies this
      ensures chain.Err? ==> r == Err(chain.error) && unchanged(this)
      ensures chain.Ok? ==>
                match Spec.Add(old(RowOf(paych)), chain.value, v, minDelta, verify)
                case Err(e) => r == Err(e) && unchanged(this)
                case Ok((row, delta)) => r == Ok(delta) && RowOf(paych) == row
      ensures chain.Ok? && Ordered(old(RowOf(paych)).lanes) ==>
                Judged(old(RowOf(paych)), chain.value, v, minDelta, verify, r)
      ensures forall p | p != paych :: RowOf(p) == old(RowOf(p))
    {
      hide Check, TotalOf, WithLane, LaneIndex, VoucherIndex, Found, Ordered, Judged;
      if chain.Err? {
        return Err(chain.error);
      }
      var row := RowOf(paych);
      if Ordered(row.lanes) {
        AddIsJudged(row, chain.value, v, minDelta, verify);
      }
      var found, lanes, i, j := FindVoucher(row, v);
      var lv := lanes[i];
      if found && lv.added.Some? && v.nonce <= lv.added.value {
        if v != lv.vouchers[j] {
          return Err(NonceUsed);
        }
        return Ok(0);
      }
      var delta, total := CheckVoucher(chain.value, lanes, v, verify);
      if delta.Err? {
        return delta;
      }
      if delta.value < minDelta {
        return Err(InsufficientVoucher);
      }
      if total + delta.value > chain.value.balance {
        return Err(InsufficientBalance);
      }
      if !found {
        lv := lv.(vouchers := lv.vouchers[..j] + [v] + lv.vouchers[j..]);
      }
      lv := lv.(added := Some(v.nonce));
      Save(paych, row.(lanes := lanes[i := lv]));
      return delta;
    }

    // Writes a voucher of `amount` on a lane.
    method Make(paych: Hash, chain: Result<ActorState, Error>, lane: LaneId, amount: int, sign: Result<nat, Error>)
      returns (r: Result<Voucher, Error>)
      modifies this
      ensures chain.Err? ==> r == Err(chain.error) && unchanged(this)
      ensures chain.Ok? ==>
                match Spec.Make(old(RowOf(paych)), chain.value, lane, amount, sign)
                case Err(e) => r == Err(e) && unchanged(this)
                case Ok((row, v)) => r == Ok(v) && RowOf(paych) == row
      ensures chain.Ok? && Ordered(old(RowOf(paych)).lanes) ==>
                var lanes := old(RowOf(paych)).lanes;
                var promised := Promised(chain.value.lanes, lanes, lane, false);
                && (r.Ok? <==>
                      && amount > promised
                      && AllPromised(chain.value.lanes, lanes, false) + (amount - promised) <= chain.value.balance
                      && !IsNonce(chain.value.lanes, lanes, lane, false, TWO_64 - 1) && sign.Ok?)
                && (r.Ok? ==>
                      && r.value.lane == lane && r.value.amount == amount && Plain(r.value)
                      && r.value.signature == Some(sign.value)
                      && IsNextNonce(chain.value.lanes, lanes, lane, r.value.nonce))
      ensures forall p | p != paych :: RowOf(p) == old(RowOf(p))
    {
      hide Combine, TotalOf, WithLane, LaneIndex, VoucherIndex, Found, Ordered, Promised, AllPromised, IsNonce, IsNextNonce;
      if chain.Err? {
        return Err(chain.error);
      }
      var row := RowOf(paych);
      if Ordered(row.lanes) {
        MakesExactly(row, chain.value, lane, amount, sign);
      }
      var states, total := LaneStates(chain.value, row.lanes, false);
      var delta := amount - RedeemOf(Lookup(states, lane));
      if delta <= 0 {
        return Err(NoValue);
      }
      if total + delta > chain.value.balance {
        return Err(InsufficientBalance);
      }
      var nonce := 0;
      if lane in states {
        if states[lane].nonce == TWO_64 - 1 {
          return Err(NonceLimit);
        }
        nonce := states[lane].nonce + 1;
      }
      if sign.Err? {
        return Err(sign.error);
      }
      var v := Voucher(lane, nonce, amount, 0, 0, [], false, 0, 0, Some(sign.value));
      var found, lanes, i, j := FindVoucher(row, v);
      var vs := lanes[i].vouchers;
      Save(paych, row.(lanes := lanes[i := lanes[i].(vouchers := vs[..j] + [v] + vs[j..])]));
      return Ok(v);
    }

    method NextLane(paych: Hash, chain: Result<ActorState, Error>) returns (r: Result<LaneId, Error>)
      modifies this
      ensures chain.Err? ==> r == Err(chain.error) && unchanged(this)
      ensures chain.Ok? ==> r == Ok(Spec.NextLane(old(RowOf(paych))).1) &&
                            RowOf(paych) == Spec.NextLane(old(RowOf(paych))).0
      ensures forall p | p != paych :: RowOf(p) == old(RowOf(p))
    {
      if chain.Err? {
        return Err(chain.error);
      }
      var row := RowOf(paych);
      var lane := row.nextLane;
      if row.lanes != [] {
        lane := Max(lane, (row.lanes[|row.lanes| - 1].lane + 1) % TWO_64);
      }
      Save(paych, row.(nextLane := (lane + 1) % TWO_64));
      return Ok(lane);
    }
  }
}
