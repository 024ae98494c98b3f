// Vouchers of a payment channel: a row of lanes kept sorted by identity, each with its vouchers
// kept sorted by nonce, combined with the state of the channel on chain.
module PaychVouchers {
  import opened Base

  type LaneId = U64
  type Nonce = U64

  datatype Voucher = Voucher(lane: LaneId, nonce: Nonce, amount: int, timeLockMin: int, timeLockMax: int,
                             secretPreimage: seq<Byte>, hasExtra: bool, merges: nat, minCloseHeight: int,
                             signature: Option<nat>)

  // `added` is the nonce of the last voucher accepted from the other side.
  datatype LaneVouchers = LaneVouchers(lane: LaneId, added: Option<Nonce>, vouchers: seq<Voucher>)

  datatype Row = Row(nextLane: LaneId, lanes: seq<LaneVouchers>)

  const EMPTY_ROW := Row(0, [])

  datatype LaneState = LaneState(redeem: int, nonce: Nonce)

  type Lanes = map<LaneId, LaneState>

  // What the chain says about the channel.
  datatype ActorState = ActorState(lanes: Lanes, balance: int)

  datatype Error =
    | TimeLockMin | TimeLockMax | SecretPreimage | Extra | Merges
    | EmptySignature | SignatureError | InvalidSignature | NonceTooLow | NoValue
    | InsufficientVoucher | InsufficientBalance | NonceUsed | NonceLimit | ChainError

  // ---------------------------------------------------------------- combined lane states

  function Lookup(m: Lanes, k: LaneId): (r: Option<LaneState>) {
    if k in m then Some(m[k]) else None
  }

  function Max(a: int, b: int): (m: int) {
    if a < b then b else a
  }

  // The number of vouchers with a nonce up to `bound`: they come first.
  function UpTo(vs: seq<Voucher>, bound: Nonce): (n: nat)
    ensures n <= |vs|
    ensures forall i | 0 <= i < n :: vs[i].nonce <= bound
    ensures n < |vs| ==> bound < vs[n].nonce
  {
    if vs == [] || bound < vs[0].nonce then 0 else 1 + UpTo(vs[1..], bound)
  }

  // The vouchers of a lane that count: all of them, or only those accepted.
  function Counted(lv: LaneVouchers, accepting: bool): (vs: seq<Voucher>) {
    if !accepting then lv.vouchers
    else if lv.added.Some? then lv.vouchers[..UpTo(lv.vouchers, lv.added.value)]
    else []
  }

  // A lane state raised by vouchers.
  function Raise(base: Option<LaneState>, vs: seq<Voucher>): (r: Option<LaneState>)
    ensures vs != [] ==> r.Some?
  {
    if vs == [] then base
    else
      var v := vs[|vs| - 1];
      match Raise(base, vs[..|vs| - 1])
      case None => Some(LaneState(v.amount, v.nonce))
      case Some(s) => Some(LaneState(Max(s.redeem, v.amount), Max(s.nonce, v.nonce)))
  }

  function Combine(base: Lanes, lanes: seq<LaneVouchers>, accepting: bool): (m: Lanes) {
    if lanes == [] then base
    else
      var m, lv := Combine(base, lanes[..|lanes| - 1], accepting), lanes[|lanes| - 1];
      match Raise(Lookup(m, lv.lane), Counted(lv, accepting))
      case None => m
      case Some(s) => m[lv.lane := s]
  }

  ghost function SumRedeem(m: Lanes): (n: int)
    decreases |m|
  {
    if m == map[] then 0
    else
      var k :| k in m;
      m[k].redeem + SumRedeem(m - {k})
  }

  lemma {:induction false} SumWithout(m: Lanes, k: LaneId)
    requires k in m
    ensures SumRedeem(m) == m[k].redeem + SumRedeem(m - {k})
    decreases |m|
  {
    var j :| j in m && SumRedeem(m) == m[j].redeem + SumRedeem(m - {j});
    if j != k {
      SumWithout(m - {j}, k);
      SumWithout(m - {k}, j);
      assert m - {j} - {k} == m - {k} - {j};
    }
  }

  function RedeemOf(s: Option<LaneState>): (n: int) {
    if s.Some? then s.value.redeem else 0
  }

  lemma SumUpdate(m: Lanes, k: LaneId, s: LaneState)
    ensures SumRedeem(m[k := s]) == SumRedeem(m) - RedeemOf(Lookup(m, k)) + s.redeem
  {
    var r := m[k := s];
    SumWithout(r, k);
    if k in m {
      SumWithout(m, k);
      assert r - {k} == m - {k};
    } else {
      assert r - {k} == m;
    }
  }

  ghost function TotalOf(base: Lanes, lanes: seq<LaneVouchers>, accepting: bool): (n: int) {
    SumRedeem(Combine(base, lanes, accepting))
  }

  // ---------------------------------------------------------------- sorted vectors

  // Where a lane is, or would be inserted.
  function LaneIndex(lanes: seq<LaneVouchers>, k: LaneId): (i: nat)
    ensures i <= |lanes|
    ensures forall j | 0 <= j < i :: lanes[j].lane < k
    ensures i < |lanes| ==> k <= lanes[i].lane
  {
    if lanes == [] || k <= lanes[0].lane then 0 else 1 + LaneIndex(lanes[1..], k)
  }

  predicate HasLane(lanes: seq<LaneVouchers>, k: LaneId) {
    var i := LaneIndex(lanes, k);
    i < |lanes| && lanes[i].lane == k
  }

  // The lanes with lane `k` among them, added empty if it was missing.
  function WithLane(lanes: seq<LaneVouchers>, k: LaneId): (r: seq<LaneVouchers>)
    ensures HasLane(r, k) && LaneIndex(r, k) == LaneIndex(lanes, k)
  {
    var i := LaneIndex(lanes, k);
    if HasLane(lanes, k) then lanes
    else
      var r := lanes[..i] + [LaneVouchers(k, None, [])] + lanes[i..];
      assert r[i].lane == k && forall j | 0 <= j < i :: r[j] == lanes[j];
      r
  }

  predicate VoucherLess(a: Voucher, b: Voucher) {
    a.lane < b.lane || (a.lane == b.lane && a.nonce < b.nonce)
  }

  function VoucherIndex(vs: seq<Voucher>, v: Voucher): (i: nat)
    ensures i <= |vs|
    ensures forall j | 0 <= j < i :: VoucherLess(vs[j], v)
    ensures i < |vs| ==> !VoucherLess(vs[i], v)
  {
    if vs == [] || !VoucherLess(vs[0], v) then 0 else 1 + VoucherIndex(vs[1..], v)
  }

  predicate Found(vs: seq<Voucher>, v: Voucher) {
    var i := VoucherIndex(vs, v);
    i < |vs| && vs[i].lane == v.lane && vs[i].nonce == v.nonce
  }

  function InsertVoucher(vs: seq<Voucher>, v: Voucher): (r: seq<Voucher>) {
    var i := VoucherIndex(vs, v);
    vs[..i] + [v] + vs[i..]
  }

  // ---------------------------------------------------------------- operations

  // The first feature of a voucher that is not supported.
  function Unsupported(v: Voucher): (e: Option<Error>) {
    if v.timeLockMin != 0 then Some(TimeLockMin)
    else if v.timeLockMax != 0 then Some(TimeLockMax)
    else if v.secretPreimage != [] then Some(SecretPreimage)
    else if v.hasExtra then Some(Extra)
    else if v.merges != 0 then Some(Merges)
    else None
  }

  // The value a voucher adds to its lane. `verify` is the outcome of the signature check.
  function Check(base: Lanes, lanes: seq<LaneVouchers>, v: Voucher, verify: Result<bool, Error>)
    : (delta: Result<int, Error>)
    ensures delta.Ok? ==> delta.value > 0
  {
    if Unsupported(v).Some? then Err(Unsupported(v).value)
    else if v.signature.None? then Err(EmptySignature)
    else
      var verified :- verify;
      if !verified then Err(InvalidSignature)
      else
        var lane := Lookup(Combine(base, lanes, true), v.lane);
        if lane.Some? && v.nonce <= lane.value.nonce then Err(NonceTooLow)
        else if v.amount - RedeemOf(lane) <= 0 then Err(NoValue)
        else Ok(v.amount - RedeemOf(lane))
  }

  // Whether a voucher would be good: what it adds must be within the balance.
  ghost function CheckRow(row: Row, actor: ActorState, v: Voucher, verify: Result<bool, Error>): (r: Result<int, Error>)
  {
    var delta :- Check(actor.lanes, row.lanes, v, verify);
    if TotalOf(actor.lanes, row.lanes, true) + delta > actor.balance then Err(InsufficientBalance) else Ok(delta)
  }

  // Accepts a voucher from the other side. The row changes only when the voucher is new.
  ghost function Add(row: Row, actor: ActorState, v: Voucher, minDelta: int, verify: Result<bool, Error>)
    : (r: Result<(Row, int), Error>)
  {
    var lanes := WithLane(row.lanes, v.lane);
    var i := LaneIndex(lanes, v.lane);
    var lv := lanes[i];
    var found := Found(lv.vouchers, v);
    if found && lv.added.Some? && v.nonce <= lv.added.value then
      if v != lv.vouchers[VoucherIndex(lv.vouchers, v)] then Err(NonceUsed) else Ok((row, 0))
    else
      var delta :- Check(actor.lanes, lanes, v, verify);
      if delta < minDelta then Err(InsufficientVoucher)
      else if TotalOf(actor.lanes, lanes, true) + delta > actor.balance then Err(InsufficientBalance)
      else
        var kept := if found then lv.vouchers else InsertVoucher(lv.vouchers, v);
        Ok((row.(lanes := lanes[i := LaneVouchers(lv.lane, Some(v.nonce), kept)]), delta))
  }

  // The voucher that `make` signs: the next nonce of the lane.
  function Draft(lane: LaneId, amount: int, state: Option<LaneState>): (v: Voucher)
    requires state.Some? ==> state.value.nonce < TWO_64 - 1
  {
    Voucher(lane, if state.Some? then state.value.nonce + 1 else 0, amount, 0, 0, [], false, 0, 0, None)
  }

  // Writes a voucher for the other side. `sign` is the outcome of the wallet.
  ghost function Make(row: Row, actor: ActorState, lane: LaneId, amount: int, sign: Result<nat, Error>)
    : (r: Result<(Row, Voucher), Error>)
  {
    var state := Lookup(Combine(actor.lanes, row.lanes, false), lane);
    var delta := amount - RedeemOf(state);
    if delta <= 0 then Err(NoValue)
    else if TotalOf(actor.lanes, row.lanes, false) + delta > actor.balance then Err(InsufficientBalance)
    else if state.Some? && state.value.nonce == TWO_64 - 1 then Err(NonceLimit)
    else
      var signature :- sign;
      var v := Draft(lane, amount, state).(signature := Some(signature));
      var lanes := WithLane(row.lanes, lane);
      var i := LaneIndex(lanes, lane);
      var lv := lanes[i];
      Ok((row.(lanes := lanes[i := lv.(vouchers := InsertVoucher(lv.vouchers, v))]), v))
  }

  // A lane not used so far; 64-bit arithmetic wraps around.
  function NextLane(row: Row): (r: (Row, LaneId)) {
    var after := if row.lanes == [] then 0 else (row.lanes[|row.lanes| - 1].lane + 1) % TWO_64;
    var lane := Max(row.nextLane, after);
    (row.(nextLane := (lane + 1) % TWO_64), lane)
  }
}
