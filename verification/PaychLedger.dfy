// What the voucher store promises over its operations and over whole runs of them.
module PaychLedger {
  import opened Base
  import opened PaychVouchers

  // ---------------------------------------------------------------- order

  ghost predicate LanesOrdered(lanes: seq<LaneVouchers>) {
    forall i, j | 0 <= i < j < |lanes| :: lanes[i].lane < lanes[j].lane
  }

  ghost predicate VouchersOrdered(lane: LaneId, vs: seq<Voucher>) {
    && (forall i | 0 <= i < |vs| :: vs[i].lane == lane)
    && (forall i, j | 0 <= i < j < |vs| :: vs[i].nonce < vs[j].nonce)
  }

  // Lanes strictly sorted by identity, vouchers strictly sorted by nonce, no empty lane.
  ghost predicate Ordered(lanes: seq<LaneVouchers>) {
    && LanesOrdered(lanes)
    && forall i | 0 <= i < |lanes| :: VouchersOrdered(lanes[i].lane, lanes[i].vouchers) && lanes[i].vouchers != []
  }

  lemma IndexIsUnique(lanes: seq<LaneVouchers>, k: LaneId, i: nat)
    requires LanesOrdered(lanes) && i < |lanes| && lanes[i].lane == k
    ensures LaneIndex(lanes, k) == i && HasLane(lanes, k)
  {
  }

  lemma WithLaneKeepsOrder(lanes: seq<LaneVouchers>, k: LaneId)
    requires LanesOrdered(lanes)
    ensures LanesOrdered(WithLane(lanes, k))
  {
    var i := LaneIndex(lanes, k);
    if !HasLane(lanes, k) {
      forall j | i <= j < |lanes|
        ensures k < lanes[j].lane
      {
        assert j > i ==> lanes[i].lane < lanes[j].lane;
      }
    }
  }

  // Writing one lane of a row, the others being ordered, keeps the row ordered.
  lemma UpdateKeepsOrder(lanes: seq<LaneVouchers>, k: LaneId, lv: LaneVouchers)
    requires Ordered(lanes) && lv.lane == k && VouchersOrdered(k, lv.vouchers) && lv.vouchers != []
    ensures Ordered(WithLane(lanes, k)[LaneIndex(lanes, k) := lv])
  {
    hide VouchersOrdered;
    WithLaneKeepsOrder(lanes, k);
    var i, all := LaneIndex(lanes, k), WithLane(lanes, k);
    var r := all[i := lv];
    forall j | 0 <= j < |r|
      ensures VouchersOrdered(r[j].lane, r[j].vouchers) && r[j].vouchers != []
    {
      if j < i {
        assert r[j] == lanes[j];
      } else if j > i {
        assert r[j] == if HasLane(lanes, k) then lanes[j] else lanes[j - 1];
      }
    }
  }

  lemma InsertKeepsOrder(lane: LaneId, vs: seq<Voucher>, v: Voucher)
    requires VouchersOrdered(lane, vs) && v.lane == lane && !Found(vs, v)
    ensures VouchersOrdered(lane, InsertVoucher(vs, v))
  {
    hide VoucherIndex;
    var i := VoucherIndex(vs, v);
    VoucherIndexSplits(lane, vs, v);
    InsertAtKeepsOrder(lane, vs, v, i);
  }

  lemma VoucherIndexSplits(lane: LaneId, vs: seq<Voucher>, v: Voucher)
    requires VouchersOrdered(lane, vs) && v.lane == lane && !Found(vs, v)
    ensures forall j | 0 <= j < |vs| :: if j < VoucherIndex(vs, v) then vs[j].nonce < v.nonce else v.nonce < vs[j].nonce
  {
    var i := VoucherIndex(vs, v);
    forall j | i <= j < |vs|
      ensures v.nonce < vs[j].nonce
    {
      assert j > i ==> vs[i].nonce < vs[j].nonce;
    }
  }

  lemma InsertAtKeepsOrder(lane: LaneId, vs: seq<Voucher>, v: Voucher, i: nat)
    requires VouchersOrdered(lane, vs) && v.lane == lane && i <= |vs|
    requires forall j | 0 <= j < |vs| :: if j < i then vs[j].nonce < v.nonce else v.nonce < vs[j].nonce
    ensures VouchersOrdered(lane, vs[..i] + [v] + vs[i..])
  {
  }

  // The vouchers of lane `k`, if it has any.
  function VouchersAt(lanes: seq<LaneVouchers>, k: LaneId): (vs: seq<Voucher>) {
    if HasLane(lanes, k) then lanes[LaneIndex(lanes, k)].vouchers else []
  }

  lemma LaneAfterWith(lanes: seq<LaneVouchers>, k: LaneId)
    requires Ordered(lanes)
    ensures LaneIndex(lanes, k) < |WithLane(lanes, k)|
    ensures var lv := WithLane(lanes, k)[LaneIndex(lanes, k)];
            lv.lane == k && lv.vouchers == VouchersAt(lanes, k) && VouchersOrdered(k, lv.vouchers) &&
            (!HasLane(lanes, k) ==> lv == LaneVouchers(k, None, []))
  {
  }

  // ---------------------------------------------------------------- combined states

  function CountedAt(lanes: seq<LaneVouchers>, k: LaneId, accepting: bool): (vs: seq<Voucher>) {
    if HasLane(lanes, k) then Counted(lanes[LaneIndex(lanes, k)], accepting) else []
  }

  lemma HasLaneFront(lanes: seq<LaneVouchers>, k: LaneId)
    requires LanesOrdered(lanes) && lanes != []
    ensures var front, last := lanes[..|lanes| - 1], lanes[|lanes| - 1];
            if last.lane == k then LaneIndex(lanes, k) == |front| && HasLane(lanes, k) && !HasLane(front, k)
            else HasLane(lanes, k) == HasLane(front, k) &&
                 (HasLane(lanes, k) ==> LaneIndex(lanes, k) == LaneIndex(front, k))
  {
    var front, last := lanes[..|lanes| - 1], lanes[|lanes| - 1];
    if last.lane == k {
      IndexIsUnique(lanes, k, |front|);
    } else if HasLane(lanes, k) {
      IndexIsUnique(front, k, LaneIndex(lanes, k));
    } else if HasLane(front, k) {
      IndexIsUnique(lanes, k, LaneIndex(front, k));
    }
  }

  lemma CountedAtFront(lanes: seq<LaneVouchers>, k: LaneId, accepting: bool)
    requires LanesOrdered(lanes) && lanes != []
    ensures var front, last := lanes[..|lanes| - 1], lanes[|lanes| - 1];
            if last.lane == k
            then CountedAt(lanes, k, accepting) == Counted(last, accepting) && CountedAt(front, k, accepting) == []
            else CountedAt(lanes, k, accepting) == CountedAt(front, k, accepting)
  {
    HasLaneFront(lanes, k);
  }

  // Every lane is combined on its own: its state on chain, raised by its vouchers that count.
  lemma {:induction false} CombineAt(base: Lanes, lanes: seq<LaneVouchers>, accepting: bool, k: LaneId)
    requires LanesOrdered(lanes)
    ensures Lookup(Combine(base, lanes, accepting), k) == Raise(Lookup(base, k), CountedAt(lanes, k, accepting))
    decreases |lanes|
  {
    hide Counted, CountedAt, HasLane;
    if lanes == [] {
      assert CountedAt(lanes, k, accepting) == [] by { NoLane(k); }
    } else {
      var front, last := lanes[..|lanes| - 1], lanes[|lanes| - 1];
      CombineAt(base, front, accepting, k);
      CountedAtFront(lanes, k, accepting);
      CombineAt(base, front, accepting, last.lane);
      CountedAtFront(lanes, last.lane, accepting);
      var m := Combine(base, front, accepting);
      var raised := Raise(Lookup(m, last.lane), Counted(last, accepting));
      assert raised.None? ==> Lookup(m, last.lane) == None;
    }
  }

  lemma NoLane(k: LaneId)
    ensures !HasLane([], k) && forall accepting: bool :: CountedAt([], k, accepting) == []
  {
  }

  // What counts in lane `j` depends on the entries of lane `j` only.
  lemma SameEntries(a: seq<LaneVouchers>, b: seq<LaneVouchers>, j: LaneId, accepting: bool)
    requires LanesOrdered(a) && LanesOrdered(b)
    requires forall x: LaneVouchers :: x.lane == j ==> (x in a <==> x in b)
    ensures CountedAt(a, j, accepting) == CountedAt(b, j, accepting)
  {
    hide Counted;
    if HasLane(a, j) {
      var x := a[LaneIndex(a, j)];
      assert x in b;
      var n :| 0 <= n < |b| && b[n] == x;
      IndexIsUnique(b, j, n);
    } else if HasLane(b, j) {
      var x := b[LaneIndex(b, j)];
      assert x in a;
      var n :| 0 <= n < |a| && a[n] == x;
      IndexIsUnique(a, j, n);
    }
  }

  lemma OtherEntries(lanes: seq<LaneVouchers>, k: LaneId, lv: LaneVouchers, x: LaneVouchers)
    requires lv.lane == k && x.lane != k
    ensures x in WithLane(lanes, k)[LaneIndex(lanes, k) := lv] <==> x in lanes
  {
    var i := LaneIndex(lanes, k);
    UpdateMembers(WithLane(lanes, k), i, lv, x);
    if !HasLane(lanes, k) {
      InsertMembers(lanes, i, LaneVouchers(k, None, []), x);
    }
  }

  lemma UpdateMembers<T>(s: seq<T>, i: nat, y: T, x: T)
    requires i < |s| && x != y && x != s[i]
    ensures x in s[i := y] <==> x in s
  {
    if x in s {
      var j :| 0 <= j < |s| && s[j] == x;
      assert s[i := y][j] == x;
    }
  }

  lemma InsertMembers<T>(s: seq<T>, i: nat, y: T, x: T)
    requires i <= |s| && x != y
    ensures x in s[..i] + [y] + s[i..] <==> x in s
  {
    assert s == s[..i] + s[i..];
  }

  // Writing lane `k` changes what counts in lane `k` only.
  lemma CountedAfterUpdate(lanes: seq<LaneVouchers>, k: LaneId, lv: LaneVouchers, accepting: bool, j: LaneId)
    requires LanesOrdered(lanes) && lv.lane == k
    ensures var r := WithLane(lanes, k)[LaneIndex(lanes, k) := lv];
            LanesOrdered(r) &&
            CountedAt(r, j, accepting) == if j == k then Counted(lv, accepting) else CountedAt(lanes, j, accepting)
  {
    WithLaneKeepsOrder(lanes, k);
    var i, all := LaneIndex(lanes, k), WithLane(lanes, k);
    var r := all[i := lv];
    assert LanesOrdered(r);
    if j == k {
      IndexIsUnique(r, k, i);
    } else {
      hide WithLane, HasLane, Counted;
      forall x: LaneVouchers | x.lane == j
        ensures x in r <==> x in lanes
      {
        OtherEntries(lanes, k, lv, x);
      }
      SameEntries(r, lanes, j, accepting);
    }
  }

  // The combined state after lane `k` was written: only lane `k` has moved.
  lemma CombineAfterUpdate(base: Lanes, lanes: seq<LaneVouchers>, accepting: bool, k: LaneId,
                           lv: LaneVouchers, s: LaneState)
    requires LanesOrdered(lanes) && lv.lane == k
    requires Raise(Lookup(base, k), Counted(lv, accepting)) == Some(s)
    ensures var r := WithLane(lanes, k)[LaneIndex(lanes, k) := lv];
            var m := Combine(base, lanes, accepting);
            Combine(base, r, accepting) == m[k := s] &&
            TotalOf(base, r, accepting) ==
            TotalOf(base, lanes, accepting) - RedeemOf(Lookup(m, k)) + s.redeem
  {
    hide Combine, Counted, Raise, CountedAt, LanesOrdered, WithLane;
    var r := WithLane(lanes, k)[LaneIndex(lanes, k) := lv];
    var m, n := Combine(base, lanes, accepting), Combine(base, r, accepting);
    CountedAfterUpdate(lanes, k, lv, accepting, k);
    forall j: LaneId
      ensures Lookup(n, j) == Lookup(m[k := s], j)
    {
      CountedAfterUpdate(lanes, k, lv, accepting, j);
      CombineAt(base, lanes, accepting, j);
      CombineAt(base, r, accepting, j);
    }
    SameLookups(n, m[k := s]);
    SumUpdate(m, k, s);
  }

  lemma SameLookups(a: Lanes, b: Lanes)
    requires forall j: LaneId :: Lookup(a, j) == Lookup(b, j)
    ensures a == b
  {
    forall j: LaneId
      ensures j in a <==> j in b
      ensures j in a && j in b ==> a[j] == b[j]
    {
      assert Lookup(a, j) == Lookup(b, j);
    }
  }

  // An empty lane does not count.
  lemma EmptyLaneIsNeutral(base: Lanes, lanes: seq<LaneVouchers>, accepting: bool, k: LaneId)
    requires LanesOrdered(lanes)
    ensures Combine(base, WithLane(lanes, k), accepting) == Combine(base, lanes, accepting)
  {
    hide Combine, Raise;
    if !HasLane(lanes, k) {
      var all, lv := WithLane(lanes, k), LaneVouchers(k, None, []);
      var m, n := Combine(base, lanes, accepting), Combine(base, all, accepting);
      assert all == all[LaneIndex(lanes, k) := lv];
      CountedAfterUpdate(lanes, k, lv, accepting, k);
      forall j: LaneId
        ensures Lookup(n, j) == Lookup(m, j)
      {
        CountedAfterUpdate(lanes, k, lv, accepting, j);
        CombineAt(base, lanes, accepting, j);
        CombineAt(base, all, accepting, j);
      }
      SameLookups(n, m);
    }
  }

  // ---------------------------------------------------------------- raising lanes

  // A raised state is at least what it was and at least every voucher.
  lemma {:induction false} RaiseBounds(base: Option<LaneState>, vs: seq<Voucher>)
    ensures base.Some? || vs != [] <==> Raise(base, vs).Some?
    ensures base.Some? ==> Raise(base, vs).value.nonce >= base.value.nonce &&
                           Raise(base, vs).value.redeem >= base.value.redeem
    ensures forall v | v in vs :: v.nonce <= Raise(base, vs).value.nonce && v.amount <= Raise(base, vs).value.redeem
  {
    if vs != [] {
      RaiseBounds(base, vs[..|vs| - 1]);
    }
  }

  // A voucher beyond all others becomes the state of its lane.
  lemma RaiseByTop(base: Option<LaneState>, vs: seq<Voucher>, v: Voucher)
    requires Raise(base, vs).Some? ==> Raise(base, vs).value.nonce < v.nonce && Raise(base, vs).value.redeem < v.amount
    ensures Raise(base, vs + [v]) == Some(LaneState(v.amount, v.nonce))
  {
    assert (vs + [v])[..|vs|] == vs;
  }

  lemma TopGoesLast(lane: LaneId, vs: seq<Voucher>, v: Voucher)
    requires VouchersOrdered(lane, vs) && v.lane == lane
    requires forall i | 0 <= i < |vs| :: vs[i].nonce < v.nonce
    ensures InsertVoucher(vs, v) == vs + [v] && !Found(vs, v) && VouchersOrdered(lane, vs + [v])
  {
    var i := VoucherIndex(vs, v);
    assert i == |vs|;
    assert vs[..i] + [v] + vs[i..] == vs + [v];
  }

  // ---------------------------------------------------------------- order is kept

  // Theorem: accepting a voucher keeps lanes and vouchers strictly sorted.
  lemma AddKeepsOrder(row: Row, actor: ActorState, v: Voucher, minDelta: int, verify: Result<bool, Error>)
    requires Ordered(row.lanes) && Add(row, actor, v, minDelta, verify).Ok?
    ensures Ordered(Add(row, actor, v, minDelta, verify).value.0.lanes)
  {
    hide Check, TotalOf, Ordered, VouchersOrdered, Found, InsertVoucher, WithLane;
    var lv := WithLane(row.lanes, v.lane)[LaneIndex(row.lanes, v.lane)];
    LaneAfterWith(row.lanes, v.lane);
    var found := Found(lv.vouchers, v);
    var kept := if found then lv.vouchers else InsertVoucher(lv.vouchers, v);
    if !found {
      InsertKeepsOrder(v.lane, lv.vouchers, v);
    }
    KeptIsNotEmpty(lv.vouchers, v);
    UpdateKeepsOrder(row.lanes, v.lane, LaneVouchers(lv.lane, Some(v.nonce), kept));
  }

  lemma KeptIsNotEmpty(vs: seq<Voucher>, v: Voucher)
    ensures Found(vs, v) ==> vs != []
    ensures InsertVoucher(vs, v) != []
  {
  }

  // ---------------------------------------------------------------- receiver

  // A row that only ever accepted vouchers: in every lane all of them count, and amounts grow
  // with nonces.
  ghost predicate Received(lanes: seq<LaneVouchers>) {
    && Ordered(lanes)
    && forall i | 0 <= i < |lanes| :: LaneReceived(lanes[i])
  }

  ghost predicate LaneReceived(lv: LaneVouchers) {
    && lv.vouchers != []
    && lv.added == Some(lv.vouchers[|lv.vouchers| - 1].nonce)
    && forall i, j | 0 <= i < j < |lv.vouchers| :: lv.vouchers[i].amount < lv.vouchers[j].amount
  }

  lemma AllCount(lv: LaneVouchers)
    requires VouchersOrdered(lv.lane, lv.vouchers) && LaneReceived(lv)
    ensures Counted(lv, true) == lv.vouchers
  {
    assert UpTo(lv.vouchers, lv.added.value) == |lv.vouchers|;
  }

  // What a row that only accepted vouchers makes of one lane.
  lemma ReceivedAt(lanes: seq<LaneVouchers>, k: LaneId)
    requires Received(lanes)
    ensures CountedAt(lanes, k, true) == VouchersAt(lanes, k)
  {
    if HasLane(lanes, k) {
      AllCount(lanes[LaneIndex(lanes, k)]);
    }
  }

  // A voucher that passed the checks lies beyond everything its lane has.
  lemma CheckedIsTop(base: Lanes, lanes: seq<LaneVouchers>, v: Voucher, verify: Result<bool, Error>)
    requires Received(lanes) && Check(base, WithLane(lanes, v.lane), v, verify).Ok?
    ensures var s := Raise(Lookup(base, v.lane), VouchersAt(lanes, v.lane));
            (s.Some? ==> s.value.nonce < v.nonce && s.value.redeem < v.amount) &&
            Check(base, WithLane(lanes, v.lane), v, verify) == Ok(v.amount - RedeemOf(s))
    ensures forall w | w in VouchersAt(lanes, v.lane) :: w.nonce < v.nonce && w.amount < v.amount
    ensures Lookup(Combine(base, lanes, true), v.lane) == Raise(Lookup(base, v.lane), VouchersAt(lanes, v.lane))
  {
    hide Combine, Raise, WithLane, HasLane;
    EmptyLaneIsNeutral(base, lanes, true, v.lane);
    CombineAt(base, lanes, true, v.lane);
    ReceivedAt(lanes, v.lane);
    RaiseBounds(Lookup(base, v.lane), VouchersAt(lanes, v.lane));
  }

  // The lane of an accepted voucher.
  lemma LaneGrows(vs: seq<Voucher>, added: Option<Nonce>, v: Voucher)
    requires VouchersOrdered(v.lane, vs)
    requires vs != [] ==> LaneReceived(LaneVouchers(v.lane, added, vs))
    requires forall w | w in vs :: w.nonce < v.nonce && w.amount < v.amount
    ensures !Found(vs, v) && InsertVoucher(vs, v) == vs + [v]
    ensures var lv := LaneVouchers(v.lane, Some(v.nonce), vs + [v]);
            LaneReceived(lv) && VouchersOrdered(v.lane, vs + [v]) && Counted(lv, true) == vs + [v]
  {
    TopGoesLast(v.lane, vs, v);
    AllCount(LaneVouchers(v.lane, Some(v.nonce), vs + [v]));
  }

  lemma UpdateKeepsReceived(lanes: seq<LaneVouchers>, k: LaneId, lv: LaneVouchers)
    requires Received(lanes) && lv.lane == k && LaneReceived(lv) && VouchersOrdered(k, lv.vouchers)
    requires lv.vouchers != []
    ensures Received(WithLane(lanes, k)[LaneIndex(lanes, k) := lv])
  {
    hide VouchersOrdered, LaneReceived;
    UpdateKeepsOrder(lanes, k, lv);
    var i, r := LaneIndex(lanes, k), WithLane(lanes, k)[LaneIndex(lanes, k) := lv];
    forall j | 0 <= j < |r|
      ensures LaneReceived(r[j])
    {
      if j < i {
        assert r[j] == lanes[j];
      } else if j > i {
        assert r[j] == if HasLane(lanes, k) then lanes[j] else lanes[j - 1];
      }
    }
  }

  // Theorem: an accepted voucher raises the lane total by exactly the value returned, within
  // the balance, and goes to the end of its lane beyond all nonces and amounts there; when 0 is
  // returned nothing has changed and the voucher was there already.
  lemma ReceiverAdd(row: Row, actor: ActorState, v: Voucher, minDelta: int, verify: Result<bool, Error>)
    requires Received(row.lanes) && Add(row, actor, v, minDelta, verify).Ok?
    ensures var (r, delta) := Add(row, actor, v, minDelta, verify).value;
            && Received(r.lanes) && delta >= 0
            && TotalOf(actor.lanes, r.lanes, true) == TotalOf(actor.lanes, row.lanes, true) + delta
            && (delta > 0 ==> TotalOf(actor.lanes, r.lanes, true) <= actor.balance)
            && (delta == 0 ==> r == row && v in VouchersAt(row.lanes, v.lane))
            && (delta > 0 ==> VouchersAt(r.lanes, v.lane) == VouchersAt(row.lanes, v.lane) + [v])
  {
    hide Check, TotalOf, Ordered, VouchersOrdered, Found, InsertVoucher, WithLane, Received, LaneReceived,
         VouchersAt, LanesOrdered, Combine, Raise, Counted;
    var lanes, vs := row.lanes, VouchersAt(row.lanes, v.lane);
    var lv := WithLane(lanes, v.lane)[LaneIndex(lanes, v.lane)];
    ReceivedIsOrdered(lanes);
    LaneAfterWith(lanes, v.lane);
    var (r, delta) := Add(row, actor, v, minDelta, verify).value;
    if Found(lv.vouchers, v) && lv.added.Some? && v.nonce <= lv.added.value {
      FoundIsMember(lv.vouchers, v);
    } else {
      CheckedIsTop(actor.lanes, lanes, v, verify);
      ReceivedLane(lanes, v.lane);
      LaneGrows(vs, lv.added, v);
      var next := LaneVouchers(v.lane, Some(v.nonce), vs + [v]);
      UpdateKeepsReceived(lanes, v.lane, next);
      RaiseByTop(Lookup(actor.lanes, v.lane), vs, v);
      CombineAfterUpdate(actor.lanes, lanes, true, v.lane, next, LaneState(v.amount, v.nonce));
      EmptyLaneTotal(actor.lanes, lanes, v.lane);
      VouchersAfterUpdate(lanes, v.lane, next);
    }
  }

  lemma EmptyLaneTotal(base: Lanes, lanes: seq<LaneVouchers>, k: LaneId)
    requires LanesOrdered(lanes)
    ensures TotalOf(base, WithLane(lanes, k), true) == TotalOf(base, lanes, true)
  {
    EmptyLaneIsNeutral(base, lanes, true, k);
  }

  lemma ReceivedIsOrdered(lanes: seq<LaneVouchers>)
    requires Received(lanes)
    ensures Ordered(lanes) && LanesOrdered(lanes)
  {
  }

  lemma ReceivedLane(lanes: seq<LaneVouchers>, k: LaneId)
    requires Received(lanes)
    ensures var lv := WithLane(lanes, k)[LaneIndex(lanes, k)];
            VouchersAt(lanes, k) != [] ==> LaneReceived(lv) && lv.vouchers == VouchersAt(lanes, k)
  {
  }

  lemma FoundIsMember(vs: seq<Voucher>, v: Voucher)
    requires Found(vs, v)
    ensures VoucherIndex(vs, v) < |vs| && vs[VoucherIndex(vs, v)] in vs
  {
  }

  lemma VouchersAfterUpdate(lanes: seq<LaneVouchers>, k: LaneId, lv: LaneVouchers)
    requires LanesOrdered(lanes) && lv.lane == k
    ensures VouchersAt(WithLane(lanes, k)[LaneIndex(lanes, k) := lv], k) == lv.vouchers
  {
    CountedAfterUpdate(lanes, k, lv, false, k);
    IndexIsUnique(WithLane(lanes, k)[LaneIndex(lanes, k) := lv], k, LaneIndex(lanes, k));
  }

  // Theorem: adding a voucher again returns 0 and changes nothing, whatever else was added since.
  lemma AddingAgainIsNeutral(row: Row, actor: ActorState, v: Voucher, minDelta: int, verify: Result<bool, Error>)
    requires Received(row.lanes) && v in VouchersAt(row.lanes, v.lane)
    ensures Add(row, actor, v, minDelta, verify) == Ok((row, 0))
  {
    var i := LaneIndex(row.lanes, v.lane);
    var lv := row.lanes[i];
    var j :| 0 <= j < |lv.vouchers| && lv.vouchers[j] == v;
    MemberIsFound(lv.lane, lv.vouchers, j);
    assert v.nonce <= lv.added.value;
  }

  lemma MemberIsFound(lane: LaneId, vs: seq<Voucher>, j: nat)
    requires VouchersOrdered(lane, vs) && j < |vs|
    ensures VoucherIndex(vs, vs[j]) == j && Found(vs, vs[j])
  {
  }

  // One call of `add`, with the outcome of its signature check.
  datatype AddCall = AddCall(voucher: Voucher, minDelta: int, verify: Result<bool, Error>)

  // The row after a run of calls, and the sum of the values they returned.
  ghost function AddRun(row: Row, actor: ActorState, calls: seq<AddCall>): (r: (Row, int))
    decreases |calls|
  {
    if calls == [] then (row, 0)
    else
      var call := calls[0];
      match Add(row, actor, call.voucher, call.minDelta, call.verify)
      case Err(_) => AddRun(row, actor, calls[1..])
      case Ok((next, delta)) =>
        var (end, sum) := AddRun(next, actor, calls[1..]);
        (end, delta + sum)
  }

  // Theorem (receiver ledger): over every run of `add`, accepted or refused, the values returned
  // sum to the growth of the lane total, and unless none was accepted the total stays within the
  // balance.
  lemma {:induction false} ReceiverRun(row: Row, actor: ActorState, calls: seq<AddCall>)
    requires Received(row.lanes)
    ensures var (end, sum) := AddRun(row, actor, calls);
            && Received(end.lanes) && sum >= 0
            && TotalOf(actor.lanes, end.lanes, true) == TotalOf(actor.lanes, row.lanes, true) + sum
            && (sum > 0 ==> TotalOf(actor.lanes, end.lanes, true) <= actor.balance)
    decreases |calls|
  {
    hide Add, TotalOf, Received;
    if calls != [] {
      var call := calls[0];
      match Add(row, actor, call.voucher, call.minDelta, call.verify)
      case Err(_) => ReceiverRun(row, actor, calls[1..]);
      case Ok((next, delta)) =>
        ReceiverAdd(row, actor, call.voucher, call.minDelta, call.verify);
        ReceiverRun(next, actor, calls[1..]);
    }
  }

  lemma EmptyRowIsReceived()
    ensures Received(EMPTY_ROW.lanes)
  {
  }

  // Theorem (receiver ledger from nothing): over every run of `add` on a new row, the values
  // returned sum to the lane total beyond what is on chain, within the balance unless nothing was
  // accepted, and every lane has strictly increasing nonces and amounts.
  lemma ReceiverLedger(actor: ActorState, calls: seq<AddCall>)
    ensures var (end, sum) := AddRun(EMPTY_ROW, actor, calls);
            && Received(end.lanes) && sum >= 0
            && TotalOf(actor.lanes, end.lanes, true) == SumRedeem(actor.lanes) + sum
            && (sum > 0 ==> TotalOf(actor.lanes, end.lanes, true) <= actor.balance)
  {
    hide AddRun, Received, SumRedeem;
    EmptyRowIsReceived();
    ReceiverRun(EMPTY_ROW, actor, calls);
    assert Combine(actor.lanes, EMPTY_ROW.lanes, true) == actor.lanes;
  }

  // ---------------------------------------------------------------- payer

  // Theorem: a voucher that was made lies beyond every nonce and amount of its lane, stored or
  // on chain, is stored, and raises the combined total by exactly what it adds, within the
  // balance; lanes and vouchers stay strictly sorted.
  lemma MakeIsExact(row: Row, actor: ActorState, lane: LaneId, amount: int, sign: Result<nat, Error>)
    requires Ordered(row.lanes) && Make(row, actor, lane, amount, sign).Ok?
    ensures var (r, v) := Make(row, actor, lane, amount, sign).value;
            var before, after := TotalOf(actor.lanes, row.lanes, false), TotalOf(actor.lanes, r.lanes, false);
            && v.lane == lane && v.amount == amount
            && (lane in actor.lanes ==> actor.lanes[lane].nonce < v.nonce && actor.lanes[lane].redeem < v.amount)
            && (forall w | w in VouchersAt(row.lanes, lane) :: w.nonce < v.nonce && w.amount < v.amount)
            && VouchersAt(r.lanes, lane) == VouchersAt(row.lanes, lane) + [v]
            && Ordered(r.lanes)
            && after == before + amount - RedeemOf(Lookup(Combine(actor.lanes, row.lanes, false), lane))
            && before < after <= actor.balance
  {
    hide Ordered, VouchersOrdered, InsertVoucher, WithLane, VouchersAt, LanesOrdered, Combine, Raise, TotalOf;
    var lanes, vs := row.lanes, VouchersAt(row.lanes, lane);
    var (r, v) := Make(row, actor, lane, amount, sign).value;
    OrderedParts(lanes);
    LaneAfterWith(lanes, lane);
    CombineAt(actor.lanes, lanes, false, lane);
    CountedIsAll(lanes, lane);
    RaiseBounds(Lookup(actor.lanes, lane), vs);
    TopGoesLast(lane, vs, v);
    RaiseByTop(Lookup(actor.lanes, lane), vs, v);
    var lv := WithLane(lanes, lane)[LaneIndex(lanes, lane)].(vouchers := vs + [v]);
    UpdateKeepsOrder(lanes, lane, lv);
    CombineAfterUpdate(actor.lanes, lanes, false, lane, lv, LaneState(v.amount, v.nonce));
    VouchersAfterUpdate(lanes, lane, lv);
  }

  lemma OrderedParts(lanes: seq<LaneVouchers>)
    requires Ordered(lanes)
    ensures LanesOrdered(lanes)
  {
  }

  lemma CountedIsAll(lanes: seq<LaneVouchers>, k: LaneId)
    ensures CountedAt(lanes, k, false) == VouchersAt(lanes, k)
  {
  }

  // Theorem: a lane handed out is not in the row, except when the lanes of the row already reach
  // the last identity: the counter then wraps, and the lane is new only by luck.
  lemma NextLaneIsNew(row: Row)
    requires LanesOrdered(row.lanes)
    ensures var lane := NextLane(row).1;
            var full := row.lanes != [] && row.lanes[|row.lanes| - 1].lane == TWO_64 - 1;
            !HasLane(row.lanes, lane) <==> !full || !HasLane(row.lanes, row.nextLane)
  {
    var n := |row.lanes|;
    if n > 0 && row.lanes[n - 1].lane < TWO_64 - 1 {
      forall i | 0 <= i < n
        ensures row.lanes[i].lane < NextLane(row).1
      {
        assert i < n - 1 ==> row.lanes[i].lane < row.lanes[n - 1].lane;
      }
    }
  }

  ghost predicate AboveAll(row: Row, n: int) {
    row.nextLane <= n && forall i | 0 <= i < |row.lanes| :: row.lanes[i].lane < n
  }

  // Theorem: unless the lanes of the row reach the last identity, the lane handed out is the least
  // one that is above them all and not below the counter; the counter moves past it.
  lemma NextLaneIsLeast(row: Row)
    requires LanesOrdered(row.lanes) && (row.lanes != [] ==> row.lanes[|row.lanes| - 1].lane < TWO_64 - 1)
    ensures var (r, lane) := NextLane(row);
            && AboveAll(row, lane) && (forall n | AboveAll(row, n) :: lane <= n)
            && r.lanes == row.lanes && r.nextLane == (lane + 1) % TWO_64
  {
    var n := |row.lanes|;
    assert forall i | 0 <= i < n - 1 :: row.lanes[i].lane < row.lanes[n - 1].lane;
  }

  // Theorem: the next lane handed out, after any operations that add lanes, is greater if and only
  // if the last identity was not the one before it.
  lemma NextLanesIncrease(row: Row, later: Row)
    requires later.nextLane == NextLane(row).0.nextLane
    ensures NextLane(row).1 < NextLane(later).1 <==> NextLane(row).1 < TWO_64 - 1
  {
  }

  // ---------------------------------------------------------------- runs

  // An operation on a row, with what the chain and the wallet answered at that time.
  datatype Op =
    | AddOp(actor: ActorState, call: AddCall)
    | MakeOp(actor: ActorState, lane: LaneId, amount: int, sign: Result<nat, Error>)
    | NextLaneOp

  // The row after an operation; a failed one leaves it alone.
  ghost function After(row: Row, op: Op): (r: Row) {
    match op
    case AddOp(actor, call) =>
      (match Add(row, actor, call.voucher, call.minDelta, call.verify)
       case Ok((next, _)) => next
       case Err(_) => row)
    case MakeOp(actor, lane, amount, sign) =>
      (match Make(row, actor, lane, amount, sign)
       case Ok((next, _)) => next
       case Err(_) => row)
    case NextLaneOp => NextLane(row).0
  }

  // The row after a run of operations, and the lanes that were handed out on the way.
  ghost function OpRun(row: Row, ops: seq<Op>): (r: (Row, seq<LaneId>))
    decreases |ops|
  {
    if ops == [] then (row, [])
    else
      var (end, lanes) := OpRun(After(row, ops[0]), ops[1..]);
      (end, if ops[0].NextLaneOp? then [NextLane(row).1] + lanes else lanes)
  }

  lemma AfterKeeps(row: Row, op: Op)
    requires Ordered(row.lanes)
    ensures Ordered(After(row, op).lanes)
    ensures !op.NextLaneOp? ==> After(row, op).nextLane == row.nextLane
  {
    hide Ordered;
    match op
    case AddOp(actor, call) =>
      if Add(row, actor, call.voucher, call.minDelta, call.verify).Ok? {
        AddKeepsOrder(row, actor, call.voucher, call.minDelta, call.verify);
      }
    case MakeOp(actor, lane, amount, sign) =>
      if Make(row, actor, lane, amount, sign).Ok? {
        MakeIsExact(row, actor, lane, amount, sign);
      }
    case NextLaneOp =>
  }

  // Strictly increasing from `first` on.
  ghost predicate Climbing(first: int, lanes: seq<LaneId>) {
    && (forall i | 0 <= i < |lanes| :: first <= lanes[i])
    && (forall i, j | 0 <= i < j < |lanes| :: lanes[i] < lanes[j])
  }

  lemma ClimbingPrepend(first: int, lane: LaneId, lanes: seq<LaneId>)
    requires first <= lane && Climbing(lane + 1, lanes)
    ensures Climbing(first, [lane] + lanes)
  {
  }

  ghost predicate Increase(lanes: seq<LaneId>) {
    forall i, j | 0 <= i < j < |lanes| :: lanes[i] < lanes[j]
  }

  // The last identity is handed out at the very end, if at all.
  ghost predicate LastOnlyAtEnd(lanes: seq<LaneId>) {
    forall i | 0 <= i < |lanes| - 1 :: lanes[i] != TWO_64 - 1
  }

  // Theorem (payer ledger): every run of add, make and nextLane, against any answers of chain
  // and wallet, keeps the row strictly sorted; and the lanes handed out strictly increase if and
  // only if the last identity was not handed out before another one.
  lemma EveryRunKeepsOrder(row: Row, ops: seq<Op>)
    requires Ordered(row.lanes)
    ensures var (end, lanes) := OpRun(row, ops);
            Ordered(end.lanes) && (Increase(lanes) <==> LastOnlyAtEnd(lanes))
  {
    hide OpRun, Ordered;
    RunClimbs(row, ops);
    var lanes := OpRun(row, ops).1;
    if Increase(lanes) {
      assert forall i | 0 <= i < |lanes| - 1 :: lanes[i] < lanes[|lanes| - 1];
    }
  }

  lemma {:induction false} RunClimbs(row: Row, ops: seq<Op>)
    requires Ordered(row.lanes)
    ensures var (end, lanes) := OpRun(row, ops);
            Ordered(end.lanes) && (LastOnlyAtEnd(lanes) ==> Climbing(row.nextLane, lanes))
    decreases |ops|
  {
    hide Ordered, After, Climbing, LastOnlyAtEnd;
    if ops == [] {
      assert Climbing(row.nextLane, []) by { NoLanesClimb(row.nextLane); }
    } else {
      var op := ops[0];
      AfterKeeps(row, op);
      RunClimbs(After(row, op), ops[1..]);
      if op.NextLaneOp? {
        AfterNextLane(row);
        var lane, lanes := NextLane(row).1, OpRun(After(row, op), ops[1..]).1;
        if LastOnlyAtEnd([lane] + lanes) {
          LastOnlyAtEndOfRest(lane, lanes);
          if lanes == [] {
            ClimbingOne(row.nextLane, lane);
            assert [lane] + lanes == [lane];
          } else {
            ClimbingPrepend(row.nextLane, lane, lanes);
          }
        }
      }
    }
  }

  lemma LastOnlyAtEndOfRest(lane: LaneId, lanes: seq<LaneId>)
    requires LastOnlyAtEnd([lane] + lanes)
    ensures LastOnlyAtEnd(lanes) && (lanes != [] ==> lane != TWO_64 - 1)
  {
    var all := [lane] + lanes;
    assert lanes != [] ==> all[0] != TWO_64 - 1;
    assert forall i | 0 <= i < |lanes| - 1 :: all[i + 1] == lanes[i];
  }

  lemma ClimbingOne(first: int, lane: LaneId)
    requires first <= lane
    ensures Climbing(first, [lane])
  {
  }

  lemma NoLanesClimb(first: int)
    ensures Climbing(first, [])
  {
  }

  lemma AfterNextLane(row: Row)
    ensures After(row, NextLaneOp) == NextLane(row).0
  {
  }

  // The input where a lane is handed out again: vouchers are made on lane 0 and on the last lane.
  const TWO_UNITS := ActorState(map[], 2)

  function OneUnit(lane: LaneId): (lv: LaneVouchers) {
    LaneVouchers(lane, None, [Voucher(lane, 0, 1, 0, 0, [], false, 0, 0, Some(0))])
  }

  lemma OneUnitOnFirst()
    ensures Make(EMPTY_ROW, TWO_UNITS, 0, 1, Ok(0)) == Ok((Row(0, [OneUnit(0)]), OneUnit(0).vouchers[0]))
  {
    var v := OneUnit(0).vouchers[0];
    assert SumRedeem(map[]) == 0;
    var lanes := WithLane([], 0);
    assert lanes == [LaneVouchers(0, None, [])] && LaneIndex(lanes, 0) == 0;
    assert InsertVoucher([], v) == [v];
    assert lanes[0 := OneUnit(0)] == [OneUnit(0)];
  }

  lemma OneUnitOnLast()
    ensures Make(Row(0, [OneUnit(0)]), TWO_UNITS, TWO_64 - 1, 1, Ok(0)) ==
            Ok((Row(0, [OneUnit(0), OneUnit(TWO_64 - 1)]), OneUnit(TWO_64 - 1).vouchers[0]))
  {
    var first, last := OneUnit(0), OneUnit(TWO_64 - 1);
    OneUnitCounts();
    assert LaneIndex([first], TWO_64 - 1) == 1 by { assert [first][1..] == []; }
    var lanes := WithLane([first], TWO_64 - 1);
    assert lanes == [first, LaneVouchers(TWO_64 - 1, None, [])];
    assert InsertVoucher([], last.vouchers[0]) == last.vouchers;
    assert lanes[1 := last] == [first, last];
  }

  lemma OneUnitCounts()
    ensures Combine(map[], [OneUnit(0)], false) == map[0 := LaneState(1, 0)]
    ensures TotalOf(map[], [OneUnit(0)], false) == 1
  {
    var vs := OneUnit(0).vouchers;
    assert vs[..0] == [] && [OneUnit(0)][..0] == [];
    assert Raise(None, vs) == Some(LaneState(1, 0));
    SumUpdate(map[], 0, LaneState(1, 0));
    assert SumRedeem(map[]) == 0;
  }

  // Over a run from a new row: lane 0 is in the row, and is the one handed out.
  lemma NextLaneRepeats()
    ensures var row := OpRun(EMPTY_ROW, [MakeOp(TWO_UNITS, 0, 1, Ok(0)), MakeOp(TWO_UNITS, TWO_64 - 1, 1, Ok(0))]).0;
            Ordered(row.lanes) && HasLane(row.lanes, 0) && NextLane(row).1 == 0
  {
    hide Make, Ordered;
    var first, last := MakeOp(TWO_UNITS, 0, 1, Ok(0)), MakeOp(TWO_UNITS, TWO_64 - 1, 1, Ok(0));
    OneUnitOnFirst();
    OneUnitOnLast();
    var one, two := Row(0, [OneUnit(0)]), Row(0, [OneUnit(0), OneUnit(TWO_64 - 1)]);
    assert [first, last][1..] == [last] && [last][1..] == [];
    assert OpRun(two, []) == (two, []);
    assert OpRun(one, [last]) == (two, []);
    assert OpRun(EMPTY_ROW, [first, last]) == (two, []);
    assert Ordered(EMPTY_ROW.lanes) by { NothingOrdered(); }
    EveryRunKeepsOrder(EMPTY_ROW, [first, last]);
  }

  lemma NothingOrdered()
    ensures Ordered([])
  {
  }

  // ---------------------------------------------------------------- checking and adding

  lemma {:induction false} UpToReaches(lane: LaneId, vs: seq<Voucher>, j: nat, nonce: Nonce)
    requires VouchersOrdered(lane, vs) && j < |vs| && vs[j].nonce <= nonce
    ensures j < UpTo(vs, nonce)
    decreases j
  {
    if j > 0 {
      assert vs[0].nonce < vs[j].nonce;
      UpToReaches(lane, vs[1..], j - 1, nonce);
    }
  }

  // A voucher that was added before does not pass the check again.
  lemma AddedIsTooLow(row: Row, actor: ActorState, v: Voucher, verify: Result<bool, Error>)
    requires Ordered(row.lanes)
    requires var lv := WithLane(row.lanes, v.lane)[LaneIndex(row.lanes, v.lane)];
             Found(lv.vouchers, v) && lv.added.Some? && v.nonce <= lv.added.value
    ensures Check(actor.lanes, row.lanes, v, verify).Err?
  {
    hide Combine, Raise, WithLane, HasLane, UpTo, Found;
    var lanes := row.lanes;
    LaneAfterWith(lanes, v.lane);
    var lv := WithLane(lanes, v.lane)[LaneIndex(lanes, v.lane)];
    FoundHasNonce(lv.vouchers, v);
    var j := VoucherIndex(lv.vouchers, v);
    UpToReaches(v.lane, lv.vouchers, j, lv.added.value);
    FoundLaneIsThere(lanes, v);
    var counted := CountedAt(lanes, v.lane, true);
    assert counted[j] == lv.vouchers[j];
    CombineAt(actor.lanes, lanes, true, v.lane);
    RaiseBounds(Lookup(actor.lanes, v.lane), counted);
  }

  lemma FoundHasNonce(vs: seq<Voucher>, v: Voucher)
    requires Found(vs, v)
    ensures VoucherIndex(vs, v) < |vs| && vs[VoucherIndex(vs, v)].nonce == v.nonce && vs != []
  {
  }

  lemma FoundLaneIsThere(lanes: seq<LaneVouchers>, v: Voucher)
    requires Ordered(lanes) && WithLane(lanes, v.lane)[LaneIndex(lanes, v.lane)].vouchers != []
    ensures HasLane(lanes, v.lane) && WithLane(lanes, v.lane) == lanes
    ensures CountedAt(lanes, v.lane, true) == Counted(lanes[LaneIndex(lanes, v.lane)], true)
  {
    LaneAfterWith(lanes, v.lane);
  }

  // Theorem: the check says yes, and what the voucher is worth, if and only if adding it would
  // accept it as new for that value; what was added before is refused by the check.
  lemma CheckAgreesWithAdd(row: Row, actor: ActorState, v: Voucher, verify: Result<bool, Error>)
    requires Ordered(row.lanes)
    ensures var added := Add(row, actor, v, 0, verify);
            && (CheckRow(row, actor, v, verify).Ok? <==> added.Ok? && added.value.1 > 0)
            && (added.Ok? && added.value.1 > 0 ==> CheckRow(row, actor, v, verify) == Ok(added.value.1))
  {
    hide Combine, WithLane, Found, LaneIndex, VoucherIndex, InsertVoucher;
    EmptyLaneIsNeutral(actor.lanes, row.lanes, true, v.lane);
    var lv := WithLane(row.lanes, v.lane)[LaneIndex(row.lanes, v.lane)];
    if Found(lv.vouchers, v) && lv.added.Some? && v.nonce <= lv.added.value {
      AddedIsTooLow(row, actor, v, verify);
    }
  }
}
