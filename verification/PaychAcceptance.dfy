// When a voucher is accepted or written, said with the vouchers of the row and the state on chain.
module PaychAcceptance {
  import opened Base
  import opened PaychVouchers
  import opened PaychLedger

  // ---------------------------------------------------------------- what a lane has promised

  // A voucher of lane `k` that counts: any stored one, or only those up to the last accepted one.
  ghost predicate Stands(lanes: seq<LaneVouchers>, k: LaneId, accepting: bool, w: Voucher) {
    exists i :: 0 <= i < |lanes| && StandsIn(lanes[i], k, accepting, w)
  }

  ghost predicate StandsIn(lv: LaneVouchers, k: LaneId, accepting: bool, w: Voucher) {
    lv.lane == k && w in lv.vouchers && (accepting ==> lv.added.Some? && w.nonce <= lv.added.value)
  }

  // An amount promised on lane `k`, on chain or by a voucher.
  ghost predicate IsAmount(base: Lanes, lanes: seq<LaneVouchers>, k: LaneId, accepting: bool, n: int) {
    (k in base && base[k].redeem == n) || exists w :: Stands(lanes, k, accepting, w) && w.amount == n
  }

  ghost predicate IsNonce(base: Lanes, lanes: seq<LaneVouchers>, k: LaneId, accepting: bool, n: int) {
    (k in base && base[k].nonce == n) || exists w :: Stands(lanes, k, accepting, w) && w.nonce == n
  }

  // `n` is the largest amount promised on lane `k`, or zero when there is none.
  ghost predicate Promises(base: Lanes, lanes: seq<LaneVouchers>, k: LaneId, accepting: bool, n: int) {
    if exists m :: IsAmount(base, lanes, k, accepting, m)
    then IsAmount(base, lanes, k, accepting, n) && forall m | IsAmount(base, lanes, k, accepting, m) :: m <= n
    else n == 0
  }

  ghost function Promised(base: Lanes, lanes: seq<LaneVouchers>, k: LaneId, accepting: bool): (n: int) {
    if exists m :: Promises(base, lanes, k, accepting, m)
    then var m :| Promises(base, lanes, k, accepting, m); m
    else 0
  }

  ghost function SumOver(ks: set<LaneId>, f: LaneId -> int): (n: int) {
    if ks == {} then 0
    else
      var k :| k in ks;
      f(k) + SumOver(ks - {k}, f)
  }

  ghost function LaneIds(base: Lanes, lanes: seq<LaneVouchers>): (ks: set<LaneId>) {
    base.Keys + set i | 0 <= i < |lanes| :: lanes[i].lane
  }

  // The sum of what all lanes have promised.
  ghost function AllPromised(base: Lanes, lanes: seq<LaneVouchers>, accepting: bool): (n: int) {
    SumOver(LaneIds(base, lanes), (k: LaneId) => Promised(base, lanes, k, accepting))
  }

  // ---------------------------------------------------------------- combined states say the same

  lemma CountedStands(lanes: seq<LaneVouchers>, k: LaneId, accepting: bool, w: Voucher)
    requires Ordered(lanes)
    ensures w in CountedAt(lanes, k, accepting) <==> Stands(lanes, k, accepting, w)
  {
    hide UpTo, VouchersOrdered;
    if i :| 0 <= i < |lanes| && StandsIn(lanes[i], k, accepting, w) {
      IndexIsUnique(lanes, k, i);
      CountedInLane(lanes[i], accepting, w);
    }
    if w in CountedAt(lanes, k, accepting) {
      var i := LaneIndex(lanes, k);
      CountedInLane(lanes[i], accepting, w);
      assert StandsIn(lanes[i], k, accepting, w);
    }
  }

  lemma CountedInLane(lv: LaneVouchers, accepting: bool, w: Voucher)
    requires VouchersOrdered(lv.lane, lv.vouchers)
    ensures w in Counted(lv, accepting) <==> StandsIn(lv, lv.lane, accepting, w)
  {
    if accepting && lv.added.Some? {
      var vs, n := lv.vouchers, UpTo(lv.vouchers, lv.added.value);
      if w in vs && w.nonce <= lv.added.value {
        var j :| 0 <= j < |vs| && vs[j] == w;
        UpToReaches(lv.lane, vs, j, lv.added.value);
        assert vs[..n][j] == w;
      }
      assert forall j | 0 <= j < n :: vs[..n][j] in vs;
    }
  }

  // A raised state takes its amount and its nonce from somewhere.
  lemma {:induction false} RaiseIsReached(base: Option<LaneState>, vs: seq<Voucher>)
    ensures Raise(base, vs).Some? ==>
              var s := Raise(base, vs).value;
              && ((base.Some? && base.value.redeem == s.redeem) || exists w | w in vs :: w.amount == s.redeem)
              && ((base.Some? && base.value.nonce == s.nonce) || exists w | w in vs :: w.nonce == s.nonce)
  {
    if vs != [] {
      var v, front := vs[|vs| - 1], vs[..|vs| - 1];
      RaiseIsReached(base, front);
      assert vs == front + [v];
      assert v in vs;
    }
  }

  lemma CombinedIsLargest(base: Lanes, lanes: seq<LaneVouchers>, k: LaneId, accepting: bool)
    requires Ordered(lanes)
    ensures var c := Lookup(Combine(base, lanes, accepting), k);
            && Promises(base, lanes, k, accepting, RedeemOf(c))
            && (c.Some? ==> IsNonce(base, lanes, k, accepting, c.value.nonce))
            && (forall n | IsNonce(base, lanes, k, accepting, n) :: c.Some? && n <= c.value.nonce)
  {
    hide Combine, Raise, CountedAt, Ordered, Stands;
    OrderedParts(lanes);
    CombineAt(base, lanes, accepting, k);
    var vs := CountedAt(lanes, k, accepting);
    RaiseBounds(Lookup(base, k), vs);
    RaiseIsReached(Lookup(base, k), vs);
    forall w
      ensures w in vs <==> Stands(lanes, k, accepting, w)
    {
      CountedStands(lanes, k, accepting, w);
    }
    LargestOfCounted(base, lanes, k, accepting, vs);
  }

  lemma LargestOfCounted(base: Lanes, lanes: seq<LaneVouchers>, k: LaneId, accepting: bool, vs: seq<Voucher>)
    requires forall w :: w in vs <==> Stands(lanes, k, accepting, w)
    ensures var c := Raise(Lookup(base, k), vs); Promises(base, lanes, k, accepting, RedeemOf(c))
  {
    hide Raise, Stands;
    RaiseBounds(Lookup(base, k), vs);
    RaiseIsReached(Lookup(base, k), vs);
    var c := Raise(Lookup(base, k), vs);
    if c.Some? {
      assert IsAmount(base, lanes, k, accepting, c.value.redeem);
    } else {
      assert forall m :: !IsAmount(base, lanes, k, accepting, m);
    }
  }

  lemma PromisedIsRedeem(base: Lanes, lanes: seq<LaneVouchers>, k: LaneId, accepting: bool)
    requires Ordered(lanes)
    ensures Promised(base, lanes, k, accepting) == RedeemOf(Lookup(Combine(base, lanes, accepting), k))
  {
    hide Combine, Ordered, IsAmount;
    CombinedIsLargest(base, lanes, k, accepting);
  }

  lemma {:induction false} SumOverKeys(m: Lanes, ks: set<LaneId>, f: LaneId -> int)
    requires m.Keys <= ks && forall k | k in ks :: f(k) == RedeemOf(Lookup(m, k))
    ensures SumOver(ks, f) == SumRedeem(m)
    decreases |ks|
  {
    if ks == {} {
      assert m == map[];
    } else {
      var k :| k in ks && SumOver(ks, f) == f(k) + SumOver(ks - {k}, f);
      SumOverKeys(m - {k}, ks - {k}, f);
      if k in m {
        SumWithout(m, k);
      } else {
        assert m - {k} == m;
      }
    }
  }

  lemma CombinedLanes(base: Lanes, lanes: seq<LaneVouchers>, accepting: bool)
    ensures Combine(base, lanes, accepting).Keys <= LaneIds(base, lanes)
  {
    hide Raise, Counted;
    if lanes != [] {
      var front := lanes[..|lanes| - 1];
      CombinedLanes(base, front, accepting);
      assert forall i | 0 <= i < |front| :: front[i] == lanes[i];
    }
  }

  lemma TotalIsPromised(base: Lanes, lanes: seq<LaneVouchers>, accepting: bool)
    requires Ordered(lanes)
    ensures TotalOf(base, lanes, accepting) == AllPromised(base, lanes, accepting)
  {
    hide Combine, Promised, LaneIds, Ordered;
    CombinedLanes(base, lanes, accepting);
    forall k: LaneId
      ensures Promised(base, lanes, k, accepting) == RedeemOf(Lookup(Combine(base, lanes, accepting), k))
    {
      PromisedIsRedeem(base, lanes, k, accepting);
    }
    SumOverKeys(Combine(base, lanes, accepting), LaneIds(base, lanes), (k: LaneId) => Promised(base, lanes, k, accepting));
  }

  // ---------------------------------------------------------------- accepting

  // No feature beyond an amount on a lane.
  predicate Plain(v: Voucher) {
    v.timeLockMin == 0 && v.timeLockMax == 0 && v.secretPreimage == [] && !v.hasExtra && v.merges == 0
  }

  predicate Signed(v: Voucher, verify: Result<bool, Error>) {
    v.signature.Some? && verify == Ok(true)
  }

  // Every nonce of the lane, on chain or of a voucher that counts, is below this one.
  ghost predicate NonceIsNew(base: Lanes, lanes: seq<LaneVouchers>, v: Voucher) {
    (v.lane in base ==> base[v.lane].nonce < v.nonce) &&
    forall w | Stands(lanes, v.lane, true, w) :: w.nonce < v.nonce
  }

  // What makes a voucher good: its value is what it adds to the largest amount promised on its lane.
  ghost predicate Good(row: Row, actor: ActorState, v: Voucher, minDelta: int, verify: Result<bool, Error>) {
    var promised := Promised(actor.lanes, row.lanes, v.lane, true);
    && Plain(v) && Signed(v, verify) && NonceIsNew(actor.lanes, row.lanes, v)
    && v.amount > promised && v.amount - promised >= minDelta
    && AllPromised(actor.lanes, row.lanes, true) + (v.amount - promised) <= actor.balance
  }

  lemma NonceIsNewMeans(base: Lanes, lanes: seq<LaneVouchers>, v: Voucher)
    requires Ordered(lanes)
    ensures var c := Lookup(Combine(base, lanes, true), v.lane);
            NonceIsNew(base, lanes, v) <==> (c.Some? ==> c.value.nonce < v.nonce)
  {
    hide Combine, Ordered, Stands, Promises;
    CombinedIsLargest(base, lanes, v.lane, true);
    var c := Lookup(Combine(base, lanes, true), v.lane);
    if c.Some? && c.value.nonce < v.nonce {
      assert v.lane in base ==> IsNonce(base, lanes, v.lane, true, base[v.lane].nonce);
      forall w | Stands(lanes, v.lane, true, w)
        ensures w.nonce < v.nonce
      {
        assert IsNonce(base, lanes, v.lane, true, w.nonce);
      }
    }
    if c.None? {
      assert v.lane in base ==> IsNonce(base, lanes, v.lane, true, base[v.lane].nonce);
      forall w | Stands(lanes, v.lane, true, w)
        ensures IsNonce(base, lanes, v.lane, true, w.nonce)
      {
      }
    }
  }

  lemma CheckMeans(base: Lanes, lanes: seq<LaneVouchers>, v: Voucher, verify: Result<bool, Error>)
    requires Ordered(lanes)
    ensures var promised := Promised(base, lanes, v.lane, true);
            && (Check(base, lanes, v, verify).Ok? <==>
                  Plain(v) && Signed(v, verify) && NonceIsNew(base, lanes, v) && v.amount > promised)
            && (Check(base, lanes, v, verify).Ok? ==> Check(base, lanes, v, verify) == Ok(v.amount - promised))
  {
    hide Combine, Ordered, NonceIsNew, Promised;
    PromisedIsRedeem(base, lanes, v.lane, true);
    NonceIsNewMeans(base, lanes, v);
  }

  // Theorem: a check says yes exactly when the voucher is good, and says what it adds.
  lemma ChecksExactly(row: Row, actor: ActorState, v: Voucher, verify: Result<bool, Error>)
    requires Ordered(row.lanes)
    ensures CheckRow(row, actor, v, verify).Ok? <==> Good(row, actor, v, 0, verify)
    ensures CheckRow(row, actor, v, verify).Ok? ==>
              CheckRow(row, actor, v, verify) == Ok(v.amount - Promised(actor.lanes, row.lanes, v.lane, true))
  {
    hide Check, TotalOf, Promised, AllPromised, NonceIsNew, Ordered;
    CheckMeans(actor.lanes, row.lanes, v, verify);
    TotalIsPromised(actor.lanes, row.lanes, true);
  }

  lemma FoundStands(row: Row, v: Voucher)
    requires Ordered(row.lanes)
    ensures var lv := WithLane(row.lanes, v.lane)[LaneIndex(row.lanes, v.lane)];
            (Found(lv.vouchers, v) && lv.added.Some? && v.nonce <= lv.added.value) <==>
            exists w :: Stands(row.lanes, v.lane, true, w) && w.nonce == v.nonce
  {
    hide Ordered, LanesOrdered, VouchersOrdered, Stands, Found, WithLane;
    var lanes := row.lanes;
    LaneAfterWith(lanes, v.lane);
    var lv := WithLane(lanes, v.lane)[LaneIndex(lanes, v.lane)];
    if Found(lv.vouchers, v) && lv.added.Some? && v.nonce <= lv.added.value {
      var w := StoredStands(lanes, v);
    }
    if w :| Stands(lanes, v.lane, true, w) && w.nonce == v.nonce {
      StandingIsFound(lanes, v, w);
    }
  }

  // The voucher that is found, where the lane has accepted vouchers up to its nonce.
  lemma StoredStands(lanes: seq<LaneVouchers>, v: Voucher) returns (w: Voucher)
    requires Ordered(lanes)
    requires var lv := WithLane(lanes, v.lane)[LaneIndex(lanes, v.lane)];
             Found(lv.vouchers, v) && lv.added.Some? && v.nonce <= lv.added.value
    ensures var vs := WithLane(lanes, v.lane)[LaneIndex(lanes, v.lane)].vouchers;
            VoucherIndex(vs, v) < |vs| && w == vs[VoucherIndex(vs, v)]
    ensures Stands(lanes, v.lane, true, w) && w.nonce == v.nonce
  {
    hide Ordered, LanesOrdered, VouchersOrdered, WithLane, Found;
    var lv := WithLane(lanes, v.lane)[LaneIndex(lanes, v.lane)];
    FoundHasNonce(lv.vouchers, v);
    FoundLaneIsThere(lanes, v);
    w := lv.vouchers[VoucherIndex(lv.vouchers, v)];
    assert StandsIn(lanes[LaneIndex(lanes, v.lane)], v.lane, true, w);
  }

  // A voucher that counts and has the nonce is the one that is found.
  lemma StandingIsFound(lanes: seq<LaneVouchers>, v: Voucher, w: Voucher)
    requires Ordered(lanes) && Stands(lanes, v.lane, true, w) && w.nonce == v.nonce
    ensures var lv := WithLane(lanes, v.lane)[LaneIndex(lanes, v.lane)];
            && Found(lv.vouchers, v) && lv.added.Some? && v.nonce <= lv.added.value
            && VoucherIndex(lv.vouchers, v) < |lv.vouchers| && lv.vouchers[VoucherIndex(lv.vouchers, v)] == w
  {
    hide VouchersOrdered, VoucherIndex;
    var i :| 0 <= i < |lanes| && StandsIn(lanes[i], v.lane, true, w);
    IndexIsUnique(lanes, v.lane, i);
    var vs := lanes[i].vouchers;
    var j :| 0 <= j < |vs| && vs[j] == w;
    SameNonceIsFound(v.lane, vs, j, v);
  }

  lemma SameNonceIsFound(lane: LaneId, vs: seq<Voucher>, j: nat, v: Voucher)
    requires VouchersOrdered(lane, vs) && j < |vs| && v.lane == lane && vs[j].nonce == v.nonce
    ensures VoucherIndex(vs, v) == j && Found(vs, v)
  {
  }

  // Theorem: a voucher is accepted as new if and only if it is good, and is worth what it adds to
  // the largest amount promised on its lane; it is taken as known, for nothing, if and only if it
  // is among the vouchers accepted so far; another voucher with the nonce of one of them is refused.
  lemma AcceptsExactly(row: Row, actor: ActorState, v: Voucher, minDelta: int, verify: Result<bool, Error>)
    requires Ordered(row.lanes)
    ensures var r := Add(row, actor, v, minDelta, verify);
            && (r.Ok? && r.value.1 > 0 <==> Good(row, actor, v, minDelta, verify))
            && (r.Ok? && r.value.1 > 0 ==>
                  r.value.1 == v.amount - Promised(actor.lanes, row.lanes, v.lane, true))
            && (r.Ok? && r.value.1 <= 0 <==> Stands(row.lanes, v.lane, true, v))
            && (r.Ok? && r.value.1 <= 0 ==> r == Ok((row, 0)))
            && (UsedByOther(row.lanes, v) ==> r == Err(NonceUsed))
  {
    hide Check, TotalOf, Promised, AllPromised, Ordered, WithLane, Found, VoucherIndex, InsertVoucher,
         Stands, LanesOrdered, Combine;
    var lanes := row.lanes;
    OrderedParts(lanes);
    EmptyLaneIsNeutral(actor.lanes, lanes, true, v.lane);
    EmptyLaneTotal(actor.lanes, lanes, v.lane);
    SameCheck(actor.lanes, lanes, v, verify);
    CheckMeans(actor.lanes, lanes, v, verify);
    TotalIsPromised(actor.lanes, lanes, true);
    FoundStands(row, v);
    var lv := WithLane(lanes, v.lane)[LaneIndex(lanes, v.lane)];
    if Found(lv.vouchers, v) && lv.added.Some? && v.nonce <= lv.added.value {
      var w := StoredStands(lanes, v);
      forall u | Stands(lanes, v.lane, true, u) && u.nonce == v.nonce
        ensures u == w
      {
        StandingIsFound(lanes, v, u);
      }
    }
  }

  ghost predicate UsedByOther(lanes: seq<LaneVouchers>, v: Voucher) {
    exists w :: Stands(lanes, v.lane, true, w) && w.nonce == v.nonce && w != v
  }

  // What is wrong with a voucher that is refused with an error.
  ghost predicate Reason(row: Row, actor: ActorState, v: Voucher, minDelta: int, verify: Result<bool, Error>, e: Error) {
    var delta := v.amount - Promised(actor.lanes, row.lanes, v.lane, true);
    || (Plain(v) && v.signature.Some? && verify == Err(e))
    || match e
       case TimeLockMin => v.timeLockMin != 0
       case TimeLockMax => v.timeLockMax != 0
       case SecretPreimage => v.secretPreimage != []
       case Extra => v.hasExtra
       case Merges => v.merges != 0
       case EmptySignature => v.signature.None?
       case InvalidSignature => verify == Ok(false)
       case NonceTooLow => !NonceIsNew(actor.lanes, row.lanes, v)
       case NoValue => delta <= 0
       case NonceUsed => UsedByOther(row.lanes, v)
       case InsufficientVoucher => delta < minDelta
       case InsufficientBalance => AllPromised(actor.lanes, row.lanes, true) + delta > actor.balance
       case _ => false
  }

  // Theorem: a voucher that is refused is refused for what is wrong with it.
  lemma RefusedWithReason(row: Row, actor: ActorState, v: Voucher, minDelta: int, verify: Result<bool, Error>)
    requires Ordered(row.lanes)
    ensures match Add(row, actor, v, minDelta, verify)
            case Ok(_) => true
            case Err(e) => Reason(row, actor, v, minDelta, verify, e)
  {
    hide TotalOf, Promised, AllPromised, Ordered, WithLane, Found, VoucherIndex, InsertVoucher,
         Stands, LanesOrdered, Combine, NonceIsNew;
    var lanes := row.lanes;
    OrderedParts(lanes);
    EmptyLaneTotal(actor.lanes, lanes, v.lane);
    SameCheck(actor.lanes, lanes, v, verify);
    PromisedIsRedeem(actor.lanes, lanes, v.lane, true);
    NonceIsNewMeans(actor.lanes, lanes, v);
    TotalIsPromised(actor.lanes, lanes, true);
    var lv := WithLane(lanes, v.lane)[LaneIndex(lanes, v.lane)];
    if Found(lv.vouchers, v) && lv.added.Some? && v.nonce <= lv.added.value {
      var w := StoredStands(lanes, v);
    }
  }

  // What an answer of `add` means.
  ghost predicate Judged(row: Row, actor: ActorState, v: Voucher, minDelta: int, verify: Result<bool, Error>,
                         r: Result<int, Error>) {
    && (r.Ok? && r.value > 0 <==> Good(row, actor, v, minDelta, verify))
    && (r.Ok? && r.value > 0 ==> r.value == v.amount - Promised(actor.lanes, row.lanes, v.lane, true))
    && (r == Ok(0) <==> Stands(row.lanes, v.lane, true, v))
    && (r.Ok? ==> r.value >= 0)
    && (r.Err? ==> Reason(row, actor, v, minDelta, verify, r.error))
  }

  lemma AddIsJudged(row: Row, actor: ActorState, v: Voucher, minDelta: int, verify: Result<bool, Error>)
    requires Ordered(row.lanes)
    ensures var r := Add(row, actor, v, minDelta, verify);
            Judged(row, actor, v, minDelta, verify, if r.Ok? then Ok(r.value.1) else Err(r.error))
  {
    hide Add, Ordered, Good, Promised, Stands, Reason;
    AcceptsExactly(row, actor, v, minDelta, verify);
    RefusedWithReason(row, actor, v, minDelta, verify);
  }

  // Adding the lane of the voucher changes nothing for the check.
  lemma SameCheck(base: Lanes, lanes: seq<LaneVouchers>, v: Voucher, verify: Result<bool, Error>)
    requires LanesOrdered(lanes)
    ensures Check(base, WithLane(lanes, v.lane), v, verify) == Check(base, lanes, v, verify)
  {
    hide Combine, WithLane;
    EmptyLaneIsNeutral(base, lanes, true, v.lane);
  }

  // ---------------------------------------------------------------- what is stored

  // Theorem: an accepted voucher is stored if and only if no other voucher of its lane has its nonce;
  // one that was made, but not accepted, is left in its place. Nothing else is added or lost.
  lemma AcceptedIsStored(row: Row, actor: ActorState, v: Voucher, minDelta: int, verify: Result<bool, Error>)
    requires Ordered(row.lanes)
    requires Add(row, actor, v, minDelta, verify).Ok? && Add(row, actor, v, minDelta, verify).value.1 > 0
    ensures var r := Add(row, actor, v, minDelta, verify).value.0;
            var taken := exists w :: w in VouchersAt(row.lanes, v.lane) && w.nonce == v.nonce;
            && r.nextLane == row.nextLane
            && (forall w :: w in VouchersAt(r.lanes, v.lane) <==>
                              w in VouchersAt(row.lanes, v.lane) || (w == v && !taken))
            && (forall k: LaneId | k != v.lane :: VouchersAt(r.lanes, k) == VouchersAt(row.lanes, k))
            && HasLane(r.lanes, v.lane) && r.lanes[LaneIndex(r.lanes, v.lane)].added == Some(v.nonce)
  {
    hide Check, TotalOf, Ordered, VouchersOrdered, WithLane, Found, VoucherIndex, InsertVoucher, LanesOrdered, CountedAt;
    var lanes := row.lanes;
    OrderedParts(lanes);
    LaneAfterWith(lanes, v.lane);
    var i := LaneIndex(lanes, v.lane);
    var lv := WithLane(lanes, v.lane)[i];
    var found := Found(lv.vouchers, v);
    var kept := if found then lv.vouchers else InsertVoucher(lv.vouchers, v);
    var next := LaneVouchers(lv.lane, Some(v.nonce), kept);
    var r := Add(row, actor, v, minDelta, verify).value.0;
    assert r.lanes == WithLane(lanes, v.lane)[i := next];
    LaneAfterUpdate(lanes, v.lane, next);
    VouchersAfterUpdate(lanes, v.lane, next);
    forall k: LaneId | k != v.lane
      ensures VouchersAt(r.lanes, k) == VouchersAt(lanes, k)
    {
      CountedAfterUpdate(lanes, v.lane, next, false, k);
      CountedIsAll(lanes, k);
      CountedIsAll(r.lanes, k);
    }
    FoundExactly(v.lane, lv.vouchers, v);
    InsertedMembers(lv.vouchers, v);
  }

  lemma LaneAfterUpdate(lanes: seq<LaneVouchers>, k: LaneId, lv: LaneVouchers)
    requires LanesOrdered(lanes) && lv.lane == k
    ensures var r := WithLane(lanes, k)[LaneIndex(lanes, k) := lv];
            HasLane(r, k) && LaneIndex(r, k) == LaneIndex(lanes, k)
  {
    CountedAfterUpdate(lanes, k, lv, false, k);
    IndexIsUnique(WithLane(lanes, k)[LaneIndex(lanes, k) := lv], k, LaneIndex(lanes, k));
  }

  lemma FoundExactly(lane: LaneId, vs: seq<Voucher>, v: Voucher)
    requires VouchersOrdered(lane, vs) && v.lane == lane
    ensures Found(vs, v) <==> exists w :: w in vs && w.nonce == v.nonce
  {
    hide VoucherIndex;
    if Found(vs, v) {
      FoundHasNonce(vs, v);
      assert vs[VoucherIndex(vs, v)] in vs;
    }
    if w :| w in vs && w.nonce == v.nonce {
      var j :| 0 <= j < |vs| && vs[j] == w;
      SameNonceIsFound(lane, vs, j, v);
    }
  }

  lemma InsertedMembers(vs: seq<Voucher>, v: Voucher)
    ensures forall w :: w in InsertVoucher(vs, v) <==> w in vs || w == v
  {
    hide VoucherIndex;
    var i := VoucherIndex(vs, v);
    forall w
      ensures w in InsertVoucher(vs, v) <==> w in vs || w == v
    {
      if w != v {
        InsertMembers(vs, i, v, w);
      } else {
        assert InsertVoucher(vs, v)[i] == v;
      }
    }
  }

  // ---------------------------------------------------------------- making

  // Every nonce of the lane is below this one, and it is one above the largest, or zero.
  ghost predicate IsNextNonce(base: Lanes, lanes: seq<LaneVouchers>, k: LaneId, n: int) {
    if exists m :: IsNonce(base, lanes, k, false, m)
    then IsNonce(base, lanes, k, false, n - 1) && forall m | IsNonce(base, lanes, k, false, m) :: m < n
    else n == 0
  }

  // Theorem: a voucher is written if and only if its amount is above the largest promised on the
  // lane, by stored vouchers or on chain, what it adds is within the balance, the last nonce is
  // not used, and the wallet signs; and it is then the plain voucher with the next nonce.
  lemma MakesExactly(row: Row, actor: ActorState, lane: LaneId, amount: int, sign: Result<nat, Error>)
    requires Ordered(row.lanes)
    ensures var promised := Promised(actor.lanes, row.lanes, lane, false);
            var r := Make(row, actor, lane, amount, sign);
            && (r.Ok? <==>
                  && amount > promised
                  && AllPromised(actor.lanes, row.lanes, false) + (amount - promised) <= actor.balance
                  && !IsNonce(actor.lanes, row.lanes, lane, false, TWO_64 - 1) && sign.Ok?)
            && (r.Ok? ==>
                  var v := r.value.1;
                  && v.lane == lane && v.amount == amount && Plain(v) && v.minCloseHeight == 0
                  && v.signature == Some(sign.value) && IsNextNonce(actor.lanes, row.lanes, lane, v.nonce))
  {
    hide Combine, TotalOf, Promised, Promises, AllPromised, Ordered, WithLane, InsertVoucher, LaneIndex, IsNonce;
    PromisedIsRedeem(actor.lanes, row.lanes, lane, false);
    TotalIsPromised(actor.lanes, row.lanes, false);
    CombinedIsLargest(actor.lanes, row.lanes, lane, false);
    NoncesAreSmall(actor.lanes, row.lanes, lane);
  }

  lemma NoncesAreSmall(base: Lanes, lanes: seq<LaneVouchers>, k: LaneId)
    ensures forall n | IsNonce(base, lanes, k, false, n) :: 0 <= n < TWO_64
  {
  }
}
