// The path between two tipsets: what to revert and what to apply to move the head.
module ChainPath {
  import opened Base

  type Key = nat

  datatype Tipset = Tipset(key: Key, parents: Key, height: int)

  datatype HeadChange = Revert(ts: Tipset) | Apply(ts: Tipset)

  const CHAIN_FINALITY := 900

  // Tipsets that load, by key.
  type Store = map<Key, Tipset>

  ghost predicate Tree(store: Store) {
    && (forall k | k in store :: store[k].key == k)
    && (forall k | k in store && store[k].parents in store :: store[store[k].parents].height < store[k].height)
  }

  // The n-th ancestor, as far as it loads.
  function Up(store: Store, key: Key, n: nat): (r: Option<Tipset>)
    decreases n
  {
    if key !in store then None
    else if n == 0 then Some(store[key])
    else Up(store, store[key].parents, n - 1)
  }

  lemma {:induction false} UpNext(store: Store, key: Key, n: nat)
    requires Up(store, key, n).Some?
    ensures var ts := Up(store, key, n).value;
            Up(store, key, n + 1) == if ts.parents in store then Some(store[ts.parents]) else None
    decreases n
  {
    if n > 0 {
      UpNext(store, store[key].parents, n - 1);
    } else {
      var p := store[key].parents;
      assert p in store ==> Up(store, p, 0) == Some(store[p]);
    }
  }

  lemma {:induction false} UpIsLower(store: Store, key: Key, n: nat, m: nat)
    requires Tree(store) && n < m && Up(store, key, m).Some?
    ensures Up(store, key, n).Some? && Up(store, key, m).value.height < Up(store, key, n).value.height
    decreases m
  {
    if m == n + 1 {
      UpBefore(store, key, n);
      UpNext(store, key, n);
      UpIsStored(store, key, n);
    } else {
      UpBefore(store, key, m - 1);
      UpNext(store, key, m - 1);
      UpIsStored(store, key, m - 1);
      UpIsLower(store, key, n, m - 1);
    }
  }

  lemma {:induction false} UpBefore(store: Store, key: Key, n: nat)
    requires Up(store, key, n + 1).Some?
    ensures Up(store, key, n).Some?
    decreases n
  {
    if n > 0 {
      UpBefore(store, store[key].parents, n - 1);
    }
  }

  lemma {:induction false} UpIsStored(store: Store, key: Key, n: nat)
    requires Tree(store) && Up(store, key, n).Some?
    ensures var ts := Up(store, key, n).value; ts.key in store && store[ts.key] == ts
    decreases n
  {
    if n > 0 {
      UpIsStored(store, store[key].parents, n - 1);
    }
  }

  // ---------------------------------------------------------------- the meeting point

  ghost predicate Common(store: Store, from: Key, to: Key, a: nat, b: nat) {
    Up(store, from, a).Some? && Up(store, to, b).Some? && Up(store, from, a).value.key == Up(store, to, b).value.key
  }

  // The highest common ancestor: every other one is above neither way.
  ghost predicate Meets(store: Store, from: Key, to: Key, a: nat, b: nat) {
    Common(store, from, to, a, b) && NoneBefore(store, from, to, a, b)
  }

  ghost predicate NoneBefore(store: Store, from: Key, to: Key, a: nat, b: nat) {
    forall p: nat, q: nat | Common(store, from, to, p, q) :: a <= p && b <= q
  }

  // The higher of the last two tipsets is dealt with first, so this tells which one is last.
  ghost predicate LastIsRevert(store: Store, from: Key, to: Key, a: nat, b: nat)
    requires a > 0 ==> Up(store, from, a - 1).Some?
    requires b > 0 ==> Up(store, to, b - 1).Some?
  {
    a > 0 && (b > 0 ==> Up(store, from, a - 1).value.height <= Up(store, to, b - 1).value.height)
  }

  ghost predicate LastIsApply(store: Store, from: Key, to: Key, a: nat, b: nat)
    requires a > 0 ==> Up(store, from, a - 1).Some?
    requires b > 0 ==> Up(store, to, b - 1).Some?
  {
    b > 0 && (a > 0 ==> Up(store, from, a - 1).value.height > Up(store, to, b - 1).value.height)
  }

  // The limit is looked at before every step: 900 steps either way, or one more as the very last.
  ghost predicate WithinLimit(store: Store, from: Key, to: Key, a: nat, b: nat)
    requires a > 0 ==> Up(store, from, a - 1).Some?
    requires b > 0 ==> Up(store, to, b - 1).Some?
  {
    && (a <= 900 || (a == 901 && LastIsRevert(store, from, to, a, b)))
    && (b <= 900 || (b == 901 && LastIsApply(store, from, to, a, b)))
  }

  ghost predicate HasPath(store: Store, from: Key, to: Key, a: nat, b: nat) {
    && Meets(store, from, to, a, b)
    && (a > 0 ==> Up(store, from, a - 1).Some?) && (b > 0 ==> Up(store, to, b - 1).Some?)
    && WithinLimit(store, from, to, a, b)
  }

  // The first `n` tipsets from a key on.
  ghost predicate Chain(store: Store, key: Key, tipsets: seq<Tipset>) {
    forall i | 0 <= i < |tipsets| :: Up(store, key, i) == Some(tipsets[i])
  }

  // ---------------------------------------------------------------- replaying a path

  function Replay(head: Key, path: seq<HeadChange>): (r: Option<Key>)
    decreases |path|
  {
    if path == [] then Some(head)
    else
      match path[0]
      case Revert(ts) => if ts.key != head then None else Replay(ts.parents, path[1..])
      case Apply(ts) => if ts.parents != head then None else Replay(ts.key, path[1..])
  }

  function Reverts(tipsets: seq<Tipset>): (r: seq<HeadChange>)
    ensures |r| == |tipsets| && forall i | 0 <= i < |r| :: r[i] == Revert(tipsets[i])
  {
    seq(|tipsets|, i requires 0 <= i < |tipsets| => Revert(tipsets[i]))
  }

  // Applied from the last to the first.
  function Applies(tipsets: seq<Tipset>): (r: seq<HeadChange>)
    ensures |r| == |tipsets| && forall i | 0 <= i < |r| :: r[i] == Apply(tipsets[|tipsets| - 1 - i])
  {
    seq(|tipsets|, i requires 0 <= i < |tipsets| => Apply(tipsets[|tipsets| - 1 - i]))
  }

  lemma {:induction false} ReplayApplies(store: Store, to: Key, tipsets: seq<Tipset>, meet: Key)
    requires Tree(store) && Chain(store, to, tipsets)
    requires Up(store, to, |tipsets|).Some? && Up(store, to, |tipsets|).value.key == meet
    ensures Replay(meet, Applies(tipsets)) == Some(to)
    decreases |tipsets|
  {
    hide Meets;
    if tipsets != [] {
      var n := |tipsets| - 1;
      var last := tipsets[n];
      UpNext(store, to, n);
      assert last.parents == meet;
      var path := Applies(tipsets);
      assert path[0] == Apply(last);
      assert path[1..] == Applies(tipsets[..n]);
      UpIsStored(store, to, n);
      ReplayApplies(store, to, tipsets[..n], last.key);
    }
  }

  lemma {:induction false} ReplayReverts(store: Store, from: Key, tipsets: seq<Tipset>, n: nat, rest: seq<HeadChange>)
    requires Tree(store) && Chain(store, from, tipsets) && n <= |tipsets|
    requires Up(store, from, n).Some? && Up(store, from, |tipsets|).Some?
    ensures Replay(Up(store, from, n).value.key, Reverts(tipsets[n..]) + rest) ==
            Replay(Up(store, from, |tipsets|).value.key, rest)
    decreases |tipsets| - n
  {
    if n < |tipsets| {
      var ts := tipsets[n];
      UpNext(store, from, n);
      if n + 1 < |tipsets| {
        assert Up(store, from, n + 1) == Some(tipsets[n + 1]);
      }
      var path := Reverts(tipsets[n..]) + rest;
      assert path[0] == Revert(ts);
      assert path[1..] == Reverts(tipsets[n + 1..]) + rest;
      ReplayReverts(store, from, tipsets, n + 1, rest);
    } else {
      assert Reverts(tipsets[n..]) + rest == rest;
    }
  }

  // Theorem: replaying a path moves the head from one end to the other.
  lemma PathMovesHead(store: Store, from: Key, to: Key, down: seq<Tipset>, up: seq<Tipset>)
    requires Tree(store) && Chain(store, from, down) && Chain(store, to, up)
    requires from in store && Common(store, from, to, |down|, |up|)
    ensures Replay(from, Reverts(down) + Applies(up)) == Some(to)
  {
    var meet := Up(store, to, |up|).value.key;
    assert Up(store, from, 0) == Some(store[from]) && store[from].key == from;
    assert down[0..] == down;
    ReplayReverts(store, from, down, 0, Applies(up));
    ReplayApplies(store, to, up, meet);
  }

  // ---------------------------------------------------------------- finding the path

  ghost predicate Between(store: Store, from: Key, to: Key, i: nat, j: nat) {
    && Up(store, from, i).Some? && Up(store, to, j).Some?
    && NoneBefore(store, from, to, i, j)
    && (i > 0 ==> Up(store, from, i - 1).Some? &&
                  Up(store, from, i - 1).value.height > Up(store, to, j).value.height)
    && (j > 0 ==> Up(store, to, j - 1).Some? &&
                  Up(store, to, j - 1).value.height >= Up(store, from, i).value.height)
  }

  lemma CommonCanBe(store: Store, from: Key, to: Key, i: nat, j: nat, p: nat, q: nat)
    requires Tree(store) && Between(store, from, to, i, j) && Common(store, from, to, p, q)
    requires Up(store, from, i).value.key != Up(store, to, j).value.key
    ensures Up(store, from, i).value.height > Up(store, to, j).value.height ==> i < p
    ensures Up(store, from, i).value.height <= Up(store, to, j).value.height ==> j < q
  {
    assert i <= p && j <= q;
    UpIsStored(store, from, p);
    UpIsStored(store, to, q);
    if p == i && j < q {
      UpIsLower(store, to, j, q);
    }
    if q == j && i < p {
      UpIsLower(store, from, i, p);
    }
  }

  lemma StepDown(store: Store, from: Key, to: Key, i: nat, j: nat)
    requires Tree(store) && Between(store, from, to, i, j)
    requires Up(store, from, i).value.key != Up(store, to, j).value.key
    requires Up(store, from, i).value.height > Up(store, to, j).value.height
    ensures NoneBefore(store, from, to, i + 1, j)
    ensures Up(store, from, i + 1).Some? ==> Between(store, from, to, i + 1, j)
    ensures Up(store, from, i + 1).None? ==> forall p: nat, q: nat :: !Common(store, from, to, p, q)
  {
    hide Common, Up;
    forall p: nat, q: nat | Common(store, from, to, p, q) ensures i + 1 <= p && j <= q && Up(store, from, i + 1).Some? {
      CommonCanBe(store, from, to, i, j, p, q);
      CommonLoads(store, from, to, p, q);
      UpDownTo(store, from, i + 1, p);
    }
    if Up(store, from, i + 1).Some? {
      UpIsLower(store, from, i, i + 1);
    }
  }

  lemma StepUp(store: Store, from: Key, to: Key, i: nat, j: nat)
    requires Tree(store) && Between(store, from, to, i, j)
    requires Up(store, from, i).value.key != Up(store, to, j).value.key
    requires Up(store, from, i).value.height <= Up(store, to, j).value.height
    ensures NoneBefore(store, from, to, i, j + 1)
    ensures Up(store, to, j + 1).Some? ==> Between(store, from, to, i, j + 1)
    ensures Up(store, to, j + 1).None? ==> forall p: nat, q: nat :: !Common(store, from, to, p, q)
  {
    hide Common, Up;
    forall p: nat, q: nat | Common(store, from, to, p, q) ensures i <= p && j + 1 <= q && Up(store, to, j + 1).Some? {
      CommonCanBe(store, from, to, i, j, p, q);
      CommonLoads(store, from, to, p, q);
      UpDownTo(store, to, j + 1, q);
    }
    if Up(store, to, j + 1).Some? {
      UpIsLower(store, to, j, j + 1);
    }
  }

  lemma CommonLoads(store: Store, from: Key, to: Key, p: nat, q: nat)
    requires Common(store, from, to, p, q)
    ensures Up(store, from, p).Some? && Up(store, to, q).Some?
  {
  }

  lemma {:induction false} UpDownTo(store: Store, key: Key, n: nat, m: nat)
    requires n <= m && Up(store, key, m).Some?
    ensures Up(store, key, n).Some?
    decreases m
  {
    if n < m {
      UpBefore(store, key, m - 1);
      UpDownTo(store, key, n, m - 1);
    }
  }

  lemma UpNoHigher(store: Store, key: Key, n: nat, m: nat)
    requires Tree(store) && n <= m && Up(store, key, m).Some?
    ensures Up(store, key, n).Some? && Up(store, key, m).value.height <= Up(store, key, n).value.height
  {
    if n < m {
      UpIsLower(store, key, n, m);
    }
  }

  // Past the limit and not there yet, there is no path within the limit.
  lemma OverLimit(store: Store, from: Key, to: Key, i: nat, j: nat, a: nat, b: nat)
    requires Tree(store) && Between(store, from, to, i, j) && (i > CHAIN_FINALITY || j > CHAIN_FINALITY)
    requires Up(store, from, i).value.key != Up(store, to, j).value.key
    ensures !HasPath(store, from, to, a, b)
  {
    hide Up;
    if Meets(store, from, to, a, b) {
      assert i <= a && j <= b;
      if i > CHAIN_FINALITY && a == i && j < b {
        UpBefore(store, to, b - 1);
        UpNoHigher(store, to, j, b - 1);
      }
      if j > CHAIN_FINALITY && b == j && i < a {
        UpBefore(store, from, a - 1);
        UpNoHigher(store, from, i, a - 1);
      }
    }
  }

  datatype PathError = FinalityLimit | LoadFailed

  // The reverts from `from` down to the a-th ancestor, then the applies from the b-th ancestor of
  // `to` up to `to`.
  ghost predicate PathIs(store: Store, from: Key, to: Key, a: nat, b: nat, path: seq<HeadChange>) {
    && |path| == a + b
    && (forall k | 0 <= k < a :: Up(store, from, k).Some? && path[k] == Revert(Up(store, from, k).value))
    && (forall k | a <= k < a + b ::
          Up(store, to, a + b - 1 - k).Some? && path[k] == Apply(Up(store, to, a + b - 1 - k).value))
  }

  lemma PathIsReverts(store: Store, from: Key, to: Key, down: seq<Tipset>, up: seq<Tipset>)
    requires Chain(store, from, down) && Chain(store, to, up)
    ensures PathIs(store, from, to, |down|, |up|, Reverts(down) + Applies(up))
  {
  }

  ghost predicate LimitKept(store: Store, from: Key, to: Key, i: nat, j: nat) {
    Between(store, from, to, i, j) && WithinLimit(store, from, to, i, j)
  }

  lemma LimitStepDown(store: Store, from: Key, to: Key, i: nat, j: nat)
    requires Between(store, from, to, i, j) && Between(store, from, to, i + 1, j)
    requires i <= CHAIN_FINALITY && j <= CHAIN_FINALITY
    ensures LimitKept(store, from, to, i + 1, j)
  {
  }

  lemma LimitStepUp(store: Store, from: Key, to: Key, i: nat, j: nat)
    requires Between(store, from, to, i, j) && Between(store, from, to, i, j + 1)
    requires i <= CHAIN_FINALITY && j <= CHAIN_FINALITY
    ensures LimitKept(store, from, to, i, j + 1)
  {
  }

  lemma Arrived(store: Store, from: Key, to: Key, down: seq<Tipset>, up: seq<Tipset>)
    requires Tree(store) && Chain(store, from, down) && Chain(store, to, up) && from in store
    requires LimitKept(store, from, to, |down|, |up|)
    requires Up(store, from, |down|).value.key == Up(store, to, |up|).value.key
    ensures var path := Reverts(down) + Applies(up);
            && HasPath(store, from, to, |down|, |up|) && PathIs(store, from, to, |down|, |up|, path)
            && Replay(from, path) == Some(to)
  {
    hide Up, NoneBefore, WithinLimit, Chain, PathIs, Replay;
    PathIsReverts(store, from, to, down, up);
    PathMovesHead(store, from, to, down, up);
  }

  lemma NoPath(store: Store, from: Key, to: Key)
    requires forall p: nat, q: nat :: !Common(store, from, to, p, q)
    ensures forall a: nat, b: nat :: !HasPath(store, from, to, a, b)
  {
    hide Common, WithinLimit;
  }

  // Theorem: a path is found if and only if the two tipsets have a common ancestor within the
  // limit. It reverts down to the highest common ancestor and applies from there, and replaying it
  // moves the head from `from` to `to`. The search always ends.
  method ChainGetPath(store: Store, from: Key, to: Key) returns (r: Result<seq<HeadChange>, PathError>)
    requires Tree(store)
    ensures r.Ok? <==> exists a: nat, b: nat :: HasPath(store, from, to, a, b)
    ensures r.Ok? ==> exists a: nat, b: nat ::
                        HasPath(store, from, to, a, b) && PathIs(store, from, to, a, b, r.value)
    ensures r.Ok? ==> Replay(from, r.value) == Some(to)
    ensures r == Err(LoadFailed) ==> forall p: nat, q: nat :: !Common(store, from, to, p, q)
    ensures r == Err(FinalityLimit) ==> Up(store, from, 901).Some? || Up(store, to, 901).Some?
  {
    hide Up, Between, WithinLimit, HasPath, PathIs, Common, Replay, NoneBefore;
    if from !in store || to !in store {
      NothingCommon(store, from, to);
      NoPath(store, from, to);
      return Err(LoadFailed);
    }
    var f, t := store[from], store[to];
    var down: seq<Tipset>, up: seq<Tipset> := [], [];
    StartOfSearch(store, from, to);
    while f.key != t.key
      invariant Chain(store, from, down) && Chain(store, to, up)
      invariant LimitKept(store, from, to, |down|, |up|)
      invariant Up(store, from, |down|) == Some(f) && Up(store, to, |up|) == Some(t)
      invariant |down| <= CHAIN_FINALITY + 1 && |up| <= CHAIN_FINALITY + 1
      decreases 2 * CHAIN_FINALITY + 4 - |down| - |up|
    {
      ghost var i, j := |down|, |up|;
      if |down| > CHAIN_FINALITY || |up| > CHAIN_FINALITY {
        forall a: nat, b: nat ensures !HasPath(store, from, to, a, b) {
          OverLimit(store, from, to, i, j, a, b);
        }
        return Err(FinalityLimit);
      }
      if f.height > t.height {
        down := down + [f];
        StepDown(store, from, to, i, j);
        UpNext(store, from, i);
        if f.parents !in store {
          NoPath(store, from, to);
          return Err(LoadFailed);
        }
        f := store[f.parents];
        LimitStepDown(store, from, to, i, j);
      } else {
        up := up + [t];
        StepUp(store, from, to, i, j);
        UpNext(store, to, j);
        if t.parents !in store {
          NoPath(store, from, to);
          return Err(LoadFailed);
        }
        t := store[t.parents];
        LimitStepUp(store, from, to, i, j);
      }
    }
    Arrived(store, from, to, down, up);
    return Ok(Reverts(down) + Applies(up));
  }

  lemma NothingCommon(store: Store, from: Key, to: Key)
    requires from !in store || to !in store
    ensures forall p: nat, q: nat :: !Common(store, from, to, p, q)
  {
  }

  lemma StartOfSearch(store: Store, from: Key, to: Key)
    requires from in store && to in store
    ensures LimitKept(store, from, to, 0, 0) && Up(store, from, 0) == Some(store[from]) && Up(store, to, 0) == Some(store[to])
  {
  }

  // The highest common ancestor is one: any two ways to it are the same.
  lemma MeetingIsUnique(store: Store, from: Key, to: Key, a: nat, b: nat, p: nat, q: nat)
    requires Meets(store, from, to, a, b) && Meets(store, from, to, p, q)
    ensures a == p && b == q
  {
  }
}
