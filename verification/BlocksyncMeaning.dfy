// What the parts of blocksync mean, said without the functions that compute them: the walk that is
// served, the tipset that is collected, and where the parents of a response end.
module BlocksyncMeaning {
  import opened Base
  import opened Blocksync
  import opened BlocksyncClient
  import opened BlocksyncRequest

  // ---------------------------------------------------------------- the ancestor walk

  ghost predicate Filled(walk: seq<Tipset>) {
    forall i | 0 <= i < |walk| :: walk[i].blocks != []
  }

  // The key that tipset `i` of a walk must have.
  ghost function KeyAt(key: KeyHash, walk: seq<Tipset>, i: nat): (k: KeyHash)
    requires i <= |walk| && Filled(walk)
  {
    if i == 0 then key else HashOf(walk[i - 1].blocks[0].parents)
  }

  predicate CanServe(store: Store, key: KeyHash, options: Options) {
    key in store.tipsets && Servable(store, store.tipsets[key], options)
  }

  // Tipset `i` is the one stored under its key, and is at height 0 only if it is the last.
  ghost predicate RightAt(store: Store, key: KeyHash, options: Options, walk: seq<Tipset>, i: nat)
    requires i < |walk| && Filled(walk)
  {
    && CanServe(store, KeyAt(key, walk, i), options) && walk[i] == store.tipsets[KeyAt(key, walk, i)]
    && (i < |walk| - 1 ==> walk[i].blocks[0].height != 0)
  }

  // It ends early only at height 0, or where a tipset cannot be served.
  ghost predicate EndsRight(store: Store, key: KeyHash, depth: nat, options: Options, walk: seq<Tipset>)
    requires Filled(walk)
  {
    |walk| < depth ==>
      (walk != [] && walk[|walk| - 1].blocks[0].height == 0) || !CanServe(store, KeyAt(key, walk, |walk|), options)
  }

  ghost predicate IsWalk(store: Store, key: KeyHash, depth: nat, options: Options, walk: seq<Tipset>) {
    && |walk| <= depth && Filled(walk)
    && (forall i: nat | i < |walk| :: RightAt(store, key, options, walk, i))
    && EndsRight(store, key, depth, options, walk)
  }

  lemma RestOfWalk(store: Store, key: KeyHash, depth: nat, options: Options, ts: Tipset, rest: seq<Tipset>)
    requires ts.blocks != [] && depth > 0 && ts.blocks[0].height != 0
    ensures Filled([ts] + rest) <==> Filled(rest)
    ensures Filled(rest) ==>
              var walk, next := [ts] + rest, HashOf(ts.blocks[0].parents);
              && (forall i: nat | i <= |rest| :: KeyAt(key, walk, i + 1) == KeyAt(next, rest, i))
              && (EndsRight(store, key, depth, options, walk) <==> EndsRight(store, next, depth - 1, options, rest))
  {
    hide CanServe, HashOf;
    var walk := [ts] + rest;
    assert walk[0] == ts && forall i | 0 <= i < |rest| :: walk[i + 1] == rest[i];
  }

  lemma RightInRest(store: Store, key: KeyHash, depth: nat, options: Options, ts: Tipset, rest: seq<Tipset>, i: nat)
    requires ts.blocks != [] && depth > 0 && ts.blocks[0].height != 0 && Filled(rest) && i < |rest|
    ensures Filled([ts] + rest)
    ensures RightAt(store, key, options, [ts] + rest, i + 1) <==>
            RightAt(store, HashOf(ts.blocks[0].parents), options, rest, i)
  {
    hide CanServe, HashOf, KeyAt, EndsRight;
    RestOfWalk(store, key, depth, options, ts, rest);
    assert ([ts] + rest)[i + 1] == rest[i];
  }

  lemma WalkStep(store: Store, key: KeyHash, depth: nat, options: Options, ts: Tipset, rest: seq<Tipset>)
    requires CanServe(store, key, options) && ts == store.tipsets[key] && ts.blocks != [] && depth > 0
    requires ts.blocks[0].height != 0
    ensures IsWalk(store, key, depth, options, [ts] + rest) <==>
            IsWalk(store, HashOf(ts.blocks[0].parents), depth - 1, options, rest)
  {
    hide CanServe, HashOf, RightAt, EndsRight, KeyAt, Filled;
    var walk, next := [ts] + rest, HashOf(ts.blocks[0].parents);
    RestOfWalk(store, key, depth, options, ts, rest);
    if Filled(rest) {
      FirstIsRight(store, key, options, walk);
      forall i: nat | i < |rest|
        ensures RightAt(store, key, options, walk, i + 1) <==> RightAt(store, next, options, rest, i)
      {
        RightInRest(store, key, depth, options, ts, rest, i);
      }
      if IsWalk(store, next, depth - 1, options, rest) {
        forall i: nat | i < |walk|
          ensures RightAt(store, key, options, walk, i)
        {
          if i > 0 {
            assert RightAt(store, next, options, rest, i - 1);
          }
        }
      }
      if IsWalk(store, key, depth, options, walk) {
        forall i: nat | i < |rest|
          ensures RightAt(store, next, options, rest, i)
        {
          assert RightAt(store, key, options, walk, i + 1);
        }
      }
    }
  }

  lemma FirstIsRight(store: Store, key: KeyHash, options: Options, walk: seq<Tipset>)
    requires walk != [] && Filled(walk) && CanServe(store, key, options) && walk[0] == store.tipsets[key]
    requires walk[0].blocks[0].height != 0
    ensures RightAt(store, key, options, walk, 0)
  {
  }

  // A walk starts with the tipset of its key, if that can be served.
  lemma WalkStart(store: Store, key: KeyHash, depth: nat, options: Options, walk: seq<Tipset>)
    requires IsWalk(store, key, depth, options, walk) && depth > 0
    ensures walk == [] <==> !CanServe(store, key, options)
    ensures walk != [] ==> key in store.tipsets && walk[0] == store.tipsets[key] && walk == [walk[0]] + walk[1..]
  {
    hide Servable, HashOf;
    if walk != [] {
      assert RightAt(store, key, options, walk, 0);
    }
  }

  lemma NoWalk(store: Store, key: KeyHash, depth: nat, options: Options)
    requires depth == 0 || !CanServe(store, key, options)
    ensures IsWalk(store, key, depth, options, [])
  {
  }

  // At height 0 the walk is that one tipset.
  lemma GenesisWalk(store: Store, key: KeyHash, depth: nat, options: Options, walk: seq<Tipset>)
    requires ValidStore(store) && depth > 0 && CanServe(store, key, options)
    requires store.tipsets[key].blocks[0].height == 0
    ensures IsWalk(store, key, depth, options, walk) <==> walk == [store.tipsets[key]]
  {
    hide Servable, HashOf, KeyOf;
    var one := [store.tipsets[key]];
    assert IsWalk(store, key, depth, options, one);
    if IsWalk(store, key, depth, options, walk) {
      WalkStart(store, key, depth, options, walk);
      assert RightAt(store, key, options, walk, 0);
    }
  }

  lemma WalkUnfolds(store: Store, key: KeyHash, depth: nat, options: Options)
    requires ValidStore(store)
    ensures depth == 0 || !CanServe(store, key, options) ==> Walk(store, key, depth, options) == []
    ensures depth > 0 && CanServe(store, key, options) ==>
              key in store.tipsets &&
              var ts := store.tipsets[key];
              && ts.blocks != []
              && Walk(store, key, depth, options) ==
                   [ts] + if ts.blocks[0].height == 0 then [] else Walk(store, HashOf(ts.blocks[0].parents), depth - 1, options)
  {
    hide Servable, KeyOf;
  }

  // Theorem: what is served is a walk from the key asked for, and there is no other.
  lemma {:induction false} WalkIsTheWalk(store: Store, key: KeyHash, depth: nat, options: Options, walk: seq<Tipset>)
    requires ValidStore(store)
    ensures IsWalk(store, key, depth, options, walk) <==> walk == Walk(store, key, depth, options)
    decreases depth
  {
    hide CanServe, HashOf, KeyOf, Walk, IsWalk, ValidStore;
    WalkUnfolds(store, key, depth, options);
    if depth == 0 || !CanServe(store, key, options) {
      NoWalk(store, key, depth, options);
      if IsWalk(store, key, depth, options, walk) {
        ShortWalk(store, key, depth, options, walk);
      }
    } else {
      var ts := store.tipsets[key];
      if ts.blocks[0].height == 0 {
        GenesisWalk(store, key, depth, options, walk);
        assert [ts] + [] == [ts];
      } else {
        var next := HashOf(ts.blocks[0].parents);
        var rest := Walk(store, next, depth - 1, options);
        WalkIsTheWalk(store, next, depth - 1, options, rest);
        WalkStep(store, key, depth, options, ts, rest);
        if IsWalk(store, key, depth, options, walk) {
          WalkStart(store, key, depth, options, walk);
          WalkStep(store, key, depth, options, ts, walk[1..]);
          WalkIsTheWalk(store, next, depth - 1, options, walk[1..]);
        }
      }
    }
  }

  lemma ShortWalk(store: Store, key: KeyHash, depth: nat, options: Options, walk: seq<Tipset>)
    requires IsWalk(store, key, depth, options, walk) && (depth == 0 || !CanServe(store, key, options))
    ensures walk == []
  {
    if depth > 0 {
      WalkStart(store, key, depth, options, walk);
    }
  }

  // ---------------------------------------------------------------- collecting a tipset

  predicate HasTicket(h: Header) {
    h.ticket.Some? || h.height == 0
  }

  function Ticket(h: Header): (t: nat) {
    if h.ticket.Some? then h.ticket.value else 0
  }

  // Blocks of different miners on the same parents at the same height.
  predicate Fits(a: Header, b: Header) {
    a.height == b.height && a.parents == b.parents && a.miner != b.miner
  }

  ghost predicate Compatible(blocks: seq<Header>) {
    && (forall i | 0 <= i < |blocks| :: HasTicket(blocks[i]))
    && (forall i, j | 0 <= i < j < |blocks| :: Fits(blocks[i], blocks[j]))
  }

  ghost predicate FitAll(done: seq<Header>, h: Header) {
    forall i | 0 <= i < |done| :: Fits(done[i], h)
  }

  ghost predicate AllFit(done: seq<Header>, more: seq<Header>) {
    forall j | 0 <= j < |more| :: FitAll(done, more[j])
  }

  predicate Before(a: Header, b: Header) {
    Ticket(a) < Ticket(b) || (Ticket(a) == Ticket(b) && a.cid <= b.cid)
  }

  ghost predicate InOrder(blocks: seq<Header>) {
    forall i, j | 0 <= i < j < |blocks| :: Before(blocks[i], blocks[j])
  }

  ghost predicate Collected(blocks: seq<Header>) {
    Compatible(blocks) && InOrder(blocks) && HaveTickets(blocks)
  }

  lemma ExpandsExactly(done: seq<Header>, h: Header)
    requires Collected(done)
    ensures Expand(done, h).Some? <==> HasTicket(h) && FitAll(done, h)
  {
    hide PlaceOf;
    if done != [] && CanExpand(done, h) {
      forall i | 0 <= i < |done|
        ensures Fits(done[i], h)
      {
        assert i > 0 ==> Fits(done[0], done[i]);
      }
    }
    if done != [] && FitAll(done, h) {
      assert Fits(done[0], h);
      assert forall i | 0 <= i < |done| :: Fits(done[i], h);
    }
  }

  lemma {:induction false} PlaceSplits(blocks: seq<Header>, h: Header, k: nat)
    requires HaveTickets(blocks) && InOrder(blocks) && TicketHash(h).Some? && k < |blocks|
    ensures if k < PlaceOf(blocks, h, TicketHash(h).value) then Before(blocks[k], h) else Before(h, blocks[k])
    decreases |blocks|
  {
    if Precedes(h, TicketHash(h).value, blocks[0]) {
      assert k > 0 ==> Before(blocks[0], blocks[k]);
    } else if k > 0 {
      PlaceSplits(blocks[1..], h, k - 1);
    }
  }

  lemma ExpandedIsCollected(done: seq<Header>, h: Header)
    requires Collected(done) && HasTicket(h) && FitAll(done, h) && Expand(done, h).Some?
    ensures var r := Expand(done, h).value; Collected(r) && multiset(r) == multiset(done) + multiset{h}
  {
    hide PlaceOf, Fits, Before, HasTicket;
    var i := PlaceOf(done, h, TicketHash(h).value);
    var r := done[..i] + [h] + done[i..];
    assert done == done[..i] + done[i..];
    forall k: nat | k < |done|
      ensures if k < i then Before(done[k], h) else Before(h, done[k])
    {
      PlaceSplits(done, h, k);
    }
    InsertedFits(done, h, i);
    InsertedInOrder(done, h, i);
  }

  lemma InsertedInOrder(done: seq<Header>, h: Header, i: nat)
    requires InOrder(done) && i <= |done|
    requires forall k: nat | k < |done| :: if k < i then Before(done[k], h) else Before(h, done[k])
    ensures InOrder(done[..i] + [h] + done[i..])
  {
    hide Before;
  }

  lemma InsertedFits(done: seq<Header>, h: Header, i: nat)
    requires Compatible(done) && i <= |done| && HasTicket(h) && FitAll(done, h)
    ensures Compatible(done[..i] + [h] + done[i..])
  {
    var r := done[..i] + [h] + done[i..];
    forall a, b | 0 <= a < b < |r|
      ensures Fits(r[a], r[b])
    {
      if a == i {
        assert Fits(done[b - 1], h);
      }
    }
  }

  lemma StillFit(done: seq<Header>, h: Header, x: Header, i: nat)
    requires i <= |done|
    ensures FitAll(done[..i] + [h] + done[i..], x) <==> FitAll(done, x) && Fits(h, x)
  {
    hide Fits;
    var r := done[..i] + [h] + done[i..];
    if FitAll(r, x) {
      assert r[i] == h;
      forall k | 0 <= k < |done|
        ensures Fits(done[k], x)
      {
        assert done[k] == if k < i then r[k] else r[k + 1];
      }
    }
  }

  // Theorem: blocks are collected if and only if they are compatible, and what is collected are the
  // same blocks in ticket order.
  lemma {:induction false} CollectsExactly(done: seq<Header>, more: seq<Header>)
    requires Collected(done) && HaveTickets(done)
    ensures Collect(done, more).Some? <==> Compatible(more) && AllFit(done, more)
    ensures Collect(done, more).Some? ==>
              var r := Collect(done, more).value; Collected(r) && multiset(r) == multiset(done) + multiset(more)
    decreases |more|
  {
    hide Collected, Expand, Compatible;
    CollectedHaveTickets(done);
    if more != [] {
      var h, rest := more[0], more[1..];
      assert more == [h] + rest;
      ExpandsExactly(done, h);
      FirstOfMore(done, h, rest);
      if HasTicket(h) && FitAll(done, h) {
        ExpandedIsCollected(done, h);
        var next := Expand(done, h).value;
        CollectsExactly(next, rest);
        ExpandedFits(done, h, rest);
      }
    } else {
      NothingMore(done);
    }
  }

  lemma CollectedHaveTickets(done: seq<Header>)
    requires Collected(done)
    ensures HaveTickets(done)
  {
  }

  lemma NothingMore(done: seq<Header>)
    ensures Compatible([]) && AllFit(done, [])
  {
  }

  lemma FirstOfMore(done: seq<Header>, h: Header, rest: seq<Header>)
    ensures Compatible([h] + rest) <==> HasTicket(h) && Compatible(rest) && forall j | 0 <= j < |rest| :: Fits(h, rest[j])
    ensures AllFit(done, [h] + rest) <==> FitAll(done, h) && AllFit(done, rest)
  {
    hide Fits, HasTicket, FitAll;
    var all := [h] + rest;
    assert all[0] == h && forall j | 0 <= j < |rest| :: all[j + 1] == rest[j];
  }

  lemma ExpandedFits(done: seq<Header>, h: Header, rest: seq<Header>)
    requires HaveTickets(done) && Expand(done, h).Some?
    ensures AllFit(Expand(done, h).value, rest) <==> AllFit(done, rest) && forall j | 0 <= j < |rest| :: Fits(h, rest[j])
  {
    hide Fits, FitAll, PlaceOf;
    forall j | 0 <= j < |rest|
      ensures FitAll(Expand(done, h).value, rest[j]) <==> FitAll(done, rest[j]) && Fits(h, rest[j])
    {
      StillFit(done, h, rest[j], PlaceOf(done, h, TicketHash(h).value));
    }
  }

  lemma NothingCollected()
    ensures Collected([])
  {
  }

  // ---------------------------------------------------------------- where the parents end

  // Block `i` comes with an index beyond the messages sent.
  ghost predicate IndexBeyond(b: Bundle, i: nat)
    requires LengthsMatch(b) && i < |b.blocks|
  {
    b.messages.Some? &&
    var m := b.messages.value;
    || (exists k :: k in m.blsIncludes[i] && k >= |m.bls|)
    || (exists k :: k in m.secpIncludes[i] && k >= |m.secp|)
  }

  // Theorem: a block is refused as inconsistent if and only if an index is beyond the messages sent, and
  // as a mismatch if and only if its message lists do not hash to what its header says.
  lemma RefusedExactly(b: Bundle, i: nat, hash: Meta -> Cid)
    requires LengthsMatch(b) && i < |b.blocks|
    ensures BlockError(b, i, hash) == Some(InconsistentResponse) <==> IndexBeyond(b, i)
    ensures BlockError(b, i, hash) == Some(StoreCidsMismatch) <==>
              b.messages.Some? && !IndexBeyond(b, i) &&
              forall bls, secp | Resolves(b.messages.value.blsIncludes[i], b.messages.value.bls, bls) &&
                                 Resolves(b.messages.value.secpIncludes[i], b.messages.value.secp, secp) ::
                hash(Meta(bls, secp)) != b.blocks[i].messages
    ensures BlockError(b, i, hash) in {None, Some(InconsistentResponse), Some(StoreCidsMismatch)}
  {
    if b.messages.Some? {
      var m := b.messages.value;
      BeyondRange(m.blsIncludes[i], m.bls);
      BeyondRange(m.secpIncludes[i], m.secp);
      if !IndexBeyond(b, i) {
        forall bls | Resolves(m.blsIncludes[i], m.bls, bls)
          ensures bls == Resolve(m.blsIncludes[i], m.bls)
        {
          ResolvesOnce(m.blsIncludes[i], m.bls, bls);
        }
        forall secp | Resolves(m.secpIncludes[i], m.secp, secp)
          ensures secp == Resolve(m.secpIncludes[i], m.secp)
        {
          ResolvesOnce(m.secpIncludes[i], m.secp, secp);
        }
      }
    }
  }

  lemma BeyondRange(indices: seq<nat>, cids: seq<Cid>)
    ensures InRange(indices, cids) <==> !exists k :: k in indices && k >= |cids|
  {
    if !InRange(indices, cids) {
      var i :| 0 <= i < |indices| && indices[i] >= |cids|;
      assert indices[i] in indices;
    }
  }

  // What the bundle after the parents kept is like.
  ghost predicate Contradicts(expected: KeyHash, b: Bundle, hash: Meta -> Cid) {
    var s := StoreBundle(b, hash);
    !Compatible(s.blocks) || (s.error.None? && multiset(Cids(s.blocks)) != expected)
  }

  // One bundle of the parents.
  lemma LinkFirst(expected: KeyHash, bundles: seq<Bundle>, hash: Meta -> Cid)
    requires bundles != []
    ensures var r, s := LinkParents(expected, bundles, hash), StoreBundle(bundles[0], hash);
            if Contradicts(expected, bundles[0], hash) then r == Ancestry([], Some(InconsistentResponse), false)
            else if s.error.Some? || s.blocks == [] then r.tipsets == [] && r.error == None
            else
              && r.tipsets != [] && r.tipsets[0].blocks != []
              && var rest := LinkParents(ParentsOf(r.tipsets[0]), bundles[1..], hash);
                 r.tipsets == [r.tipsets[0]] + rest.tipsets && r.error == rest.error
  {
    hide StoreBundle, Compatible, Collect, KeyOf;
    CollectedFromNone(StoreBundle(bundles[0], hash).blocks);
  }

  // Theorem: the parents end with an error if and only if the next bundle holds blocks that are not of
  // one tipset, or holds a tipset other than the one expected; a bundle with a block that is refused
  // ends them without one.
  lemma {:induction false} ParentsEndExactly(expected: KeyHash, bundles: seq<Bundle>, hash: Meta -> Cid)
    ensures var r := LinkParents(expected, bundles, hash);
            && |r.tipsets| <= |bundles| && (forall i | 0 <= i < |r.tipsets| :: r.tipsets[i].blocks != [])
            && (r.error.Some? <==>
                  |r.tipsets| < |bundles| && Contradicts(NextKey(expected, r.tipsets), bundles[|r.tipsets|], hash))
            && (r.error.Some? ==> r.error == Some(InconsistentResponse))
            && (|r.tipsets| < |bundles| ==>
                  var s := StoreBundle(bundles[|r.tipsets|], hash);
                  r.error.Some? || s.error.Some? || s.blocks == [])
    decreases |bundles|
  {
    hide StoreBundle, Contradicts, LinkParents, NextKey, ParentsOf;
    var r := LinkParents(expected, bundles, hash);
    if bundles == [] {
      NoParents(expected, hash);
    } else {
      LinkFirst(expected, bundles, hash);
      StartKey(expected);
      if r.tipsets != [] {
        var first, more := r.tipsets[0], bundles[1..];
        ParentsEndExactly(ParentsOf(first), more, hash);
        var rest := LinkParents(ParentsOf(first), more, hash);
        SameNextKey(expected, first, rest.tipsets);
        assert |rest.tipsets| < |more| ==> more[|rest.tipsets|] == bundles[|r.tipsets|];
      }
    }
  }

  lemma NoParents(expected: KeyHash, hash: Meta -> Cid)
    ensures LinkParents(expected, [], hash) == Ancestry([], None, false)
  {
  }

  lemma StartKey(expected: KeyHash)
    ensures NextKey(expected, []) == expected
  {
  }

  // Collected from nothing, compatible blocks keep their key.
  lemma CollectedFromNone(blocks: seq<Header>)
    ensures HaveTickets([])
    ensures Collect([], blocks).Some? <==> Compatible(blocks)
    ensures Collect([], blocks).Some? ==>
              && KeyOf(Tipset(Collect([], blocks).value)) == multiset(Cids(blocks))
              && (Collect([], blocks).value == [] <==> blocks == [])
  {
    hide Collect, Compatible;
    NothingCollected();
    CollectsExactly([], blocks);
    NoneDone(blocks);
    if Collect([], blocks).Some? {
      var r := Collect([], blocks).value;
      assert multiset([]) + multiset(blocks) == multiset(blocks);
      SameCids(r, blocks);
      assert |multiset(r)| == |r| && |multiset(blocks)| == |blocks|;
    }
  }

  // Theorem: blocks make a tipset if and only if they are compatible, and it is they in ticket order.
  lemma TipsetOfBlocks(blocks: seq<Header>)
    ensures HaveTickets([])
    ensures Collect([], blocks).Some? <==> Compatible(blocks)
    ensures Collect([], blocks).Some? ==>
              var r := Collect([], blocks).value; Compatible(r) && InOrder(r) && multiset(r) == multiset(blocks)
  {
    hide Collect, Compatible, InOrder;
    NothingCollected();
    CollectsExactly([], blocks);
    NoneDone(blocks);
    assert multiset([]) + multiset(blocks) == multiset(blocks);
  }

  lemma NoneDone(blocks: seq<Header>)
    ensures AllFit([], blocks)
  {
  }

  lemma {:induction false} SameCids(a: seq<Header>, b: seq<Header>)
    requires multiset(a) == multiset(b)
    ensures multiset(Cids(a)) == multiset(Cids(b))
    decreases |a|
  {
    hide Cids;
    if a == [] {
      NoneLeft(b);
    } else {
      var i := PlaceIn(a, b);
      var c := RemoveOne(a, 0);
      var d := RemoveOne(b, i);
      SameCids(c, d);
    }
  }

  lemma NoneLeft(b: seq<Header>)
    requires multiset(b) == multiset{}
    ensures b == []
  {
    assert |multiset(b)| == |b|;
  }

  lemma PlaceIn(a: seq<Header>, b: seq<Header>) returns (i: nat)
    requires a != [] && multiset(a) == multiset(b)
    ensures i < |b| && b[i] == a[0]
  {
    assert a[0] in multiset(b);
    i :| 0 <= i < |b| && b[i] == a[0];
  }

  lemma Removed<T>(a: seq<T>, i: nat)
    requires i < |a|
    ensures multiset(a[..i] + a[i + 1..]) == multiset(a) - multiset{a[i]}
    ensures multiset(a) == multiset(a[..i] + a[i + 1..]) + multiset{a[i]}
  {
    assert a == a[..i] + [a[i]] + a[i + 1..];
  }

  lemma RemoveOne(a: seq<Header>, i: nat) returns (rest: seq<Header>)
    requires i < |a|
    ensures |rest| == |a| - 1 && multiset(rest) == multiset(a) - multiset{a[i]}
    ensures multiset(Cids(a)) == multiset(Cids(rest)) + multiset{a[i].cid}
  {
    rest := a[..i] + a[i + 1..];
    Removed(a, i);
    Removed(Cids(a), i);
    assert Cids(rest) == Cids(a)[..i] + Cids(a)[i + 1..];
  }

  // ---------------------------------------------------------------- what a response ends with

  // Theorem: the blocks stored of a bundle are those before the first one refused, which gives the
  // error; lists of the wrong length store nothing.
  lemma StoresUpToFirstRefused(b: Bundle, hash: Meta -> Cid)
    ensures !LengthsMatch(b) ==> StoreBundle(b, hash) == Stored([], Some(InconsistentResponse))
    ensures LengthsMatch(b) ==>
              var s := StoreBundle(b, hash);
              && s.blocks <= b.blocks
              && (forall j | 0 <= j < |s.blocks| :: BlockError(b, j, hash).None?)
              && s.error == (if |s.blocks| < |b.blocks| then BlockError(b, |s.blocks|, hash) else None)
              && (s.error.None? <==> s.blocks == b.blocks)
  {
    hide BlockError, StoreFrom;
    if LengthsMatch(b) {
      StoresFrom(b, 0, hash);
      assert b.blocks[0..] == b.blocks;
    }
  }

  lemma {:induction false} StoresFrom(b: Bundle, i: nat, hash: Meta -> Cid)
    requires LengthsMatch(b) && i <= |b.blocks|
    ensures var s := StoreFrom(b, i, hash);
            && s.blocks <= b.blocks[i..]
            && (forall j | i <= j < i + |s.blocks| :: BlockError(b, j, hash).None?)
            && s.error == (if i + |s.blocks| < |b.blocks| then BlockError(b, i + |s.blocks|, hash) else None)
            && (s.error.None? <==> s.blocks == b.blocks[i..])
    decreases |b.blocks| - i
  {
    hide BlockError;
    if i < |b.blocks| && BlockError(b, i, hash).None? {
      StoresFrom(b, i + 1, hash);
      assert b.blocks[i..] == [b.blocks[i]] + b.blocks[i + 1..];
    }
  }

  // The CIDs of some blocks.
  ghost function CidsOf(blocks: seq<Header>): (cids: set<Cid>) {
    set i | 0 <= i < |blocks| :: blocks[i].cid
  }

  // `blocks[i]` is the first that was waited for.
  ghost predicate FirstWaited(waitlist: set<Cid>, blocks: seq<Header>, i: nat) {
    i < |blocks| && blocks[i].cid in waitlist && forall j: nat | j < i :: blocks[j].cid !in waitlist
  }

  // Theorem: what is still waited for are the blocks that did not come, and the parents expected, where
  // more follows, are those of the first block that was waited for.
  lemma {:induction false} ArrivesExactly(a: Arrival, blocks: seq<Header>, more: bool)
    ensures var r := Arrive(a, blocks, more);
            && r.waitlist == a.waitlist - CidsOf(blocks)
            && (a.expected.None? ==>
                  && (r.expected.Some? <==> more && a.waitlist * CidsOf(blocks) != {})
                  && (forall i: nat | more && FirstWaited(a.waitlist, blocks, i) ::
                        r.expected == Some(HashOf(blocks[i].parents))))
    decreases |blocks|
  {
    hide HashOf;
    if blocks != [] {
      var h, rest := blocks[0], blocks[1..];
      CidsOfFirst(blocks);
      var next := if h.cid !in a.waitlist then a
                  else Arrival(a.waitlist - {h.cid}, a.available + [h],
                               if more && a.expected.None? then Some(HashOf(h.parents)) else a.expected);
      ArrivesExactly(next, rest, more);
      if next.expected.Some? {
        ExpectedIsFirst(next, rest, more);
      }
      forall i: nat | FirstWaited(a.waitlist, blocks, i)
        ensures if i == 0 then h.cid in a.waitlist else h.cid !in a.waitlist && FirstWaited(a.waitlist, rest, i - 1)
      {
        FirstWaitedLater(a.waitlist, blocks, i);
      }
      assert h.cid in a.waitlist ==> h.cid in a.waitlist * CidsOf(blocks);
    }
  }

  lemma CidsOfFirst(blocks: seq<Header>)
    requires blocks != []
    ensures CidsOf(blocks) == {blocks[0].cid} + CidsOf(blocks[1..])
  {
    forall c
      ensures c in CidsOf(blocks) <==> c == blocks[0].cid || c in CidsOf(blocks[1..])
    {
      if c in CidsOf(blocks) {
        var i :| 0 <= i < |blocks| && blocks[i].cid == c;
        assert i > 0 ==> blocks[1..][i - 1].cid == c;
      }
      if c in CidsOf(blocks[1..]) {
        var i :| 0 <= i < |blocks[1..]| && blocks[1..][i].cid == c;
        assert blocks[i + 1].cid == c;
      }
    }
  }

  lemma FirstWaitedLater(waitlist: set<Cid>, blocks: seq<Header>, i: nat)
    requires FirstWaited(waitlist, blocks, i)
    ensures if i == 0 then blocks[0].cid in waitlist
            else blocks[0].cid !in waitlist && FirstWaited(waitlist, blocks[1..], i - 1)
  {
    var rest := blocks[1..];
    if i > 0 {
      assert blocks[0].cid !in waitlist;
      forall j: nat | j < i - 1
        ensures rest[j].cid !in waitlist
      {
        assert blocks[j + 1].cid !in waitlist;
      }
    }
  }

  // The parents of a response contradict what is expected of them.
  ghost predicate ParentsContradict(p: Progress, chain: seq<Bundle>, hash: Meta -> Cid)
    requires chain != []
  {
    var first := FirstArrival(p, chain, hash);
    |chain| > 1 && first.expected.Some? && LinkParents(first.expected.value, chain[1..], hash).error.Some?
  }

  // Theorem: a response ends with an error if and only if its parents contradict what is expected, a
  // block of its first bundle is refused, or a block waited for is not in that bundle; and that is also
  // the order in which the errors are reported.
  lemma ResponseErrorExactly(p: Progress, chain: seq<Bundle>, hash: Meta -> Cid)
    requires chain != [] && p.outcome.error.None?
    ensures var first := StoreBundle(FirstBundle(p, chain), hash);
            StoreChain(p, chain, hash).outcome.error ==
              if ParentsContradict(p, chain, hash) then Some(InconsistentResponse)
              else if first.error.Some? then first.error
              else if p.waitlist <= CidsOf(first.blocks) then None
              else Some(IncompleteResponse)
  {
    hide StoreBundle, LinkParents, Arrive;
    var first := StoreBundle(FirstBundle(p, chain), hash);
    var start := Arrival(p.waitlist, if p.outcome.messagesOnly then [] else p.outcome.available, None);
    ArrivesExactly(start, first.blocks, |chain| > 1);
    NothingLeft(p.waitlist, CidsOf(first.blocks));
    var a := FirstArrival(p, chain, hash);
    if a.expected.Some? {
      ParentsEndExactly(a.expected.value, chain[1..], hash);
    }
  }

  lemma NothingLeft(a: set<Cid>, b: set<Cid>)
    ensures a - b == {} <==> a <= b
  {
    if a - b == {} {
      forall c | c in a
        ensures c in b
      {
        assert c !in a - b;
      }
    }
  }
}
