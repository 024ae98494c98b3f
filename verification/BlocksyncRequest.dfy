// A blocksync request: what is asked for, and what a response adds to its result.
module BlocksyncRequest {
  import opened Base
  import opened Blocksync
  import opened BlocksyncClient

  const MAX_DEPTH := 900

  // ---------------------------------------------------------------- parents

  // `aborted` stands for the access to the first block of a tipset that has none.
  datatype Ancestry = Ancestry(tipsets: seq<Tipset>, error: Option<Error>, aborted: bool)

  // The parents that a response brings: every bundle is stored, collected into a tipset, and
  // compared with the key expected. A bundle that cannot be stored ends the list silently.
  function LinkParents(expected: KeyHash, bundles: seq<Bundle>, hash: Meta -> Cid): (r: Ancestry)
    decreases |bundles|
  {
    if bundles == [] then Ancestry([], None, false)
    else
      var stored := StoreBundle(bundles[0], hash);
      match Collect([], stored.blocks)
      case None => Ancestry([], Some(InconsistentResponse), false)
      case Some(blocks) =>
        if stored.error.Some? then Ancestry([], None, false)
        else if KeyOf(Tipset(blocks)) != expected then Ancestry([], Some(InconsistentResponse), false)
        else if blocks == [] then Ancestry([], None, true)
        else
          var rest := LinkParents(ParentsOf(Tipset(blocks)), bundles[1..], hash);
          rest.(tipsets := [Tipset(blocks)] + rest.tipsets)
  }

  // Every tipset is the one its child names as its parents.
  ghost predicate Linked(expected: KeyHash, tipsets: seq<Tipset>)
    decreases |tipsets|
  {
    tipsets == [] ||
    (tipsets[0].blocks != [] && KeyOf(tipsets[0]) == expected && Linked(ParentsOf(tipsets[0]), tipsets[1..]))
  }

  // Theorem: whatever the response, the parents kept are a hash-linked chain from the key expected.
  lemma {:induction false} ParentsAreLinked(expected: KeyHash, bundles: seq<Bundle>, hash: Meta -> Cid)
    ensures Linked(expected, LinkParents(expected, bundles, hash).tipsets)
    ensures |LinkParents(expected, bundles, hash).tipsets| <= |bundles|
    decreases |bundles|
  {
    hide StoreBundle, Collect, KeyOf;
    if bundles != [] {
      match Collect([], StoreBundle(bundles[0], hash).blocks)
      case None =>
      case Some(blocks) =>
        if blocks != [] {
          ParentsAreLinked(ParentsOf(Tipset(blocks)), bundles[1..], hash);
        }
    }
  }

  // The key expected after some tipsets: what the last of them names as its parents.
  function NextKey(expected: KeyHash, tipsets: seq<Tipset>): (key: KeyHash)
    requires forall i | 0 <= i < |tipsets| :: tipsets[i].blocks != []
  {
    if tipsets == [] then expected else ParentsOf(tipsets[|tipsets| - 1])
  }

  lemma {:induction false} LinkedHaveBlocks(expected: KeyHash, tipsets: seq<Tipset>)
    requires Linked(expected, tipsets)
    ensures forall i | 0 <= i < |tipsets| :: tipsets[i].blocks != []
    decreases |tipsets|
  {
    if tipsets != [] {
      LinkedHaveBlocks(ParentsOf(tipsets[0]), tipsets[1..]);
      assert forall i | 0 < i < |tipsets| :: tipsets[1..][i - 1] == tipsets[i];
    }
  }

  lemma {:induction false} CollectCounts(blocks: seq<Header>, more: seq<Header>)
    requires HaveTickets(blocks)
    ensures Collect(blocks, more).Some? ==> |Collect(blocks, more).value| == |blocks| + |more|
    decreases |more|
  {
    hide CanExpand, PlaceOf;
    if more != [] && Expand(blocks, more[0]).Some? {
      CollectCounts(Expand(blocks, more[0]).value, more[1..]);
    }
  }

  // The next bundle stores nothing and no parents are expected for it.
  ghost predicate EmptyAtRoot(expected: KeyHash, bundles: seq<Bundle>, tipsets: seq<Tipset>, hash: Meta -> Cid)
    requires forall i | 0 <= i < |tipsets| :: tipsets[i].blocks != []
  {
    |tipsets| < |bundles| && StoreBundle(bundles[|tipsets|], hash) == Stored([], None) &&
    NextKey(expected, tipsets) == multiset{}
  }

  // Theorem: whatever the response, a tipset without blocks is reached if and only if the bundle
  // after the parents kept stores nothing and the last of them names no parents.
  lemma {:induction false} AbortNeedsEmptyKey(expected: KeyHash, bundles: seq<Bundle>, hash: Meta -> Cid)
    ensures var r := LinkParents(expected, bundles, hash);
            && (forall i | 0 <= i < |r.tipsets| :: r.tipsets[i].blocks != [])
            && (r.aborted <==> EmptyAtRoot(expected, bundles, r.tipsets, hash))
    decreases |bundles|
  {
    hide StoreBundle, Collect, KeyOf, Linked;
    var r := LinkParents(expected, bundles, hash);
    ParentsAreLinked(expected, bundles, hash);
    LinkedHaveBlocks(expected, r.tipsets);
    if bundles != [] {
      var stored := StoreBundle(bundles[0], hash);
      CollectCounts([], stored.blocks);
      EmptyKey(stored.blocks);
      if r.tipsets != [] {
        var first, more := r.tipsets[0], bundles[1..];
        AbortNeedsEmptyKey(ParentsOf(first), more, hash);
        var rest := LinkParents(ParentsOf(first), more, hash);
        assert r.tipsets == [first] + rest.tipsets && r.aborted == rest.aborted;
        SameNextKey(expected, first, rest.tipsets);
        assert |rest.tipsets| < |more| ==> more[|rest.tipsets|] == bundles[|r.tipsets|];
      }
    }
  }

  lemma EmptyKey(blocks: seq<Header>)
    ensures Collect([], []) == Some([]) && KeyOf(Tipset([])) == multiset{}
    ensures blocks != [] ==> KeyOf(Tipset(blocks)) != multiset{}
  {
    assert Cids([]) == [];
    if blocks != [] {
      assert Cids(blocks)[0] in multiset(Cids(blocks));
    }
  }

  lemma SameNextKey(expected: KeyHash, first: Tipset, rest: seq<Tipset>)
    requires first.blocks != [] && forall i | 0 <= i < |rest| :: rest[i].blocks != []
    ensures NextKey(expected, [first] + rest) == NextKey(ParentsOf(first), rest)
  {
    hide ParentsOf;
  }

  // Bundles that carry a walk, blocks included.
  ghost predicate Carries(bundles: seq<Bundle>, walk: seq<Tipset>, metas: map<Cid, Meta>) {
    && |bundles| == |walk|
    && forall i | 0 <= i < |walk| ::
         bundles[i].blocks == walk[i].blocks &&
         (bundles[i].messages.Some? ==> Packs(bundles[i].messages.value, walk[i].blocks, metas))
  }

  ghost predicate ValidTipsets(walk: seq<Tipset>) {
    forall i | 0 <= i < |walk| :: ValidTipset(walk[i])
  }

  // Theorem: against a server that serves a linked walk, the parents kept are exactly that walk.
  lemma {:induction false} HonestParents(expected: KeyHash, bundles: seq<Bundle>, walk: seq<Tipset>,
                                         metas: map<Cid, Meta>, hash: Meta -> Cid)
    requires Carries(bundles, walk, metas) && ContentAddressed(metas, hash)
    requires ValidTipsets(walk) && Linked(expected, walk)
    ensures LinkParents(expected, bundles, hash) == Ancestry(walk, None, false)
    decreases |walk|
  {
    hide Packs, ContentAddressed, ValidTipset, Collect, StoreBundle, KeyOf;
    if walk != [] {
      var ts, b := walk[0], bundles[0];
      BundleIsStored(b, metas, hash);
      CollectKeepsTipset(ts, 0);
      assert ts.blocks[..0] == [] && ts.blocks[0..] == ts.blocks;
      assert Tipset(ts.blocks) == ts;
      HonestParents(ParentsOf(ts), bundles[1..], walk[1..], metas, hash);
      assert [ts] + walk[1..] == walk;
    }
  }

  // ---------------------------------------------------------------- the requested blocks

  // What storing the first bundle does to the blocks waited for: a block waited for is crossed off
  // and kept, and the first of them names the parents to expect.
  datatype Arrival = Arrival(waitlist: set<Cid>, available: seq<Header>, expected: Option<KeyHash>)

  function Arrive(a: Arrival, blocks: seq<Header>, more: bool): (r: Arrival)
    decreases |blocks|
  {
    if blocks == [] then a
    else
      var h := blocks[0];
      var next :=
        if h.cid !in a.waitlist then a
        else
          Arrival(a.waitlist - {h.cid}, a.available + [h],
                  if more && a.expected.None? then Some(HashOf(h.parents)) else a.expected);
      Arrive(next, blocks[1..], more)
  }

  ghost predicate Has(available: seq<Header>, cid: Cid) {
    exists i :: 0 <= i < |available| && available[i].cid == cid
  }

  // Exactly the blocks crossed off are kept.
  lemma {:induction false} ArrivedAreCrossedOff(a: Arrival, blocks: seq<Header>, more: bool, cid: Cid)
    ensures var r := Arrive(a, blocks, more);
            r.waitlist <= a.waitlist &&
            (Has(r.available, cid) <==> Has(a.available, cid) || (cid in a.waitlist && cid !in r.waitlist))
    decreases |blocks|
  {
    hide HashOf;
    if blocks != [] {
      var h := blocks[0];
      if h.cid in a.waitlist {
        var next := Arrival(a.waitlist - {h.cid}, a.available + [h],
                            if more && a.expected.None? then Some(HashOf(h.parents)) else a.expected);
        HasMore(a.available, h, cid);
        ArrivedAreCrossedOff(next, blocks[1..], more, cid);
      } else {
        ArrivedAreCrossedOff(a, blocks[1..], more, cid);
      }
    }
  }

  lemma HasMore(available: seq<Header>, h: Header, cid: Cid)
    ensures Has(available + [h], cid) <==> Has(available, cid) || cid == h.cid
  {
    assert (available + [h])[|available|] == h;
    if Has(available, cid) {
      var i :| 0 <= i < |available| && available[i].cid == cid;
      assert (available + [h])[i].cid == cid;
    }
  }

  // The parents expected are those of a block that was waited for and has arrived.
  lemma {:induction false} ExpectedIsRequested(a: Arrival, blocks: seq<Header>, more: bool)
    requires a.expected.None?
    ensures var r := Arrive(a, blocks, more);
            r.expected.Some? ==>
              exists h :: h in blocks && h.cid in a.waitlist && r.expected == Some(HashOf(h.parents))
    decreases |blocks|
  {
    if blocks != [] {
      var h := blocks[0];
      if h.cid !in a.waitlist {
        ExpectedIsRequested(a, blocks[1..], more);
      } else if more {
        ExpectedIsFirst(Arrival(a.waitlist - {h.cid}, a.available + [h], Some(HashOf(h.parents))), blocks[1..], more);
      } else {
        ExpectedIsRequested(Arrival(a.waitlist - {h.cid}, a.available + [h], None), blocks[1..], more);
      }
    }
  }

  lemma {:induction false} ExpectedIsFirst(a: Arrival, blocks: seq<Header>, more: bool)
    requires a.expected.Some?
    ensures Arrive(a, blocks, more).expected == a.expected
    decreases |blocks|
  {
    if blocks != [] {
      var h := blocks[0];
      ExpectedIsFirst(if h.cid !in a.waitlist then a
                      else Arrival(a.waitlist - {h.cid}, a.available + [h], a.expected), blocks[1..], more);
    }
  }

  // ---------------------------------------------------------------- the response

  datatype Outcome = Outcome(requested: seq<Cid>, available: seq<Header>, parents: seq<Tipset>,
                             error: Option<Error>, messagesStored: bool, messagesOnly: bool)

  datatype Progress = Progress(waitlist: set<Cid>, outcome: Outcome, aborted: bool)

  // The first bundle as it is stored: a request for messages alone supplies the blocks itself.
  function FirstBundle(p: Progress, chain: seq<Bundle>): (b: Bundle)
    requires chain != []
  {
    if p.outcome.messagesOnly then chain[0].(blocks := p.outcome.available) else chain[0]
  }

  function FirstArrival(p: Progress, chain: seq<Bundle>, hash: Meta -> Cid): (a: Arrival)
    requires chain != []
  {
    Arrive(Arrival(p.waitlist, if p.outcome.messagesOnly then [] else p.outcome.available, None),
           StoreBundle(FirstBundle(p, chain), hash).blocks, |chain| > 1)
  }

  function FirstError(p: Progress, chain: seq<Bundle>, hash: Meta -> Cid): (e: Option<Error>)
    requires chain != []
  {
    var stored := StoreBundle(FirstBundle(p, chain), hash);
    if stored.error.Some? then stored.error
    else if FirstArrival(p, chain, hash).waitlist != {} then Some(IncompleteResponse)
    else p.outcome.error
  }

  function StoreChain(p: Progress, chain: seq<Bundle>, hash: Meta -> Cid): (r: Progress)
    requires chain != []
  {
    var a := FirstArrival(p, chain, hash);
    var e := FirstError(p, chain, hash);
    var q := Progress(a.waitlist, p.outcome.(available := a.available, error := e), p.aborted);
    if |chain| == 1 || a.expected.None? then q
    else
      var up := LinkParents(a.expected.value, chain[1..], hash);
      Progress(q.waitlist,
               q.outcome.(parents := q.outcome.parents + up.tipsets,
                          error := if up.error.Some? then up.error else q.outcome.error),
               q.aborted || up.aborted)
  }

  // Every block asked for is waited for or already there.
  ghost predicate Accounted(p: Progress) {
    forall i | 0 <= i < |p.outcome.requested| ::
      p.outcome.requested[i] in p.waitlist || Has(p.outcome.available, p.outcome.requested[i])
  }

  ghost predicate AllAvailable(o: Outcome) {
    forall i | 0 <= i < |o.requested| :: Has(o.available, o.requested[i])
  }

  // Theorem: an exchange that reports no error delivered every block asked for, whatever the
  // response; one that reports an incomplete response has accounted for all of them.
  lemma NoErrorIsComplete(p: Progress, chain: seq<Bundle>, hash: Meta -> Cid)
    requires chain != [] && Accounted(p) && !p.outcome.messagesOnly
    ensures Accounted(StoreChain(p, chain, hash))
    ensures var r := StoreChain(p, chain, hash);
            r.outcome.error.None? ==> r.waitlist == {} && AllAvailable(r.outcome)
  {
    hide StoreBundle, LinkParents, Arrive, Has;
    var blocks := StoreBundle(FirstBundle(p, chain), hash).blocks;
    forall i | 0 <= i < |p.outcome.requested|
      ensures var r := FirstArrival(p, chain, hash);
              p.outcome.requested[i] in r.waitlist || Has(r.available, p.outcome.requested[i])
    {
      ArrivedAreCrossedOff(Arrival(p.waitlist, p.outcome.available, None), blocks, |chain| > 1,
                           p.outcome.requested[i]);
    }
  }

  // A request for messages alone that reports no error delivers exactly the blocks it waited for,
  // so every block asked for is delivered if and only if all of them were waited for: blocks found
  // at hand when others were missing are dropped.
  lemma MessagesOnlyDeliversWaited(p: Progress, chain: seq<Bundle>, hash: Meta -> Cid)
    requires chain != [] && p.outcome.messagesOnly && StoreChain(p, chain, hash).outcome.error.None?
    ensures var r := StoreChain(p, chain, hash);
            && (forall cid :: Has(r.outcome.available, cid) <==> cid in p.waitlist)
            && (AllAvailable(r.outcome) <==>
                  forall i | 0 <= i < |p.outcome.requested| :: p.outcome.requested[i] in p.waitlist)
  {
    hide StoreBundle, LinkParents, Arrive;
    var r := StoreChain(p, chain, hash);
    forall cid ensures Has(r.outcome.available, cid) <==> cid in p.waitlist {
      ArrivedAreCrossedOff(Arrival(p.waitlist, [], None), StoreBundle(FirstBundle(p, chain), hash).blocks,
                           |chain| > 1, cid);
    }
  }

  // Two blocks asked for, the second one found at hand: without error, the second is not delivered.
  lemma FoundBlockIsDropped()
    ensures var h := Header(1, 5, [], 7, 0, None);
            var p := Progress({1}, Outcome([1, 2], [h], [], None, true, true), false);
            var m := Messages([], [[]], [], [[]]);
            var r := StoreChain(p, [Bundle([], Some(m))], (meta: Meta) => 7).outcome;
            r.error == None && r.available == [h] && !AllAvailable(r)
  {
    var h := Header(1, 5, [], 7, 0, None);
    var m := Messages([], [[]], [], [[]]);
    var b := Bundle([h], Some(m));
    var hash := (meta: Meta) => 7;
    assert BlockError(b, 0, hash) == None;
    AllStored(b, 0, hash);
    assert StoreBundle(b, hash) == Stored([h], None) by { assert b.blocks[0..] == [h]; }
    var p := Progress({1}, Outcome([1, 2], [h], [], None, true, true), false);
    var c := [Bundle([], Some(m))];
    assert FirstBundle(p, c) == b;
    assert Arrive(Arrival({1}, [], None), [h], false) == Arrival({}, [h], None) by {
      assert [h][1..] == [];
      assert [] + [h] == [h] && {1} - {1} == {};
    }
    var r := StoreChain(p, c, hash).outcome;
    assert !Has(r.available, r.requested[1]);
  }

  // Theorem: the parents delivered, whatever the response, are a hash-linked chain that starts at
  // the parents of one of the blocks asked for.
  lemma DeliveredParentsAreLinked(p: Progress, chain: seq<Bundle>, hash: Meta -> Cid)
    requires chain != [] && p.outcome.parents == []
    ensures var r := StoreChain(p, chain, hash).outcome;
            |r.parents| < |chain| &&
            (r.parents != [] ==>
               exists h :: h in FirstBundle(p, chain).blocks && h.cid in p.waitlist &&
                           Linked(HashOf(h.parents), r.parents))
  {
    hide LinkParents, Arrive, Linked, HashOf, StoreBundle;
    var stored := StoreBundle(FirstBundle(p, chain), hash).blocks;
    var a := FirstArrival(p, chain, hash);
    var start := Arrival(p.waitlist, if p.outcome.messagesOnly then [] else p.outcome.available, None);
    ExpectedIsRequested(start, stored, |chain| > 1);
    if |chain| > 1 && a.expected.Some? {
      var up := LinkParents(a.expected.value, chain[1..], hash);
      assert StoreChain(p, chain, hash).outcome.parents == up.tipsets;
      ParentsAreLinked(a.expected.value, chain[1..], hash);
      var h :| h in stored && h.cid in start.waitlist && a.expected == Some(HashOf(h.parents));
      StoredAreOfBundle(FirstBundle(p, chain), hash);
    }
  }

  // Theorem: a whole response reads the first block of a tipset without blocks if and only if,
  // after the parents delivered, a bundle stores nothing where no parents are expected.
  lemma ResponseAbortsExactly(p: Progress, chain: seq<Bundle>, hash: Meta -> Cid)
    requires chain != [] && p.outcome.parents == [] && !p.aborted
    ensures var r, first := StoreChain(p, chain, hash), FirstArrival(p, chain, hash);
            && (forall i | 0 <= i < |r.outcome.parents| :: r.outcome.parents[i].blocks != [])
            && (r.aborted <==>
                  first.expected.Some? && EmptyAtRoot(first.expected.value, chain[1..], r.outcome.parents, hash))
  {
    hide LinkParents, Arrive, StoreBundle, NextKey;
    var first := FirstArrival(p, chain, hash);
    if first.expected.Some? {
      AbortNeedsEmptyKey(first.expected.value, chain[1..], hash);
      if |chain| > 1 {
        var up := LinkParents(first.expected.value, chain[1..], hash);
        assert StoreChain(p, chain, hash).outcome.parents == up.tipsets;
      }
    }
  }

  // A requested block without parents, followed by a bundle without blocks: no error is recorded
  // when the tipset without blocks is read.
  lemma EmptyBundleAborts(hash: Meta -> Cid)
    ensures var h := Header(1, 0, [], 7, 0, None);
            var p := Progress({1}, Outcome([1], [], [], None, false, false), false);
            var r := StoreChain(p, [Bundle([h], None), Bundle([], None)], hash);
            r.aborted && r.outcome.error == None && r.outcome.available == [h]
  {
    var h := Header(1, 0, [], 7, 0, None);
    var b, e := Bundle([h], None), Bundle([], None);
    var p := Progress({1}, Outcome([1], [], [], None, false, false), false);
    NoMessages(b, hash);
    AllStored(b, 0, hash);
    assert StoreBundle(b, hash) == Stored([h], None) by { assert b.blocks[0..] == [h]; }
    assert StoreBundle(e, hash) == Stored([], None);
    assert Arrive(Arrival({1}, [], None), [h], true) == Arrival({}, [h], Some(multiset{})) by {
      assert [h][1..] == [] && [] + [h] == [h] && {1} - {1} == {};
    }
    assert FirstArrival(p, [b, e], hash) == Arrival({}, [h], Some(multiset{}));
    assert [b, e][1..] == [e];
    EmptyKey([]);
    assert LinkParents(multiset{}, [e], hash) == Ancestry([], None, true);
  }

  lemma {:induction false} StoredFromAreOfBundle(b: Bundle, i: nat, hash: Meta -> Cid)
    requires LengthsMatch(b) && i <= |b.blocks|
    ensures StoreFrom(b, i, hash).blocks <= b.blocks[i..]
    decreases |b.blocks| - i
  {
    hide BlockError;
    if i < |b.blocks| {
      StoredFromAreOfBundle(b, i + 1, hash);
      assert b.blocks[i..] == [b.blocks[i]] + b.blocks[i + 1..];
    }
  }

  // What is stored of a bundle is its first blocks.
  lemma StoredAreOfBundle(b: Bundle, hash: Meta -> Cid)
    ensures StoreBundle(b, hash).blocks <= b.blocks
    ensures forall h | h in StoreBundle(b, hash).blocks :: h in b.blocks
  {
    hide StoreFrom;
    if LengthsMatch(b) {
      StoredFromAreOfBundle(b, 0, hash);
      assert b.blocks[0..] == b.blocks;
    }
  }

  // ---------------------------------------------------------------- an honest server

  ghost predicate DistinctCids(blocks: seq<Header>) {
    forall i, j | 0 <= i < j < |blocks| :: blocks[i].cid != blocks[j].cid
  }

  // Blocks that are all waited for are all crossed off and kept.
  lemma {:induction false} AllArrive(waitlist: set<Cid>, available: seq<Header>, expected: Option<KeyHash>,
                                     blocks: seq<Header>, more: bool)
    requires DistinctCids(blocks) && waitlist == (set i | 0 <= i < |blocks| :: blocks[i].cid)
    ensures var r := Arrive(Arrival(waitlist, available, expected), blocks, more);
            r == Arrival({}, available + blocks,
                         if more && expected.None? && blocks != [] then Some(HashOf(blocks[0].parents)) else expected)
    decreases |blocks|
  {
    hide HashOf;
    if blocks != [] {
      var h, rest := blocks[0], blocks[1..];
      forall c ensures c in waitlist - {h.cid} <==> c in (set i | 0 <= i < |rest| :: rest[i].cid) {
        if c in waitlist - {h.cid} {
          var i :| 0 <= i < |blocks| && blocks[i].cid == c;
          assert rest[i - 1].cid == c;
        }
        if c in (set i | 0 <= i < |rest| :: rest[i].cid) {
          var i :| 0 <= i < |rest| && rest[i].cid == c;
          assert blocks[i + 1].cid == c;
        }
      }
      assert waitlist - {h.cid} == (set i | 0 <= i < |rest| :: rest[i].cid);
      AllArrive(waitlist - {h.cid}, available + [h],
                if more && expected.None? then Some(HashOf(h.parents)) else expected, rest, more);
      assert available + [h] + rest == available + blocks;
    }
  }

  // The walk of a valid store is linked.
  lemma {:induction false} WalkIsLinked(store: Store, key: KeyHash, depth: nat, options: Options)
    requires ValidStore(store)
    ensures Linked(key, Walk(store, key, depth, options))
    decreases depth
  {
    hide Servable, KeyOf;
    if depth > 0 && key in store.tipsets && Servable(store, store.tipsets[key], options) {
      var ts := store.tipsets[key];
      if Height(ts) != 0 {
        WalkIsLinked(store, ParentsOf(ts), depth - 1, options);
        var rest := Walk(store, ParentsOf(ts), depth - 1, options);
        assert Walk(store, key, depth, options) == [ts] + rest;
        assert ([ts] + rest)[1..] == rest;
      }
    }
  }

  ghost predicate ValidTipsetStore(store: Store) {
    ValidStore(store) && forall key | key in store.tipsets :: ValidTipset(store.tipsets[key])
  }

  lemma {:induction false} WalkIsValid(store: Store, key: KeyHash, depth: nat, options: Options)
    requires ValidTipsetStore(store)
    ensures ValidTipsets(Walk(store, key, depth, options))
    decreases depth
  {
    hide Servable, KeyOf, ValidTipset;
    if depth > 0 && key in store.tipsets && Servable(store, store.tipsets[key], options) {
      var ts := store.tipsets[key];
      if Height(ts) != 0 && ts.blocks != [] {
        WalkIsValid(store, ParentsOf(ts), depth - 1, options);
      }
    }
  }

  lemma RepresentsCarries(chain: seq<Bundle>, walk: seq<Tipset>, options: Options, metas: map<Cid, Meta>)
    requires options.blocks && RepresentsAll(chain, walk, options, metas)
    ensures Carries(chain, walk, metas)
  {
    hide Packs;
  }

  lemma CarriesTail(chain: seq<Bundle>, walk: seq<Tipset>, metas: map<Cid, Meta>)
    requires Carries(chain, walk, metas) && walk != []
    ensures Carries(chain[1..], walk[1..], metas)
  {
    hide Packs;
  }

  // Theorem (client and server together): against a server that answers with the ancestor walk of
  // the tipset asked for, the exchange ends without error with exactly the blocks of that tipset,
  // nothing left waiting, and exactly the rest of the walk as parents.
  lemma HonestExchange(p: Progress, chain: seq<Bundle>, store: Store, key: KeyHash, depth: nat, options: Options,
                       hash: Meta -> Cid)
    requires ValidTipsetStore(store) && ContentAddressed(store.metas, hash) && options.blocks
    requires var walk := Walk(store, key, depth, options);
             && walk != [] && RepresentsAll(chain, walk, options, store.metas)
             && DistinctCids(walk[0].blocks)
             && p.waitlist == (set i | 0 <= i < |walk[0].blocks| :: walk[0].blocks[i].cid)
    requires !p.outcome.messagesOnly && p.outcome.error.None? && p.outcome.parents == [] && !p.aborted
    ensures var walk := Walk(store, key, depth, options);
            StoreChain(p, chain, hash) ==
              Progress({}, p.outcome.(available := p.outcome.available + walk[0].blocks, parents := walk[1..]), false)
  {
    hide Walk, StoreBundle, LinkParents, Arrive, Carries, ContentAddressed, ValidTipset, RepresentsAll, Linked,
         ValidStore, KeyOf, HashOf, Packs, DistinctCids;
    var walk := Walk(store, key, depth, options);
    RepresentsCarries(chain, walk, options, store.metas);
    FirstCarried(chain, walk, store.metas);
    BundleIsStored(chain[0], store.metas, hash);
    AllArrive(p.waitlist, p.outcome.available, None, walk[0].blocks, |chain| > 1);
    FirstOfLinked(store, key, depth, options);
    if |chain| > 1 {
      CarriesTail(chain, walk, store.metas);
      WalkIsValid(store, key, depth, options);
      HonestParents(ParentsOf(walk[0]), chain[1..], walk[1..], store.metas, hash);
    } else {
      assert walk[1..] == [];
    }
  }

  lemma FirstCarried(chain: seq<Bundle>, walk: seq<Tipset>, metas: map<Cid, Meta>)
    requires Carries(chain, walk, metas) && walk != []
    ensures |chain| == |walk| && chain[0].blocks == walk[0].blocks
    ensures chain[0].messages.Some? ==> Packs(chain[0].messages.value, chain[0].blocks, metas)
  {
    hide Packs;
  }

  lemma FirstOfLinked(store: Store, key: KeyHash, depth: nat, options: Options)
    requires ValidStore(store) && Walk(store, key, depth, options) != []
    ensures var walk := Walk(store, key, depth, options);
            walk[0].blocks != [] && Linked(ParentsOf(walk[0]), walk[1..]) && ParentsOf(walk[0]) == HashOf(walk[0].blocks[0].parents)
  {
    hide Walk, KeyOf, HashOf;
    WalkIsLinked(store, key, depth, options);
  }

  ghost predicate NoDuplicates(cids: seq<Cid>) {
    forall i, j | 0 <= i < j < |cids| :: cids[i] != cids[j]
  }

  lemma {:induction false} CountedOnce(cids: seq<Cid>, c: Cid)
    requires NoDuplicates(cids)
    ensures multiset(cids)[c] <= 1
    decreases |cids|
  {
    if cids != [] {
      var n := |cids| - 1;
      assert cids == cids[..n] + [cids[n]];
      CountedOnce(cids[..n], c);
      if cids[n] == c {
        assert c !in multiset(cids[..n]);
      }
    }
  }

  // A tipset with the key of the request has the requested blocks, each once.
  lemma TipsetOfRequest(ts: Tipset, cids: seq<Cid>)
    requires NoDuplicates(cids) && KeyOf(ts) == HashOf(cids)
    ensures DistinctCids(ts.blocks)
    ensures (set i | 0 <= i < |ts.blocks| :: ts.blocks[i].cid) == (set cid | cid in cids)
  {
    var own := Cids(ts.blocks);
    forall i, j | 0 <= i < j < |ts.blocks| ensures ts.blocks[i].cid != ts.blocks[j].cid {
      CountedOnce(cids, own[i]);
      if own[i] == own[j] {
        TwoPlaces(own, i, j);
      }
    }
    var waited, blocks := (set cid | cid in cids), set i | 0 <= i < |ts.blocks| :: ts.blocks[i].cid;
    forall c ensures c in waited <==> c in blocks {
      assert c in multiset(own) <==> c in multiset(cids);
      if c in own {
        var i :| 0 <= i < |own| && own[i] == c;
        assert ts.blocks[i].cid == c;
      }
    }
  }

  lemma WalkStartsAtKey(store: Store, key: KeyHash, depth: nat, options: Options)
    requires ValidStore(store) && Walk(store, key, depth, options) != []
    ensures KeyOf(Walk(store, key, depth, options)[0]) == key
  {
    hide KeyOf, Servable;
  }

  // Theorem (a whole exchange): for a tipset none of whose blocks is at hand, asked for by its
  // distinct block CIDs from a server that has it, the caller gets the blocks of that tipset and
  // its ancestors as far as the server has them, and no error.
  lemma WholeExchange(p: Progress, chain: seq<Bundle>, store: Store, request: Request, hash: Meta -> Cid)
    requires ValidTipsetStore(store) && ContentAddressed(store.metas, hash)
    requires request.options.blocks && NoDuplicates(request.blockCids)
    requires var walk := Walk(store, HashOf(request.blockCids), Depth(request), request.options);
             walk != [] && RepresentsAll(chain, walk, request.options, store.metas)
    requires p == Progress((set cid | cid in request.blockCids),
                           Outcome(request.blockCids, [], [], None, request.options.messages, false), false)
    ensures var walk := Walk(store, HashOf(request.blockCids), Depth(request), request.options);
            StoreChain(p, chain, hash) ==
              Progress({}, Outcome(request.blockCids, walk[0].blocks, walk[1..], None, request.options.messages, false), false)
  {
    hide Walk, StoreChain, ValidTipset, ContentAddressed, RepresentsAll, KeyOf, HashOf;
    var key := HashOf(request.blockCids);
    WalkStartsAtKey(store, key, Depth(request), request.options);
    var walk := Walk(store, key, Depth(request), request.options);
    TipsetOfRequest(walk[0], request.blockCids);
    HonestExchange(p, chain, store, key, Depth(request), request.options, hash);
    assert [] + walk[0].blocks == walk[0].blocks;
  }
}
