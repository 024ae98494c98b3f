// What storing a response writes to the block store, and what is found there afterwards.
module BlocksyncStore {
  import opened Base
  import opened Blocksync
  import opened BlocksyncClient
  import opened BlocksyncRequest

  datatype LocalStore = LocalStore(headers: map<Cid, Header>, metas: map<Cid, Meta>, messages: set<Cid>)

  predicate AllIn(cids: seq<Cid>, messages: set<Cid>) {
    forall i | 0 <= i < |cids| :: cids[i] in messages
  }

  // The messages of a block can be listed and are all there.
  predicate MessagesKnown(store: LocalStore, m: Cid) {
    m in store.metas && AllIn(store.metas[m].bls, store.messages) && AllIn(store.metas[m].secp, store.messages)
  }

  // A block counts as found when its header is there and, where messages matter, all of them too.
  predicate Found(store: LocalStore, cid: Cid, requireMeta: bool) {
    cid in store.headers && (requireMeta ==> MessagesKnown(store, store.headers[cid].messages))
  }

  // Theorem: where messages matter, a block is found if and only if its header, its message list, and
  // every message of either kind on that list are there.
  lemma FoundExactly(store: LocalStore, cid: Cid)
    ensures Found(store, cid, false) <==> cid in store.headers
    ensures Found(store, cid, true) <==>
              && cid in store.headers && store.headers[cid].messages in store.metas
              && var meta := store.metas[store.headers[cid].messages];
                 forall c | c in meta.bls || c in meta.secp :: c in store.messages
  {
    if cid in store.headers && store.headers[cid].messages in store.metas {
      var meta := store.metas[store.headers[cid].messages];
      AllInMeans(meta.bls, store.messages);
      AllInMeans(meta.secp, store.messages);
    }
  }

  lemma AllInMeans(cids: seq<Cid>, messages: set<Cid>)
    ensures AllIn(cids, messages) <==> forall c | c in cids :: c in messages
  {
    if forall c | c in cids :: c in messages {
      assert forall i | 0 <= i < |cids| :: cids[i] in cids;
    }
  }

  ghost predicate KeyedByCid(store: LocalStore) {
    forall cid | cid in store.headers :: store.headers[cid].cid == cid
  }

  // ---------------------------------------------------------------- writing

  // The message list that block `i` comes with, when its indices are in range.
  function MetaOf(b: Bundle, i: nat): (m: Option<Meta>)
    requires LengthsMatch(b) && i < |b.blocks|
  {
    if b.messages.None? then None
    else
      var m := b.messages.value;
      if !InRange(m.secpIncludes[i], m.secp) || !InRange(m.blsIncludes[i], m.bls) then None
      else Some(Meta(Resolve(m.blsIncludes[i], m.bls), Resolve(m.secpIncludes[i], m.secp)))
  }

  // The header goes first; the list of messages is written before it is compared.
  function WriteBlock(store: LocalStore, b: Bundle, i: nat, hash: Meta -> Cid): (r: LocalStore)
    requires LengthsMatch(b) && i < |b.blocks|
  {
    var h, meta := b.blocks[i], MetaOf(b, i);
    LocalStore(store.headers[h.cid := h], if meta.None? then store.metas else store.metas[hash(meta.value) := meta.value],
               store.messages)
  }

  function WriteFrom(store: LocalStore, b: Bundle, i: nat, hash: Meta -> Cid): (r: LocalStore)
    requires LengthsMatch(b) && i <= |b.blocks|
    decreases |b.blocks| - i
  {
    if i == |b.blocks| then store
    else
      var next := WriteBlock(store, b, i, hash);
      if BlockError(b, i, hash).Some? then next else WriteFrom(next, b, i + 1, hash)
  }

  function WriteMessages(store: LocalStore, b: Bundle): (r: LocalStore) {
    if b.messages.None? then store
    else
      var m := b.messages.value;
      store.(messages := store.messages + (set c | c in m.secp) + (set c | c in m.bls))
  }

  // The messages are written first, then the blocks up to the first one refused.
  function WriteBundle(store: LocalStore, b: Bundle, hash: Meta -> Cid): (r: LocalStore) {
    if !LengthsMatch(b) then store else WriteFrom(WriteMessages(store, b), b, 0, hash)
  }

  // ---------------------------------------------------------------- content addresses

  // CIDs are content addresses: `content` gives the header of a CID, and no two message lists have
  // the same hash.
  ghost predicate Addressed(store: LocalStore, content: Cid -> Header, hash: Meta -> Cid) {
    && (forall cid | cid in store.headers :: store.headers[cid] == content(cid))
    && (forall cid | cid in store.metas :: hash(store.metas[cid]) == cid)
  }

  ghost predicate TrueBlocks(blocks: seq<Header>, content: Cid -> Header) {
    forall i | 0 <= i < |blocks| :: content(blocks[i].cid) == blocks[i]
  }

  ghost predicate Injective(hash: Meta -> Cid) {
    forall a, b | hash(a) == hash(b) :: a == b
  }

  // `after` holds everything that `before` holds.
  ghost predicate Grows(before: LocalStore, after: LocalStore) {
    && (forall cid | cid in before.headers :: cid in after.headers && after.headers[cid] == before.headers[cid])
    && (forall cid | cid in before.metas :: cid in after.metas && after.metas[cid] == before.metas[cid])
    && before.messages <= after.messages
  }

  lemma GrowsKeepsFound(before: LocalStore, after: LocalStore, cid: Cid, requireMeta: bool)
    requires Grows(before, after) && Found(before, cid, requireMeta)
    ensures Found(after, cid, requireMeta)
  {
  }

  lemma GrowsTwice(a: LocalStore, b: LocalStore, c: LocalStore)
    requires Grows(a, b) && Grows(b, c)
    ensures Grows(a, c)
  {
  }

  lemma WriteBlockGrows(store: LocalStore, b: Bundle, i: nat, content: Cid -> Header, hash: Meta -> Cid)
    requires LengthsMatch(b) && i < |b.blocks| && Injective(hash)
    requires Addressed(store, content, hash) && TrueBlocks(b.blocks, content)
    ensures var r := WriteBlock(store, b, i, hash);
            Grows(store, r) && Addressed(r, content, hash) && r.messages == store.messages &&
            b.blocks[i].cid in r.headers &&
            (MetaOf(b, i).Some? ==> hash(MetaOf(b, i).value) in r.metas &&
                                    r.metas[hash(MetaOf(b, i).value)] == MetaOf(b, i).value)
  {
    hide MetaOf;
  }

  lemma {:induction false} WriteFromGrows(store: LocalStore, b: Bundle, i: nat, content: Cid -> Header, hash: Meta -> Cid)
    requires LengthsMatch(b) && i <= |b.blocks| && Injective(hash)
    requires Addressed(store, content, hash) && TrueBlocks(b.blocks, content)
    ensures var r := WriteFrom(store, b, i, hash); Grows(store, r) && Addressed(r, content, hash)
    decreases |b.blocks| - i
  {
    hide WriteBlock, Addressed, Grows, TrueBlocks, Injective, BlockError, MetaOf;
    if i < |b.blocks| {
      WriteBlockGrows(store, b, i, content, hash);
      var next := WriteBlock(store, b, i, hash);
      if BlockError(b, i, hash).None? {
        WriteFromGrows(next, b, i + 1, content, hash);
        GrowsTwice(store, next, WriteFrom(next, b, i + 1, hash));
      }
    } else {
      GrowsSame(store);
    }
  }

  lemma GrowsSame(store: LocalStore)
    ensures Grows(store, store)
  {
  }

  // The messages of block `i` are all among those of the bundle.
  lemma BlockMessagesAreWritten(store: LocalStore, b: Bundle, i: nat, hash: Meta -> Cid)
    requires LengthsMatch(b) && i < |b.blocks| && b.messages.Some? && BlockError(b, i, hash).None?
    ensures MetaOf(b, i).Some? && hash(MetaOf(b, i).value) == b.blocks[i].messages
    ensures var m := WriteMessages(store, b).messages;
            AllIn(MetaOf(b, i).value.bls, m) && AllIn(MetaOf(b, i).value.secp, m)
  {
    var m := b.messages.value;
    assert Resolves(m.blsIncludes[i], m.bls, Resolve(m.blsIncludes[i], m.bls));
    assert Resolves(m.secpIncludes[i], m.secp, Resolve(m.secpIncludes[i], m.secp));
  }

  // A stored block from number `i` on is found once the rest is written.
  lemma {:induction false} StoredFromIsFound(store: LocalStore, start: LocalStore, b: Bundle, i: nat, k: nat,
                                             content: Cid -> Header, hash: Meta -> Cid)
    requires LengthsMatch(b) && i <= k < |b.blocks| && Injective(hash) && b.messages.Some?
    requires Addressed(store, content, hash) && TrueBlocks(b.blocks, content)
    requires Grows(WriteMessages(start, b), store) && k - i < |StoreFrom(b, i, hash).blocks|
    ensures var r := WriteFrom(store, b, i, hash);
            b.blocks[k].cid in r.headers && MessagesKnown(r, b.blocks[k].messages)
    decreases k - i
  {
    hide Addressed, TrueBlocks, Injective, BlockError, MetaOf, WriteMessages, WriteBlock, Grows;
    var next := WriteBlock(store, b, i, hash);
    WriteBlockGrows(store, b, i, content, hash);
    assert BlockError(b, i, hash).None?;
    WriteFromGrows(next, b, i + 1, content, hash);
    GrowsTwice(WriteMessages(start, b), store, next);
    if i < k {
      StoredFromIsFound(next, start, b, i + 1, k, content, hash);
    } else {
      BlockMessagesAreWritten(start, b, i, hash);
      KnownStays(WriteMessages(start, b).messages, next, WriteFrom(next, b, i + 1, hash), b.blocks[i], MetaOf(b, i).value);
    }
  }

  lemma KnownStays(messages: set<Cid>, next: LocalStore, last: LocalStore, h: Header, meta: Meta)
    requires messages <= next.messages && Grows(next, last)
    requires h.cid in next.headers && h.messages in next.metas && next.metas[h.messages] == meta
    requires AllIn(meta.bls, messages) && AllIn(meta.secp, messages)
    ensures h.cid in last.headers && MessagesKnown(last, h.messages)
  {
  }

  lemma {:induction false} HeadersOnly(store: LocalStore, b: Bundle, i: nat, k: nat, hash: Meta -> Cid)
    requires LengthsMatch(b) && i <= k < |b.blocks| && b.messages.None?
    ensures var r := WriteFrom(store, b, i, hash);
            b.blocks[k].cid in r.headers && r.metas == store.metas && r.messages == store.messages
    decreases |b.blocks| - i
  {
    if i + 1 < |b.blocks| {
      var next := WriteBlock(store, b, i, hash);
      HeadersOnly(next, b, i + 1, if i == k then i + 1 else k, hash);
      HeaderStays(next, b, i + 1, b.blocks[i].cid, hash);
    }
  }

  lemma {:induction false} HeaderStays(store: LocalStore, b: Bundle, i: nat, cid: Cid, hash: Meta -> Cid)
    requires LengthsMatch(b) && i <= |b.blocks| && cid in store.headers
    ensures cid in WriteFrom(store, b, i, hash).headers
    decreases |b.blocks| - i
  {
    hide BlockError, MetaOf;
    if i < |b.blocks| {
      HeaderStays(WriteBlock(store, b, i, hash), b, i + 1, cid, hash);
    }
  }

  lemma WriteBundleGrows(store: LocalStore, b: Bundle, content: Cid -> Header, hash: Meta -> Cid)
    requires Injective(hash) && Addressed(store, content, hash) && TrueBlocks(b.blocks, content)
    ensures var r := WriteBundle(store, b, hash); Grows(store, r) && Addressed(r, content, hash)
  {
    hide WriteFrom, Injective, TrueBlocks;
    GrowsSame(store);
    if LengthsMatch(b) {
      var start := WriteMessages(store, b);
      assert Grows(store, start) && Addressed(start, content, hash);
      WriteFromGrows(start, b, 0, content, hash);
      GrowsTwice(store, start, WriteFrom(start, b, 0, hash));
    }
  }

  // Theorem: a block that was accepted is found afterwards. Its messages are found too if and only
  // if the bundle carried messages, or they were known before: a bundle without messages is
  // accepted even where messages were asked for.
  lemma StoredIsFound(store: LocalStore, b: Bundle, k: nat, requireMeta: bool, content: Cid -> Header,
                      hash: Meta -> Cid)
    requires Injective(hash) && Addressed(store, content, hash) && TrueBlocks(b.blocks, content)
    requires k < |StoreBundle(b, hash).blocks| <= |b.blocks|
    ensures var r := WriteBundle(store, b, hash);
            b.blocks[k].cid in r.headers && r.headers[b.blocks[k].cid] == b.blocks[k] &&
            (Found(r, b.blocks[k].cid, requireMeta) <==>
               !requireMeta || b.messages.Some? || MessagesKnown(store, b.blocks[k].messages))
  {
    hide WriteFrom, StoreFrom, Injective, MessagesKnown;
    var start := WriteMessages(store, b);
    WriteBundleGrows(store, b, content, hash);
    assert Addressed(start, content, hash);
    if b.messages.Some? {
      GrowsSame(start);
      StoredFromIsFound(start, store, b, 0, k, content, hash);
    } else {
      HeadersOnly(store, b, 0, k, hash);
      SameMessages(store, WriteBundle(store, b, hash), b.blocks[k].messages);
    }
  }

  lemma SameMessages(a: LocalStore, b: LocalStore, m: Cid)
    requires a.metas == b.metas && a.messages == b.messages
    ensures MessagesKnown(a, m) <==> MessagesKnown(b, m)
  {
  }

  // ---------------------------------------------------------------- a whole response

  // Bundles are written for as long as parents are linked, the one that ends them included.
  function WriteParents(store: LocalStore, expected: KeyHash, bundles: seq<Bundle>, hash: Meta -> Cid): (r: LocalStore)
    decreases |bundles|
  {
    if bundles == [] then store
    else
      var next, stored := WriteBundle(store, bundles[0], hash), StoreBundle(bundles[0], hash);
      match Collect([], stored.blocks)
      case None => next
      case Some(blocks) =>
        if stored.error.Some? || KeyOf(Tipset(blocks)) != expected || blocks == [] then next
        else WriteParents(next, ParentsOf(Tipset(blocks)), bundles[1..], hash)
  }

  function WriteChain(store: LocalStore, p: Progress, chain: seq<Bundle>, hash: Meta -> Cid): (r: LocalStore)
    requires chain != []
  {
    var next, first := WriteBundle(store, FirstBundle(p, chain), hash), FirstArrival(p, chain, hash);
    if |chain| == 1 || first.expected.None? then next
    else WriteParents(next, first.expected.value, chain[1..], hash)
  }

  ghost predicate TrueBundles(bundles: seq<Bundle>, content: Cid -> Header) {
    forall i | 0 <= i < |bundles| :: TrueBlocks(bundles[i].blocks, content)
  }

  lemma {:induction false} WriteParentsGrows(store: LocalStore, expected: KeyHash, bundles: seq<Bundle>,
                                             content: Cid -> Header, hash: Meta -> Cid)
    requires Injective(hash) && Addressed(store, content, hash) && TrueBundles(bundles, content)
    ensures Grows(store, WriteParents(store, expected, bundles, hash))
    decreases |bundles|
  {
    hide Injective, Addressed, TrueBlocks, WriteBundle, StoreBundle, Collect, KeyOf, Grows;
    if bundles == [] {
      GrowsSame(store);
    } else {
      var next := WriteBundle(store, bundles[0], hash);
      WriteBundleGrows(store, bundles[0], content, hash);
      match Collect([], StoreBundle(bundles[0], hash).blocks)
      case None =>
      case Some(blocks) =>
        if blocks != [] {
          WriteParentsGrows(next, ParentsOf(Tipset(blocks)), bundles[1..], content, hash);
          GrowsTwice(store, next, WriteParents(next, ParentsOf(Tipset(blocks)), bundles[1..], hash));
        }
    }
  }

  // Theorem: after a response, every requested block that it delivered is found at hand, with its
  // messages if the first bundle carried messages, so it is not asked for again.
  lemma DeliveredIsFound(store: LocalStore, p: Progress, chain: seq<Bundle>, k: nat, requireMeta: bool,
                         content: Cid -> Header, hash: Meta -> Cid)
    requires chain != [] && Injective(hash) && Addressed(store, content, hash)
    requires TrueBlocks(FirstBundle(p, chain).blocks, content) && TrueBundles(chain[1..], content)
    requires k < |StoreBundle(FirstBundle(p, chain), hash).blocks| && (requireMeta ==> chain[0].messages.Some?)
    ensures k < |FirstBundle(p, chain).blocks|
    ensures Found(WriteChain(store, p, chain, hash), FirstBundle(p, chain).blocks[k].cid, requireMeta)
  {
    hide Injective, Addressed, TrueBlocks, WriteBundle, StoreBundle, WriteParents, Grows, Found, TrueBundles, Arrive;
    var b := FirstBundle(p, chain);
    StoredAreOfBundle(b, hash);
    StoredIsFound(store, b, k, requireMeta, content, hash);
    WriteBundleGrows(store, b, content, hash);
    var next, first := WriteBundle(store, b, hash), FirstArrival(p, chain, hash);
    if |chain| > 1 && first.expected.Some? {
      WriteParentsGrows(next, first.expected.value, chain[1..], content, hash);
      GrowsKeepsFound(next, WriteChain(store, p, chain, hash), b.blocks[k].cid, requireMeta);
    }
  }

  // Messages asked for, none sent, no error: the block is delivered without its messages.
  lemma MessagesMayBeMissing(hash: Meta -> Cid)
    ensures var h, store := Header(1, 5, [], 7, 0, None), LocalStore(map[], map[], {});
            var p := Progress({1}, Outcome([1], [], [], None, true, false), false);
            var chain := [Bundle([h], None)];
            var r := StoreChain(p, chain, hash).outcome;
            r.messagesStored && r.error == None && r.available == [h] && !Found(WriteChain(store, p, chain, hash), 1, true)
  {
    var h := Header(1, 5, [], 7, 0, None);
    var b := Bundle([h], None);
    NoMessages(b, hash);
    AllStored(b, 0, hash);
    assert StoreBundle(b, hash) == Stored([h], None) by { assert b.blocks[0..] == [h]; }
    assert Arrive(Arrival({1}, [], None), [h], false) == Arrival({}, [h], None) by {
      assert [h][1..] == [] && [] + [h] == [h] && {1} - {1} == {};
    }
    var store := LocalStore(map[], map[], {});
    HeadersOnly(store, b, 0, 0, hash);
  }
}
