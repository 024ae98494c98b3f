// Blocksync: what goes over the wire, and the server side. Messages, blocks and lists of
// messages are identified with their CIDs.
module Blocksync {
  import opened Base

  type Cid = nat

  // The hash of a tipset key does not depend on the order of its blocks.
  type KeyHash = multiset<Cid>

  datatype Header = Header(cid: Cid, height: int, parents: seq<Cid>, messages: Cid, miner: nat, ticket: Option<nat>)

  datatype Tipset = Tipset(blocks: seq<Header>)

  // The messages of one block.
  datatype Meta = Meta(bls: seq<Cid>, secp: seq<Cid>)

  // The messages of a tipset, each sent once per block, with index lists for every block.
  datatype Messages = Messages(bls: seq<Cid>, blsIncludes: seq<seq<nat>>,
                               secp: seq<Cid>, secpIncludes: seq<seq<nat>>)

  datatype Bundle = Bundle(blocks: seq<Header>, messages: Option<Messages>)

  datatype Options = Options(blocks: bool, messages: bool)

  datatype Request = Request(blockCids: seq<Cid>, depth: nat, options: Options)

  datatype Status = ResponseComplete | ResponsePartial | BlockNotFound

  const MAX_REQUEST_LENGTH := 800

  function Cids(blocks: seq<Header>): (cids: seq<Cid>)
    ensures |cids| == |blocks| && forall i | 0 <= i < |cids| :: cids[i] == blocks[i].cid
  {
    seq(|blocks|, i requires 0 <= i < |blocks| => blocks[i].cid)
  }

  function HashOf(cids: seq<Cid>): (h: KeyHash) {
    multiset(cids)
  }

  function KeyOf(ts: Tipset): (h: KeyHash) {
    HashOf(Cids(ts.blocks))
  }

  function Height(ts: Tipset): (h: int) {
    if ts.blocks == [] then 0 else ts.blocks[0].height
  }

  function ParentsOf(ts: Tipset): (h: KeyHash)
    requires ts.blocks != []
  {
    HashOf(ts.blocks[0].parents)
  }

  // ---------------------------------------------------------------- what the server has

  // Lists of messages and tipsets by hash, and the messages that can be loaded.
  datatype Store = Store(metas: map<Cid, Meta>, messages: set<Cid>, tipsets: map<KeyHash, Tipset>)

  predicate Available(store: Store, cids: seq<Cid>) {
    forall i | 0 <= i < |cids| :: cids[i] in store.messages
  }

  predicate BlockServable(store: Store, block: Header) {
    block.messages in store.metas &&
    Available(store, store.metas[block.messages].bls) && Available(store, store.metas[block.messages].secp)
  }

  predicate Servable(store: Store, ts: Tipset, options: Options) {
    options.messages ==> forall i | 0 <= i < |ts.blocks| :: BlockServable(store, ts.blocks[i])
  }

  // The ancestors of a tipset, itself first: up to `depth` of them, up to height 0, and up to
  // the first one that cannot be loaded.
  function Walk(store: Store, key: KeyHash, depth: nat, options: Options): (walk: seq<Tipset>)
    ensures |walk| <= depth
    decreases depth
  {
    if depth == 0 || key !in store.tipsets || !Servable(store, store.tipsets[key], options) then []
    else
      var ts := store.tipsets[key];
      [ts] + if Height(ts) == 0 || ts.blocks == [] then [] else Walk(store, ParentsOf(ts), depth - 1, options)
  }

  lemma WalkUnfold(store: Store, key: KeyHash, depth: nat, options: Options)
    requires depth > 0
    ensures Walk(store, key, depth, options) ==
            if key !in store.tipsets || !Servable(store, store.tipsets[key], options) then []
            else
              var ts := store.tipsets[key];
              if depth == 1 || Height(ts) == 0 || ts.blocks == [] then [ts]
              else [ts] + Walk(store, ParentsOf(ts), depth - 1, options)
  {
    hide Servable;
    if key in store.tipsets && store.tipsets[key].blocks != [] {
      assert depth == 1 ==> Walk(store, ParentsOf(store.tipsets[key]), depth - 1, options) == [];
    }
  }

  // ---------------------------------------------------------------- packing

  // The CIDs that a list of indices stands for.
  ghost predicate Resolves(indices: seq<nat>, messages: seq<Cid>, cids: seq<Cid>) {
    && |indices| == |cids|
    && forall i | 0 <= i < |cids| :: indices[i] < |messages| && messages[indices[i]] == cids[i]
  }

  lemma ResolvesInLonger(indices: seq<nat>, messages: seq<Cid>, more: seq<Cid>, cids: seq<Cid>)
    requires Resolves(indices, messages, cids) && messages <= more
    ensures Resolves(indices, more, cids)
  {
  }

  // The message lists of the blocks, as the packed messages stand for them.
  ghost predicate Packs(m: Messages, blocks: seq<Header>, metas: map<Cid, Meta>) {
    && |m.blsIncludes| == |blocks| && |m.secpIncludes| == |blocks|
    && forall i | 0 <= i < |blocks| ::
         blocks[i].messages in metas &&
         Resolves(m.blsIncludes[i], m.bls, metas[blocks[i].messages].bls) &&
         Resolves(m.secpIncludes[i], m.secp, metas[blocks[i].messages].secp)
  }

  // Visits the messages of one block. A message met before in the same block is not sent again.
  method VisitMessages(store: Store, cids: seq<Cid>, sent: seq<Cid>)
    returns (ok: bool, messages: seq<Cid>, indices: seq<nat>)
    ensures ok <==> Available(store, cids)
    ensures ok ==> sent <= messages && Resolves(indices, messages, cids)
    ensures ok ==> forall i, j | |sent| <= i < j < |messages| :: messages[i] != messages[j]
    ensures ok ==> forall i | |sent| <= i < |messages| :: messages[i] in cids
  {
    messages, indices := sent, [];
    var visited: map<Cid, nat> := map[];
    for n := 0 to |cids|
      invariant Available(store, cids[..n]) && sent <= messages
      invariant Resolves(indices, messages, cids[..n])
      invariant forall c | c in visited :: |sent| <= visited[c] < |messages| && messages[visited[c]] == c
      invariant forall i | |sent| <= i < |messages| :: messages[i] in visited && visited[messages[i]] == i
      invariant forall c | c in visited :: c in cids && c in store.messages
    {
      var cid := cids[n];
      if cid !in visited {
        visited := visited[cid := |messages|];
        if cid !in store.messages {
          return false, messages, indices;
        }
        messages := messages + [cid];
      }
      indices := indices + [visited[cid]];
    }
    return true, messages, indices;
  }

  // Packs the messages of a tipset, unless one of them cannot be loaded.
  method PackMessages(store: Store, ts: Tipset) returns (r: Option<Messages>)
    ensures r.Some? <==> Servable(store, ts, Options(true, true))
    ensures r.Some? ==> Packs(r.value, ts.blocks, store.metas)
  {
    var m := Messages([], [], [], []);
    for n := 0 to |ts.blocks|
      invariant forall i | 0 <= i < n :: BlockServable(store, ts.blocks[i])
      invariant Packs(m, ts.blocks[..n], store.metas)
    {
      var block := ts.blocks[n];
      if block.messages !in store.metas {
        return None;
      }
      var meta := store.metas[block.messages];
      var ok, bls, blsIndices := VisitMessages(store, meta.bls, m.bls);
      if !ok {
        return None;
      }
      var secp, secpIndices;
      ok, secp, secpIndices := VisitMessages(store, meta.secp, m.secp);
      if !ok {
        return None;
      }
      PackedGrows(m, ts.blocks, n, store.metas, bls, blsIndices, secp, secpIndices);
      m := Messages(bls, m.blsIncludes + [blsIndices], secp, m.secpIncludes + [secpIndices]);
    }
    assert ts.blocks[..|ts.blocks|] == ts.blocks;
    return Some(m);
  }

  lemma PackedGrows(m: Messages, blocks: seq<Header>, n: nat, metas: map<Cid, Meta>,
                    bls: seq<Cid>, blsIndices: seq<nat>, secp: seq<Cid>, secpIndices: seq<nat>)
    requires n < |blocks| && Packs(m, blocks[..n], metas) && blocks[n].messages in metas
    requires m.bls <= bls && m.secp <= secp
    requires Resolves(blsIndices, bls, metas[blocks[n].messages].bls)
    requires Resolves(secpIndices, secp, metas[blocks[n].messages].secp)
    ensures Packs(Messages(bls, m.blsIncludes + [blsIndices], secp, m.secpIncludes + [secpIndices]),
                  blocks[..n + 1], metas)
  {
    hide Resolves;
    forall i | 0 <= i < n
      ensures blocks[i].messages in metas
      ensures Resolves(m.blsIncludes[i], bls, metas[blocks[i].messages].bls)
      ensures Resolves(m.secpIncludes[i], secp, metas[blocks[i].messages].secp)
    {
      assert blocks[..n][i] == blocks[i];
      ResolvesInLonger(m.blsIncludes[i], m.bls, bls, metas[blocks[i].messages].bls);
      ResolvesInLonger(m.secpIncludes[i], m.secp, secp, metas[blocks[i].messages].secp);
    }
  }

  // ---------------------------------------------------------------- the chain served

  // A bundle carries a tipset: its blocks and its messages, as far as asked for.
  ghost predicate Represents(b: Bundle, ts: Tipset, options: Options, metas: map<Cid, Meta>) {
    && b.blocks == (if options.blocks then ts.blocks else [])
    && b.messages.Some? == options.messages
    && (b.messages.Some? ==> Packs(b.messages.value, ts.blocks, metas))
  }

  // Blocks of a tipset are there, and the tipset is stored under its own key.
  ghost predicate ValidStore(store: Store) {
    forall key | key in store.tipsets :: store.tipsets[key].blocks != [] && KeyOf(store.tipsets[key]) == key
  }

  // The requested depth, within the limit of the server.
  function Depth(request: Request): (d: nat) {
    if request.depth > MAX_REQUEST_LENGTH then MAX_REQUEST_LENGTH else request.depth
  }

  ghost predicate RepresentsAll(chain: seq<Bundle>, walk: seq<Tipset>, options: Options, metas: map<Cid, Meta>) {
    |chain| == |walk| && forall i | 0 <= i < |chain| :: Represents(chain[i], walk[i], options, metas)
  }

  lemma RepresentsMore(chain: seq<Bundle>, walk: seq<Tipset>, b: Bundle, ts: Tipset, options: Options,
                       metas: map<Cid, Meta>)
    requires RepresentsAll(chain, walk, options, metas) && Represents(b, ts, options, metas)
    ensures RepresentsAll(chain + [b], walk + [ts], options, metas)
  {
    hide Represents;
  }

  // The walk ended at height 0 before the limit.
  predicate EndsAtGenesis(walk: seq<Tipset>, depth: nat) {
    0 < |walk| < depth && Height(walk[|walk| - 1]) == 0
  }

  // Where the walk goes on from `key` after the tipsets done.
  lemma WalkGoesOn(walk: seq<Tipset>, done: seq<Tipset>, store: Store, key: KeyHash, depth: nat, options: Options)
    requires |done| < depth && walk == done + Walk(store, key, depth - |done|, options)
    ensures key !in store.tipsets ==> walk == done
    ensures key in store.tipsets ==>
              var ts := store.tipsets[key];
              if !Servable(store, ts, options) then walk == done
              else if |done| + 1 == depth || Height(ts) == 0 || ts.blocks == [] then walk == done + [ts]
              else walk == done + [ts] + Walk(store, ParentsOf(ts), depth - |done| - 1, options)
  {
    hide Servable, Walk, ParentsOf;
    WalkUnfold(store, key, depth - |done|, options);
  }

  // Packs the tipsets of the walk one after the other.
  method ServeWalk(store: Store, start: KeyHash, depth: nat, options: Options)
    returns (chain: seq<Bundle>, genesis: bool)
    requires ValidStore(store) && depth > 0
    ensures RepresentsAll(chain, Walk(store, start, depth, options), options, store.metas)
    ensures genesis == EndsAtGenesis(Walk(store, start, depth, options), depth)
  {
    hide RepresentsAll, Represents, Servable, Walk, KeyOf, HashOf, ParentsOf, Height;
    ghost var walk := Walk(store, start, depth, options);
    ghost var done: seq<Tipset> := [];
    chain := [];
    var key := start;
    NothingRepresented(options, store.metas);
    assert walk == done + walk;
    while key in store.tipsets
      invariant |chain| == |done| < depth && RepresentsAll(chain, done, options, store.metas)
      invariant walk == done + Walk(store, key, depth - |done|, options)
      invariant done != [] ==> Height(done[|done| - 1]) != 0
      decreases depth - |chain|
    {
      var ts := store.tipsets[key];
      WalkGoesOn(walk, done, store, key, depth, options);
      var ok, bundle := PackTipset(store, ts, options);
      if !ok {
        return chain, false;
      }
      RepresentsMore(chain, done, bundle, ts, options, store.metas);
      chain, done := chain + [bundle], done + [ts];
      if |chain| >= depth {
        return chain, false;
      }
      if Height(ts) == 0 {
        return chain, true;
      }
      key := ParentsOf(ts);
    }
    WalkGoesOn(walk, done, store, key, depth, options);
    return chain, false;
  }

  lemma NothingRepresented(options: Options, metas: map<Cid, Meta>)
    ensures RepresentsAll([], [], options, metas)
  {
  }

  // Theorem: the server answers with the first min(depth, 800) tipsets of the ancestor walk, each
  // represented faithfully; it says "partial" exactly when more than 800 were asked for and the
  // walk did not end at height 0 before the limit.
  method GetChain(store: Store, request: Request) returns (chain: seq<Bundle>, status: Status)
    requires ValidStore(store) && request.depth > 0
    ensures var limit := if request.depth > 800 then 800 else request.depth;
            var walk := Walk(store, HashOf(request.blockCids), limit, request.options);
            && limit == Depth(request) && RepresentsAll(chain, walk, request.options, store.metas)
            && (status == BlockNotFound <==> walk == [])
            && (status == ResponsePartial <==>
                  walk != [] && request.depth > 800 && !(|walk| < 800 && Height(walk[|walk| - 1]) == 0))
  {
    var partial := false;
    var depth := request.depth;
    if request.depth > MAX_REQUEST_LENGTH {
      partial := true;
      depth := MAX_REQUEST_LENGTH;
    }
    var genesis;
    chain, genesis := ServeWalk(store, HashOf(request.blockCids), depth, request.options);
    if genesis {
      partial := false;
    }
    status := if chain == [] then BlockNotFound else if partial then ResponsePartial else ResponseComplete;
  }

  method PackTipset(store: Store, ts: Tipset, options: Options) returns (ok: bool, bundle: Bundle)
    ensures ok <==> Servable(store, ts, options)
    ensures ok ==> Represents(bundle, ts, options, store.metas)
  {
    bundle := Bundle([], None);
    if options.messages {
      var messages := PackMessages(store, ts);
      if messages.None? {
        return false, bundle;
      }
      bundle := bundle.(messages := messages);
    }
    if options.blocks {
      bundle := bundle.(blocks := ts.blocks);
    }
    return true, bundle;
  }
}
