// The blocksync client: unpacking bundles, checking them against the headers, and linking the
// parents that come with a response.
module BlocksyncClient {
  import opened Base
  import opened Blocksync

  datatype Error = StoreCidsMismatch | InconsistentResponse | IncompleteResponse | BlockMissing

  // ---------------------------------------------------------------- unpacking bundles

  predicate InRange(indices: seq<nat>, cids: seq<Cid>) {
    forall i | 0 <= i < |indices| :: indices[i] < |cids|
  }

  function Resolve(indices: seq<nat>, cids: seq<Cid>): (r: seq<Cid>)
    requires InRange(indices, cids)
    ensures Resolves(indices, cids, r)
  {
    seq(|indices|, i requires 0 <= i < |indices| => cids[indices[i]])
  }

  predicate LengthsMatch(b: Bundle) {
    b.messages.Some? ==>
      |b.messages.value.secpIncludes| == |b.blocks| && |b.messages.value.blsIncludes| == |b.blocks|
  }

  // Why block `i` of a bundle is refused: an index out of range, or messages that do not hash to
  // what the header says. `hash` gives the CID of a message list.
  function BlockError(b: Bundle, i: nat, hash: Meta -> Cid): (e: Option<Error>)
    requires LengthsMatch(b) && i < |b.blocks|
  {
    if b.messages.None? then None
    else
      var m := b.messages.value;
      if !InRange(m.secpIncludes[i], m.secp) || !InRange(m.blsIncludes[i], m.bls) then Some(InconsistentResponse)
      else if hash(Meta(Resolve(m.blsIncludes[i], m.bls), Resolve(m.secpIncludes[i], m.secp)))
              != b.blocks[i].messages then Some(StoreCidsMismatch)
      else None
  }

  datatype Stored = Stored(blocks: seq<Header>, error: Option<Error>)

  // The blocks stored from number `i` on, up to the first one refused.
  function StoreFrom(b: Bundle, i: nat, hash: Meta -> Cid): (r: Stored)
    requires LengthsMatch(b) && i <= |b.blocks|
    decreases |b.blocks| - i
  {
    if i == |b.blocks| then Stored([], None)
    else
      var e := BlockError(b, i, hash);
      if e.Some? then Stored([], e)
      else
        var rest := StoreFrom(b, i + 1, hash);
        rest.(blocks := [b.blocks[i]] + rest.blocks)
  }

  function StoreBundle(b: Bundle, hash: Meta -> Cid): (r: Stored) {
    if !LengthsMatch(b) then Stored([], Some(InconsistentResponse)) else StoreFrom(b, 0, hash)
  }

  // Message lists are stored under their own CID.
  ghost predicate ContentAddressed(metas: map<Cid, Meta>, hash: Meta -> Cid) {
    forall cid | cid in metas :: hash(metas[cid]) == cid
  }

  lemma ResolvesOnce(indices: seq<nat>, messages: seq<Cid>, cids: seq<Cid>)
    requires Resolves(indices, messages, cids)
    ensures InRange(indices, messages) && Resolve(indices, messages) == cids
  {
  }

  // Theorem (lossless): whatever a tipset, unpacking what the server packed rebuilds for every
  // block exactly its message lists; no index is out of range and every list hashes to what the
  // header says, so all blocks are stored.
  lemma UnpackingIsLossless(b: Bundle, metas: map<Cid, Meta>, hash: Meta -> Cid)
    requires b.messages.Some? && Packs(b.messages.value, b.blocks, metas) && ContentAddressed(metas, hash)
    ensures LengthsMatch(b)
    ensures forall i | 0 <= i < |b.blocks| ::
              var m, meta := b.messages.value, metas[b.blocks[i].messages];
              InRange(m.blsIncludes[i], m.bls) && InRange(m.secpIncludes[i], m.secp) &&
              Meta(Resolve(m.blsIncludes[i], m.bls), Resolve(m.secpIncludes[i], m.secp)) == meta &&
              BlockError(b, i, hash) == None
  {
    hide Resolves;
    var m := b.messages.value;
    forall i | 0 <= i < |b.blocks|
      ensures var meta := metas[b.blocks[i].messages];
              InRange(m.blsIncludes[i], m.bls) && InRange(m.secpIncludes[i], m.secp) &&
              Meta(Resolve(m.blsIncludes[i], m.bls), Resolve(m.secpIncludes[i], m.secp)) == meta &&
              BlockError(b, i, hash) == None
    {
      var meta := metas[b.blocks[i].messages];
      ResolvesOnce(m.blsIncludes[i], m.bls, meta.bls);
      ResolvesOnce(m.secpIncludes[i], m.secp, meta.secp);
    }
  }

  lemma {:induction false} AllStored(b: Bundle, i: nat, hash: Meta -> Cid)
    requires LengthsMatch(b) && i <= |b.blocks|
    requires forall j | i <= j < |b.blocks| :: BlockError(b, j, hash) == None
    ensures StoreFrom(b, i, hash) == Stored(b.blocks[i..], None)
    decreases |b.blocks| - i
  {
    hide BlockError;
    if i < |b.blocks| {
      AllStored(b, i + 1, hash);
      assert b.blocks[i..] == [b.blocks[i]] + b.blocks[i + 1..];
    }
  }

  lemma BundleIsStored(b: Bundle, metas: map<Cid, Meta>, hash: Meta -> Cid)
    requires b.messages.Some? ==> Packs(b.messages.value, b.blocks, metas) && ContentAddressed(metas, hash)
    ensures StoreBundle(b, hash) == Stored(b.blocks, None)
  {
    hide BlockError, Packs;
    if b.messages.Some? {
      UnpackingIsLossless(b, metas, hash);
    } else {
      assert forall j | 0 <= j < |b.blocks| :: BlockError(b, j, hash) == None by { NoMessages(b, hash); }
    }
    AllStored(b, 0, hash);
    assert b.blocks[0..] == b.blocks;
  }

  lemma NoMessages(b: Bundle, hash: Meta -> Cid)
    requires b.messages.None?
    ensures forall j | 0 <= j < |b.blocks| :: BlockError(b, j, hash) == None
  {
  }

  // ---------------------------------------------------------------- collecting a tipset

  function TicketHash(h: Header): (t: Option<nat>) {
    if h.ticket.Some? then h.ticket else if h.height == 0 then Some(0) else None
  }

  predicate CanExpand(blocks: seq<Header>, h: Header) {
    blocks == [] ||
    ((h.height > 0 ==> h.ticket.Some?) && h.height == blocks[0].height && h.parents == blocks[0].parents &&
     forall i | 0 <= i < |blocks| :: blocks[i].miner != h.miner)
  }

  // `h` comes before `other` in a tipset.
  predicate Precedes(h: Header, ticket: nat, other: Header)
    requires TicketHash(other).Some?
  {
    ticket < TicketHash(other).value || (ticket == TicketHash(other).value && h.cid < other.cid)
  }

  ghost predicate HaveTickets(blocks: seq<Header>) {
    forall i | 0 <= i < |blocks| :: TicketHash(blocks[i]).Some?
  }

  function PlaceOf(blocks: seq<Header>, h: Header, ticket: nat): (i: nat)
    requires HaveTickets(blocks)
    ensures i <= |blocks|
  {
    if blocks == [] || Precedes(h, ticket, blocks[0]) then 0 else 1 + PlaceOf(blocks[1..], h, ticket)
  }

  // The blocks with one more, in ticket order; None when it does not belong to the same tipset.
  function Expand(blocks: seq<Header>, h: Header): (r: Option<seq<Header>>)
    requires HaveTickets(blocks)
    ensures r.Some? ==> HaveTickets(r.value)
  {
    if !CanExpand(blocks, h) || TicketHash(h).None? then None
    else
      var i := PlaceOf(blocks, h, TicketHash(h).value);
      Some(blocks[..i] + [h] + blocks[i..])
  }

  function Collect(blocks: seq<Header>, more: seq<Header>): (r: Option<seq<Header>>)
    requires HaveTickets(blocks)
    ensures r.Some? ==> HaveTickets(r.value)
    decreases |more|
  {
    if more == [] then Some(blocks)
    else
      match Expand(blocks, more[0])
      case None => None
      case Some(next) => Collect(next, more[1..])
  }

  // Blocks as they stand in a tipset: one height, one list of parents, one block per miner, and
  // in ticket order.
  ghost predicate ValidTipset(ts: Tipset) {
    && ts.blocks != [] && HaveTickets(ts.blocks)
    && (forall i | 0 <= i < |ts.blocks| ::
          ts.blocks[i].height == ts.blocks[0].height && ts.blocks[i].parents == ts.blocks[0].parents &&
          (ts.blocks[i].height > 0 ==> ts.blocks[i].ticket.Some?))
    && (forall i, j | 0 <= i < j < |ts.blocks| ::
          ts.blocks[i].miner != ts.blocks[j].miner &&
          !Precedes(ts.blocks[j], TicketHash(ts.blocks[j]).value, ts.blocks[i]))
  }

  lemma {:induction false} PlaceIsLast(blocks: seq<Header>, h: Header, ticket: nat)
    requires HaveTickets(blocks) && forall i | 0 <= i < |blocks| :: !Precedes(h, ticket, blocks[i])
    ensures PlaceOf(blocks, h, ticket) == |blocks|
  {
    hide Precedes;
    if blocks != [] {
      PlaceIsLast(blocks[1..], h, ticket);
    }
  }

  // The blocks of a tipset are collected as they stand.
  lemma {:induction false} CollectKeepsTipset(ts: Tipset, n: nat)
    requires ValidTipset(ts) && n <= |ts.blocks|
    ensures Collect(ts.blocks[..n], ts.blocks[n..]) == Some(ts.blocks)
    decreases |ts.blocks| - n
  {
    hide Precedes, TicketHash;
    var done, more := ts.blocks[..n], ts.blocks[n..];
    if n == |ts.blocks| {
      assert done == ts.blocks;
    } else {
      var h := ts.blocks[n];
      PlaceIsLast(done, h, TicketHash(h).value);
      assert done[..n] + [h] + done[n..] == ts.blocks[..n + 1];
      assert more[0] == h && more[1..] == ts.blocks[n + 1..];
      CollectKeepsTipset(ts, n + 1);
    }
  }
}
