// The blocksync request as an object: it reduces the request to what is missing, stores a response
// block by block, links the parents, and answers once.
module BlocksyncRequestObject {
  import opened Base
  import opened Blocksync
  import opened BlocksyncClient
  import opened BlocksyncRequest
  import opened BlocksyncStore
  import opened BlocksyncMeaning

  // ---------------------------------------------------------------- the local store

  // The blocks to ask for, in the order given.
  function Missing(store: LocalStore, blocks: seq<Cid>, requireMeta: bool): (r: seq<Cid>) {
    if blocks == [] then []
    else
      var n := |blocks| - 1;
      Missing(store, blocks[..n], requireMeta) + if Found(store, blocks[n], requireMeta) then [] else [blocks[n]]
  }

  // The headers at hand, in the order given.
  function AtHand(store: LocalStore, blocks: seq<Cid>, requireMeta: bool): (r: seq<Header>) {
    if blocks == [] then []
    else
      var n := |blocks| - 1;
      AtHand(store, blocks[..n], requireMeta) +
      if Found(store, blocks[n], requireMeta) then [store.headers[blocks[n]]] else []
  }

  // Every block is asked for or at hand, and only one of the two.
  lemma SplitIsExact(store: LocalStore, blocks: seq<Cid>, requireMeta: bool)
    requires KeyedByCid(store)
    ensures forall cid :: cid in Missing(store, blocks, requireMeta) <==> cid in blocks && !Found(store, cid, requireMeta)
    ensures forall cid :: Has(AtHand(store, blocks, requireMeta), cid) <==> cid in blocks && Found(store, cid, requireMeta)
    ensures |Missing(store, blocks, requireMeta)| + |AtHand(store, blocks, requireMeta)| == |blocks|
  {
    hide Missing, AtHand, Found, Has;
    forall cid
      ensures cid in Missing(store, blocks, requireMeta) <==> cid in blocks && !Found(store, cid, requireMeta)
      ensures Has(AtHand(store, blocks, requireMeta), cid) <==> cid in blocks && Found(store, cid, requireMeta)
    {
      SplitOne(store, blocks, requireMeta, cid);
    }
    SplitOne(store, blocks, requireMeta, 0);
  }

  lemma {:induction false} SplitOne(store: LocalStore, blocks: seq<Cid>, requireMeta: bool, cid: Cid)
    requires KeyedByCid(store)
    ensures cid in Missing(store, blocks, requireMeta) <==> cid in blocks && !Found(store, cid, requireMeta)
    ensures Has(AtHand(store, blocks, requireMeta), cid) <==> cid in blocks && Found(store, cid, requireMeta)
    ensures |Missing(store, blocks, requireMeta)| + |AtHand(store, blocks, requireMeta)| == |blocks|
    decreases |blocks|
  {
    hide Found, Has;
    if blocks == [] {
      assert !Has([], cid) by { NothingAtHand(cid); }
    } else {
      var n := |blocks| - 1;
      var last, front := blocks[n], AtHand(store, blocks[..n], requireMeta);
      SplitOne(store, blocks[..n], requireMeta, cid);
      assert blocks == blocks[..n] + [last];
      if Found(store, last, requireMeta) {
        FoundHasHeader(store, last, requireMeta);
        HasMore(front, store.headers[last], cid);
      } else {
        assert front + [] == front;
      }
    }
  }

  lemma NothingAtHand(cid: Cid)
    ensures !Has([], cid)
  {
  }

  // Both keep the order of the request.
  lemma {:induction false} SplitIsInOrder(store: LocalStore, a: seq<Cid>, b: seq<Cid>, requireMeta: bool)
    ensures Missing(store, a + b, requireMeta) == Missing(store, a, requireMeta) + Missing(store, b, requireMeta)
    ensures AtHand(store, a + b, requireMeta) == AtHand(store, a, requireMeta) + AtHand(store, b, requireMeta)
    decreases |b|
  {
    hide Found;
    if b == [] {
      assert a + b == a;
    } else {
      var n := |b| - 1;
      assert (a + b)[..|a| + n] == a + b[..n] && (a + b)[|a| + n] == b[n];
      SplitIsInOrder(store, a, b[..n], requireMeta);
      if Found(store, b[n], requireMeta) {
        FoundHasHeader(store, b[n], requireMeta);
      }
    }
  }

  // Splits the blocks into those to ask for and those at hand.
  method TryReduceRequest(store: LocalStore, blocks: seq<Cid>, requireMeta: bool)
    returns (reduced: seq<Cid>, available: seq<Header>)
    ensures reduced == Missing(store, blocks, requireMeta) && available == AtHand(store, blocks, requireMeta)
  {
    hide Found;
    reduced, available := [], [];
    for n := 0 to |blocks|
      invariant reduced == Missing(store, blocks[..n], requireMeta)
      invariant available == AtHand(store, blocks[..n], requireMeta)
    {
      assert blocks[..n + 1][..n] == blocks[..n];
      var cid := blocks[n];
      if Found(store, cid, requireMeta) {
        FoundHasHeader(store, cid, requireMeta);
        available := available + [store.headers[cid]];
      } else {
        reduced := reduced + [cid];
      }
    }
    assert blocks[..|blocks|] == blocks;
  }

  lemma FoundHasHeader(store: LocalStore, cid: Cid, requireMeta: bool)
    requires Found(store, cid, requireMeta)
    ensures cid in store.headers
  {
  }

  // ---------------------------------------------------------------- the tipset creator

  class TipsetCreator {
    var blocks: seq<Header>
    var ticketHashes: seq<nat>

    ghost predicate Valid()
      reads this
    {
      TicketsMatch(blocks, ticketHashes)
    }

    constructor ()
      ensures Valid() && blocks == []
    {
      blocks, ticketHashes := [], [];
    }

    // Puts the block in its place: after every block it does not precede.
    method ExpandTipset(h: Header) returns (ok: bool)
      requires Valid() && CanExpand(blocks, h)
      modifies this
      ensures Valid()
      ensures ok == Expand(old(blocks), h).Some?
      ensures blocks == if ok then Expand(old(blocks), h).value else old(blocks)
    {
      hide CanExpand, PlaceOf, TicketsMatch;
      TicketsAreThere(blocks, ticketHashes);
      var ticket := TicketHash(h);
      if ticket.None? {
        return false;
      }
      var idx := FindPlace(h, ticket.value);
      InsertedTickets(blocks, ticketHashes, idx, h);
      blocks := blocks[..idx] + [h] + blocks[idx..];
      ticketHashes := ticketHashes[..idx] + [ticket.value] + ticketHashes[idx..];
      return true;
    }

    method FindPlace(h: Header, hash: nat) returns (idx: nat)
      requires Valid()
      ensures HaveTickets(blocks) && idx == PlaceOf(blocks, h, hash)
    {
      hide PlaceOf;
      TicketsAreThere(blocks, ticketHashes);
      idx := 0;
      assert blocks[0..] == blocks;
      while idx != |ticketHashes|
        invariant 0 <= idx <= |blocks| && HaveTickets(blocks[idx..])
        invariant PlaceOf(blocks, h, hash) == idx + PlaceOf(blocks[idx..], h, hash)
      {
        PlaceUnfold(blocks, idx, h, hash);
        if hash < ticketHashes[idx] {
          return;
        }
        if hash == ticketHashes[idx] && h.cid < blocks[idx].cid {
          return;
        }
        idx := idx + 1;
      }
      PlaceAtEnd(blocks[idx..], h, hash);
    }

    method GetTipset() returns (ts: Tipset)
      modifies this
      ensures ts == Tipset(old(blocks)) && Valid() && blocks == []
    {
      ts := Tipset(blocks);
      blocks, ticketHashes := [], [];
    }
  }

  // Every block with the hash of its ticket.
  ghost predicate TicketsMatch(blocks: seq<Header>, hashes: seq<nat>) {
    |hashes| == |blocks| && forall i | 0 <= i < |blocks| :: TicketHash(blocks[i]) == Some(hashes[i])
  }

  lemma TicketsAreThere(blocks: seq<Header>, hashes: seq<nat>)
    requires TicketsMatch(blocks, hashes)
    ensures HaveTickets(blocks) && |hashes| == |blocks|
  {
  }

  lemma InsertedTickets(blocks: seq<Header>, hashes: seq<nat>, i: nat, h: Header)
    requires TicketsMatch(blocks, hashes) && i <= |blocks| == |hashes| && TicketHash(h).Some?
    ensures TicketsMatch(blocks[..i] + [h] + blocks[i..], hashes[..i] + [TicketHash(h).value] + hashes[i..])
  {
    hide TicketHash;
  }

  lemma PlaceUnfold(blocks: seq<Header>, i: nat, h: Header, hash: nat)
    requires i < |blocks| && HaveTickets(blocks)
    ensures HaveTickets(blocks[i..]) && HaveTickets(blocks[i + 1..])
    ensures PlaceOf(blocks[i..], h, hash) ==
            if Precedes(h, hash, blocks[i]) then 0 else 1 + PlaceOf(blocks[i + 1..], h, hash)
  {
    hide TicketHash, Precedes;
    assert blocks[i..][0] == blocks[i] && blocks[i..][1..] == blocks[i + 1..];
  }

  lemma PlaceAtEnd(blocks: seq<Header>, h: Header, hash: nat)
    requires blocks == []
    ensures PlaceOf(blocks, h, hash) == 0
  {
  }

  // ---------------------------------------------------------------- storing a bundle

  // The messages a block includes, appended one by one.
  method CollectIncludes(indices: seq<nat>, cids: seq<Cid>) returns (r: Option<seq<Cid>>)
    ensures r.Some? <==> InRange(indices, cids)
    ensures r.Some? ==> r.value == Resolve(indices, cids)
  {
    var list: seq<Cid> := [];
    for i := 0 to |indices|
      invariant |list| == i
      invariant forall k | 0 <= k < i :: indices[k] < |cids| && list[k] == cids[indices[k]]
    {
      if indices[i] >= |cids| {
        return None;
      }
      list := list + [cids[indices[i]]];
    }
    assert list == Resolve(indices, cids);
    return Some(list);
  }

  // Stores a bundle: its messages, then its blocks one by one up to the first one refused.
  method StoreTipsetBundle(store: LocalStore, b: Bundle, hash: Meta -> Cid) returns (stored: Stored, after: LocalStore)
    ensures stored == StoreBundle(b, hash) && after == WriteBundle(store, b, hash)
  {
    hide BlockError, MetaOf, StoreFrom, WriteFrom;
    after := store;
    if b.messages.Some? {
      if |b.messages.value.secpIncludes| != |b.blocks| || |b.messages.value.blsIncludes| != |b.blocks| {
        return Stored([], Some(InconsistentResponse)), after;
      }
      after := WriteMessages(after, b);
    }
    var blocks: seq<Header> := [];
    StartOfBundle(store, b, hash);
    for i := 0 to |b.blocks|
      invariant LengthsMatch(b)
      invariant StoreBundle(b, hash) == StoreFrom(b, i, hash).(blocks := blocks + StoreFrom(b, i, hash).blocks)
      invariant WriteBundle(store, b, hash) == WriteFrom(after, b, i, hash)
    {
      StoreFromUnfold(b, i, hash);
      WriteFromUnfold(after, b, i, hash);
      var error;
      error, after := StoreBlock(after, b, i, hash);
      if error.Some? {
        assert blocks + [] == blocks;
        return Stored(blocks, error), after;
      }
      assert blocks + ([b.blocks[i]] + StoreFrom(b, i + 1, hash).blocks)
          == blocks + [b.blocks[i]] + StoreFrom(b, i + 1, hash).blocks;
      blocks := blocks + [b.blocks[i]];
    }
    EndOfBundle(after, b, hash);
    assert blocks + [] == blocks;
    return Stored(blocks, None), after;
  }

  lemma StartOfBundle(store: LocalStore, b: Bundle, hash: Meta -> Cid)
    requires LengthsMatch(b)
    ensures StoreFrom(b, 0, hash).(blocks := [] + StoreFrom(b, 0, hash).blocks) == StoreBundle(b, hash)
  {
    hide StoreFrom;
    assert [] + StoreFrom(b, 0, hash).blocks == StoreFrom(b, 0, hash).blocks;
  }

  lemma EndOfBundle(store: LocalStore, b: Bundle, hash: Meta -> Cid)
    requires LengthsMatch(b)
    ensures StoreFrom(b, |b.blocks|, hash) == Stored([], None) && WriteFrom(store, b, |b.blocks|, hash) == store
  {
  }

  lemma WriteFromUnfold(store: LocalStore, b: Bundle, i: nat, hash: Meta -> Cid)
    requires LengthsMatch(b) && i < |b.blocks|
    ensures WriteFrom(store, b, i, hash) ==
            if BlockError(b, i, hash).Some? then WriteBlock(store, b, i, hash)
            else WriteFrom(WriteBlock(store, b, i, hash), b, i + 1, hash)
  {
    hide BlockError, WriteBlock;
  }

  lemma StoreFromUnfold(b: Bundle, i: nat, hash: Meta -> Cid)
    requires LengthsMatch(b) && i < |b.blocks|
    ensures StoreFrom(b, i, hash) ==
            if BlockError(b, i, hash).Some? then Stored([], BlockError(b, i, hash))
            else StoreFrom(b, i + 1, hash).(blocks := [b.blocks[i]] + StoreFrom(b, i + 1, hash).blocks)
  {
  }

  // Writes the header, then the message list, and compares it with what the header says.
  method StoreBlock(store: LocalStore, b: Bundle, i: nat, hash: Meta -> Cid) returns (e: Option<Error>, after: LocalStore)
    requires LengthsMatch(b) && i < |b.blocks|
    ensures e == BlockError(b, i, hash) && after == WriteBlock(store, b, i, hash)
  {
    var h := b.blocks[i];
    after := store.(headers := store.headers[h.cid := h]);
    if b.messages.None? {
      return None, after;
    }
    var m := b.messages.value;
    var secp := CollectIncludes(m.secpIncludes[i], m.secp);
    if secp.None? {
      return Some(InconsistentResponse), after;
    }
    var bls := CollectIncludes(m.blsIncludes[i], m.bls);
    if bls.None? {
      return Some(InconsistentResponse), after;
    }
    var meta := Meta(bls.value, secp.value);
    after := after.(metas := after.metas[hash(meta) := meta]);
    if hash(meta) != h.messages {
      return Some(StoreCidsMismatch), after;
    }
    return None, after;
  }

  // Expands a fresh tipset with the blocks stored.
  method CollectTipset(blocks: seq<Header>) returns (ts: Option<Tipset>)
    ensures ts == match Collect([], blocks) case None => None case Some(bs) => Some(Tipset(bs))
    ensures ts.Some? <==> Compatible(blocks)
    ensures ts.Some? ==> multiset(ts.value.blocks) == multiset(blocks) && InOrder(ts.value.blocks)
  {
    hide Compatible, InOrder, Collected;
    TipsetOfBlocks(blocks);
    var creator := new TipsetCreator();
    for i := 0 to |blocks|
      invariant fresh(creator) && creator.Valid() && HaveTickets(creator.blocks)
      invariant Collect([], blocks) == Collect(creator.blocks, blocks[i..])
    {
      var h := blocks[i];
      assert blocks[i..][0] == h && blocks[i..][1..] == blocks[i + 1..];
      if !CanExpand(creator.blocks, h) {
        return None;
      }
      var ok := creator.ExpandTipset(h);
      if !ok {
        return None;
      }
    }
    var t := creator.GetTipset();
    return Some(t);
  }

  // ---------------------------------------------------------------- the request object

  class Request {
    // The block store that the request reads and writes.
    var store: LocalStore
    var outcome: Outcome
    var waitlist: set<Cid>
    var aborted: bool
    var inProgress: bool
    // What was handed to the caller.
    var answers: seq<Outcome>

    ghost predicate Valid()
      reads this
    {
      answers == if inProgress then [] else [outcome]
    }

    ghost function View(): (p: Progress)
      reads this
    {
      Progress(waitlist, outcome, aborted)
    }

    constructor (store: LocalStore)
      ensures Valid() && inProgress && !aborted && this.store == store
    {
      this.store := store;
      outcome := Outcome([], [], [], None, false, false);
      waitlist := {};
      aborted := false;
      inProgress := true;
      answers := [];
    }

    // The caller hears of the request once, whatever comes after.
    method ScheduleResult()
      requires inProgress ==> answers == []
      modifies this`inProgress, this`answers
      ensures !inProgress
      ensures answers == if old(inProgress) then [outcome] else old(answers)
    {
      if !inProgress {
        return;
      }
      inProgress := false;
      answers := answers + [outcome];
    }

    method Fail(error: Error)
      requires Valid()
      modifies this`outcome, this`inProgress, this`answers
      ensures Valid() && !inProgress
      ensures old(inProgress) ==> outcome == old(outcome).(error := Some(error))
      ensures !old(inProgress) ==> outcome == old(outcome) && answers == old(answers)
    {
      if inProgress {
        outcome := outcome.(error := Some(error));
        ScheduleResult();
      }
    }

    // Sets up a request and returns what to send: the blocks that are missing and the depth within
    // its limits; nothing when there is nothing to ask for.
    method MakeRequest(blocks: seq<Cid>, depth: nat, options: Options)
      returns (request: Option<Blocksync.Request>)
      requires KeyedByCid(store) && Valid() && inProgress && !aborted
      modifies this
      ensures Valid() && !aborted && outcome.requested == blocks && outcome.parents == [] && store == old(store)
      ensures outcome.messagesStored == options.messages && outcome.messagesOnly == (options == Options(false, true))
      // an answer at once exactly when nothing is missing or a header is
      ensures request.None? <==> !inProgress
      ensures request.None? && outcome.error.None? <==> forall cid | cid in blocks :: Found(store, cid, options.messages)
      ensures outcome.error.Some? <==>
                outcome.messagesOnly && exists cid :: cid in blocks && cid !in store.headers
      // what is asked for is what is missing
      ensures request.Some? ==> request.value.blockCids == Missing(store, blocks, options.messages)
      ensures request.Some? ==>
                && (forall cid :: cid in request.value.blockCids <==>
                      cid in blocks && !Found(store, cid, options.messages))
                && waitlist == (set cid | cid in request.value.blockCids)
                && request.value.depth == (if depth == 0 then 1 else if depth > 900 then 900 else depth)
                && request.value.options == options
      // what is at hand; a header that is missing leaves the ones loaded before it
      ensures request.None? ==>
                outcome.available == if outcome.error.None? then AtHand(store, blocks, options.messages)
                                     else Loaded(store, Missing(store, blocks, options.messages))
      ensures request.Some? && !outcome.messagesOnly ==>
                Accounted(View()) && outcome.available == AtHand(store, blocks, options.messages)
      ensures request.Some? && outcome.messagesOnly ==>
                && Cids(outcome.available) == request.value.blockCids
                && forall h | h in outcome.available :: h.cid in store.headers && h == store.headers[h.cid]
    {
      hide Found, Cids, Missing, AtHand, Loaded;
      outcome := Outcome(blocks, [], [], None, options.messages, options == Options(false, true));
      var reduced, available := TryReduceRequest(store, blocks, options.messages);
      SplitIsExact(store, blocks, options.messages);
      outcome := outcome.(available := available);
      if reduced == [] {
        assert forall cid | cid in blocks :: cid !in reduced;
        assert outcome.messagesOnly ==> forall cid | cid in blocks :: cid in store.headers by {
          AllFoundHaveHeaders(store, blocks, options.messages);
        }
        ScheduleResult();
        return None;
      }
      assert reduced[0] in reduced;
      if outcome.messagesOnly {
        outcome := outcome.(available := []);
        var loaded, headers := LoadHeaders(store, reduced);
        MissingAreReduced(store, blocks, reduced, options.messages);
        outcome := outcome.(available := headers);
        if !loaded {
          outcome := outcome.(error := Some(BlockMissing));
          ScheduleResult();
          return None;
        }
      }
      waitlist := set cid | cid in reduced;
      var d := if depth == 0 then 1 else if depth > MAX_DEPTH then MAX_DEPTH else depth;
      request := Some(Blocksync.Request(reduced, d, options));
    }

    // Stores a response.
    method StoreChain(chain: seq<Bundle>, hash: Meta -> Cid)
      requires chain != [] && inProgress
      modifies this`outcome, this`waitlist, this`aborted, this`store
      ensures View() == BlocksyncRequest.StoreChain(old(View()), chain, hash)
      ensures store == WriteChain(old(store), old(View()), chain, hash)
    {
      hide FirstArrival, FirstBundle, FirstError, LinkParents, WriteBundle, WriteParents;
      var expected := StoreFirst(chain, hash);
      if |chain| == 1 || expected.None? {
        return;
      }
      StoreParents(expected.value, chain[1..], hash);
    }

    // Stores the first bundle, with the blocks of the request itself where only messages were asked for.
    method StoreFirst(chain: seq<Bundle>, hash: Meta -> Cid) returns (expected: Option<KeyHash>)
      requires chain != []
      modifies this`outcome, this`waitlist, this`store
      ensures var p := old(View());
              && Arrival(waitlist, outcome.available, expected) == FirstArrival(p, chain, hash)
              && outcome == old(outcome).(available := outcome.available, error := FirstError(p, chain, hash))
              && store == WriteBundle(old(store), FirstBundle(p, chain), hash)
    {
      hide StoreBundle, Arrive, WriteBundle;
      var first := chain[0];
      if outcome.messagesOnly {
        first := first.(blocks := outcome.available);
        outcome := outcome.(available := []);
      }
      var stored;
      stored, store := StoreTipsetBundle(store, first, hash);
      expected := TakeBlocks(stored.blocks, |chain| > 1);
      if stored.error.Some? {
        outcome := outcome.(error := stored.error);
      } else if waitlist != {} {
        outcome := outcome.(error := Some(IncompleteResponse));
      }
    }

    // Crosses the blocks off the waiting list and keeps them.
    method TakeBlocks(blocks: seq<Header>, more: bool) returns (expected: Option<KeyHash>)
      modifies this`outcome, this`waitlist
      ensures Arrival(waitlist, outcome.available, expected) ==
              Arrive(Arrival(old(waitlist), old(outcome.available), None), blocks, more)
      ensures outcome == old(outcome).(available := outcome.available)
    {
      hide HashOf;
      expected := None;
      ghost var end := Arrive(Arrival(waitlist, outcome.available, None), blocks, more);
      for i := 0 to |blocks|
        invariant Arrive(Arrival(waitlist, outcome.available, expected), blocks[i..], more) == end
        invariant outcome == old(outcome).(available := outcome.available)
      {
        var h := blocks[i];
        assert blocks[i..][0] == h && blocks[i..][1..] == blocks[i + 1..];
        if h.cid in waitlist {
          waitlist := waitlist - {h.cid};
          if more && expected.None? {
            expected := Some(HashOf(h.parents));
          }
          outcome := outcome.(available := outcome.available + [h]);
        }
      }
    }

    // Stores the parents as long as each is the one its child names.
    method StoreParents(start: KeyHash, bundles: seq<Bundle>, hash: Meta -> Cid)
      modifies this`outcome, this`aborted, this`store
      ensures store == WriteParents(old(store), start, bundles, hash)
      ensures var up := LinkParents(start, bundles, hash);
              && outcome == old(outcome).(parents := old(outcome.parents) + up.tipsets,
                                          error := if up.error.Some? then up.error else old(outcome.error))
              && aborted == (old(aborted) || up.aborted)
    {
      hide StoreBundle, Collect, KeyOf, ParentsOf, LinkParents, WriteBundle, WriteParents;
      var expected := start;
      ghost var end := LinkParents(start, bundles, hash);
      ghost var done: seq<Tipset> := [];
      var i := 0;
      while i < |bundles|
        invariant 0 <= i <= |bundles|
        invariant end == WithFirst(done, LinkParents(expected, bundles[i..], hash))
        invariant outcome == old(outcome).(parents := old(outcome.parents) + done) && aborted == old(aborted)
        invariant WriteParents(old(store), start, bundles, hash) == WriteParents(store, expected, bundles[i..], hash)
        decreases |bundles| - i
      {
        LinkUnfold(expected, bundles, i, hash);
        WriteUnfold(store, expected, bundles, i, hash);
        var stored;
        stored, store := StoreTipsetBundle(store, bundles[i], hash);
        var ts := CollectTipset(stored.blocks);
        if ts.None? {
          outcome := outcome.(error := Some(InconsistentResponse));
          return;
        }
        if stored.error.Some? {
          return;
        }
        if KeyOf(ts.value) != expected {
          outcome := outcome.(error := Some(InconsistentResponse));
          return;
        }
        if ts.value.blocks == [] {
          aborted := true;
          return;
        }
        expected := ParentsOf(ts.value);
        WithFirstAppend(done, ts.value, LinkParents(expected, bundles[i + 1..], hash));
        done := done + [ts.value];
        outcome := outcome.(parents := outcome.parents + [ts.value]);
        i := i + 1;
      }
      NothingToLink(store, expected, hash);
      assert bundles[i..] == [];
    }

    // A response, or the failure to read one.
    method OnResponseRead(response: Result<seq<Bundle>, Error>, hash: Meta -> Cid)
      requires Valid()
      modifies this
      ensures Valid() && !inProgress
      ensures !old(inProgress) ==> View() == old(View()) && answers == old(answers)
      ensures old(inProgress) ==>
                View() ==
                  if response.Err? then old(View()).(outcome := old(outcome).(error := Some(response.error)))
                  else if response.value == [] then
                    old(View()).(outcome := old(outcome).(error := Some(IncompleteResponse)))
                  else BlocksyncRequest.StoreChain(old(View()), response.value, hash)
      ensures store == if old(inProgress) && response.Ok? && response.value != []
                       then WriteChain(old(store), old(View()), response.value, hash) else old(store)
    {
      hide BlocksyncRequest.StoreChain, WriteChain;
      if !inProgress {
        return;
      }
      if response.Err? {
        outcome := outcome.(error := Some(response.error));
      } else if response.value == [] {
        outcome := outcome.(error := Some(IncompleteResponse));
      } else {
        StoreChain(response.value, hash);
      }
      ScheduleResult();
    }
  }

  // ---------------------------------------------------------------- helpers of the object

  lemma AllFoundHaveHeaders(store: LocalStore, blocks: seq<Cid>, requireMeta: bool)
    requires forall cid | cid in blocks :: Found(store, cid, requireMeta)
    ensures forall cid | cid in blocks :: cid in store.headers
  {
  }

  lemma MissingAreReduced(store: LocalStore, blocks: seq<Cid>, reduced: seq<Cid>, requireMeta: bool)
    requires forall cid :: cid in reduced <==> cid in blocks && !Found(store, cid, requireMeta)
    ensures (exists cid :: cid in reduced && cid !in store.headers) <==>
            (exists cid :: cid in blocks && cid !in store.headers)
  {
  }

  // The headers of the blocks, up to the first one that is not there.
  function Loaded(store: LocalStore, cids: seq<Cid>): (headers: seq<Header>)
    ensures |headers| <= |cids|
    ensures forall i | 0 <= i < |headers| :: cids[i] in store.headers && headers[i] == store.headers[cids[i]]
    ensures |headers| < |cids| ==> cids[|headers|] !in store.headers
  {
    if cids == [] || cids[0] !in store.headers then [] else [store.headers[cids[0]]] + Loaded(store, cids[1..])
  }

  method LoadHeaders(store: LocalStore, cids: seq<Cid>) returns (ok: bool, headers: seq<Header>)
    requires KeyedByCid(store)
    ensures headers == Loaded(store, cids)
    ensures ok <==> forall cid | cid in cids :: cid in store.headers
    ensures ok ==> Cids(headers) == cids
    ensures forall h | h in headers :: h.cid in store.headers && h == store.headers[h.cid]
  {
    headers := [];
    for i := 0 to |cids|
      invariant |headers| == i
      invariant forall k | 0 <= k < i :: cids[k] in store.headers && headers[k] == store.headers[cids[k]]
    {
      if cids[i] !in store.headers {
        assert cids[i] in cids;
        LoadedIsUnique(store, cids, headers);
        return false, headers;
      }
      headers := headers + [store.headers[cids[i]]];
    }
    LoadedIsUnique(store, cids, headers);
    assert Cids(headers) == cids;
    return true, headers;
  }

  lemma {:induction false} LoadedIsUnique(store: LocalStore, cids: seq<Cid>, headers: seq<Header>)
    requires |headers| <= |cids| && (|headers| < |cids| ==> cids[|headers|] !in store.headers)
    requires forall i | 0 <= i < |headers| :: cids[i] in store.headers && headers[i] == store.headers[cids[i]]
    ensures headers == Loaded(store, cids)
    decreases |cids|
  {
    if headers != [] {
      LoadedIsUnique(store, cids[1..], headers[1..]);
      assert headers == [headers[0]] + headers[1..];
    }
  }

  ghost function WithFirst(done: seq<Tipset>, rest: Ancestry): (r: Ancestry) {
    rest.(tipsets := done + rest.tipsets)
  }

  lemma WithFirstAppend(done: seq<Tipset>, ts: Tipset, rest: Ancestry)
    ensures WithFirst(done, rest.(tipsets := [ts] + rest.tipsets)) == WithFirst(done + [ts], rest)
  {
    assert done + ([ts] + rest.tipsets) == done + [ts] + rest.tipsets;
  }

  lemma NothingToLink(store: LocalStore, expected: KeyHash, hash: Meta -> Cid)
    ensures LinkParents(expected, [], hash) == Ancestry([], None, false) && WriteParents(store, expected, [], hash) == store
  {
  }

  lemma WriteUnfold(store: LocalStore, expected: KeyHash, bundles: seq<Bundle>, i: nat, hash: Meta -> Cid)
    requires i < |bundles|
    ensures var stored := StoreBundle(bundles[i], hash);
            var found := Collect([], stored.blocks);
            var next := WriteBundle(store, bundles[i], hash);
            WriteParents(store, expected, bundles[i..], hash) ==
              if found.None? || stored.error.Some? || KeyOf(Tipset(found.value)) != expected || found.value == [] then next
              else WriteParents(next, ParentsOf(Tipset(found.value)), bundles[i + 1..], hash)
  {
    hide StoreBundle, Collect, KeyOf, WriteBundle;
    assert bundles[i..][0] == bundles[i] && bundles[i..][1..] == bundles[i + 1..];
  }

  lemma LinkUnfold(expected: KeyHash, bundles: seq<Bundle>, i: nat, hash: Meta -> Cid)
    requires i < |bundles|
    ensures var stored := StoreBundle(bundles[i], hash);
            var found := Collect([], stored.blocks);
            LinkParents(expected, bundles[i..], hash) ==
              if found.None? then Ancestry([], Some(InconsistentResponse), false)
              else if stored.error.Some? then Ancestry([], None, false)
              else if KeyOf(Tipset(found.value)) != expected then Ancestry([], Some(InconsistentResponse), false)
              else if found.value == [] then Ancestry([], None, true)
              else
                var rest := LinkParents(ParentsOf(Tipset(found.value)), bundles[i + 1..], hash);
                rest.(tipsets := [Tipset(found.value)] + rest.tipsets)
  {
    hide StoreBundle, Collect, KeyOf;
    assert bundles[i..][0] == bundles[i] && bundles[i..][1..] == bundles[i + 1..];
  }

  // ---------------------------------------------------------------- client and server together

  lemma {:induction false} MissingHasNoDuplicates(store: LocalStore, blocks: seq<Cid>, requireMeta: bool)
    requires NoDuplicates(blocks)
    ensures NoDuplicates(Missing(store, blocks, requireMeta))
    ensures forall cid | cid in Missing(store, blocks, requireMeta) :: cid in blocks
    decreases |blocks|
  {
    hide Found;
    if blocks != [] {
      var n := |blocks| - 1;
      MissingHasNoDuplicates(store, blocks[..n], requireMeta);
      assert blocks[n] !in blocks[..n];
    }
  }

  // The depth that reaches the server, within the limits of both sides.
  function SentDepth(depth: nat): (d: nat) {
    if depth == 0 then 1 else if depth > 800 then 800 else depth
  }

  // What the client ends with, given the walk that the server has for what was missing.
  ghost predicate Exchanged(store: LocalStore, blocks: seq<Cid>, options: Options, walk: seq<Tipset>, o: Outcome) {
    var missing, atHand := Missing(store, blocks, options.messages), AtHand(store, blocks, options.messages);
    && o.requested == blocks
    && (missing == [] ==> o.error.None? && o.available == atHand && o.parents == [])
    && (missing != [] && walk == [] ==> o.error == Some(IncompleteResponse) && o.available == atHand && o.parents == [])
    && (missing != [] && walk != [] ==>
          o.error.None? && o.available == atHand + walk[0].blocks && o.parents == walk[1..] && AllAvailable(o))
  }

  // Theorem (the objects): the client asks for what is missing, the server answers, and the client
  // reads the answer. The caller hears once, and gets the headers at hand with the tipset of the
  // missing blocks and exactly its ancestors as far as the server has them; or that the response
  // is incomplete when the server does not have the tipset.
  method Exchange(client: Request, server: Store, blocks: seq<Cid>, depth: nat, options: Options, hash: Meta -> Cid)
    requires client.Valid() && client.inProgress && !client.aborted && KeyedByCid(client.store)
    requires ValidTipsetStore(server) && ContentAddressed(server.metas, hash)
    requires options.blocks && NoDuplicates(blocks)
    modifies client
    ensures client.answers == [client.outcome] && !client.aborted
    ensures var missing := Missing(old(client.store), blocks, options.messages);
            var walk := Walk(server, HashOf(missing), SentDepth(depth), options);
            Exchanged(old(client.store), blocks, options, walk, client.outcome)
  {
    hide Missing, AtHand, Walk, ValidTipset, ContentAddressed, RepresentsAll, KeyOf, HashOf, Found,
         BlocksyncRequest.StoreChain, WriteChain, NoDuplicates, Accounted, AllAvailable;
    ghost var store := client.store;
    var request := client.MakeRequest(blocks, depth, options);
    SplitIsExact(store, blocks, options.messages);
    if request.None? {
      assert Missing(store, blocks, options.messages) == [] by { NothingMissing(store, blocks, options.messages); }
      return;
    }
    assert request.value.blockCids != [] by { SomethingMissing(store, blocks, options.messages); }
    ghost var p := client.View();
    var chain, _ := GetChain(server, request.value);
    client.OnResponseRead(Ok(chain), hash);
    ghost var walk := Walk(server, HashOf(request.value.blockCids), SentDepth(depth), options);
    SameLength(chain, walk, options, server.metas);
    if chain != [] {
      MissingHasNoDuplicates(store, blocks, options.messages);
      ExchangeDelivers(p, chain, server, request.value, hash);
    }
  }

  lemma {:induction false} NothingMissing(store: LocalStore, blocks: seq<Cid>, requireMeta: bool)
    requires forall cid | cid in blocks :: Found(store, cid, requireMeta)
    ensures Missing(store, blocks, requireMeta) == []
    decreases |blocks|
  {
    hide Found;
    if blocks != [] {
      NothingMissing(store, blocks[..|blocks| - 1], requireMeta);
    }
  }

  lemma SomethingMissing(store: LocalStore, blocks: seq<Cid>, requireMeta: bool)
    requires KeyedByCid(store) && !forall cid | cid in blocks :: Found(store, cid, requireMeta)
    ensures Missing(store, blocks, requireMeta) != []
  {
    hide Missing, Found;
    SplitIsExact(store, blocks, requireMeta);
    var cid :| cid in blocks && !Found(store, cid, requireMeta);
    assert cid in Missing(store, blocks, requireMeta);
  }

  lemma SameLength(chain: seq<Bundle>, walk: seq<Tipset>, options: Options, metas: map<Cid, Meta>)
    requires RepresentsAll(chain, walk, options, metas)
    ensures |chain| == |walk|
  {
  }

  // What the response adds to a request that waits for exactly the blocks of a tipset.
  lemma ExchangeDelivers(p: Progress, chain: seq<Bundle>, server: Store, request: Blocksync.Request, hash: Meta -> Cid)
    requires ValidTipsetStore(server) && ContentAddressed(server.metas, hash)
    requires request.options.blocks && NoDuplicates(request.blockCids)
    requires var walk := Walk(server, HashOf(request.blockCids), Depth(request), request.options);
             walk != [] && RepresentsAll(chain, walk, request.options, server.metas)
    requires p.waitlist == (set cid | cid in request.blockCids) && Accounted(p)
    requires !p.outcome.messagesOnly && p.outcome.error.None? && p.outcome.parents == [] && !p.aborted
    ensures var walk := Walk(server, HashOf(request.blockCids), Depth(request), request.options);
            var r := BlocksyncRequest.StoreChain(p, chain, hash);
            && !r.aborted && AllAvailable(r.outcome)
            && r.outcome == p.outcome.(available := p.outcome.available + walk[0].blocks, parents := walk[1..])
  {
    hide Walk, BlocksyncRequest.StoreChain, ValidTipset, ContentAddressed, RepresentsAll, KeyOf, HashOf, NoDuplicates,
         Accounted, AllAvailable;
    var key := HashOf(request.blockCids);
    WalkStartsAtKey(server, key, Depth(request), request.options);
    var walk := Walk(server, key, Depth(request), request.options);
    SameLength(chain, walk, request.options, server.metas);
    TipsetOfRequest(walk[0], request.blockCids);
    HonestExchange(p, chain, server, key, Depth(request), request.options, hash);
    NoErrorIsComplete(p, chain, hash);
  }
}
