// All pairs of addresses together: every pair runs its own protocol, the identity of the last
// confirmed message is shared, and a restart hits all of them.
module PaychPairs {
  import opened Base
  import Spec = PaychMaker
  import opened PaychMaker
  import opened PaychRuns
  import opened PaychMakerObject
  import opened PaychAnswers

  datatype PairEvent = On(key: Key, event: Event) | RestartAll

  // The worlds of the pairs met so far; the shared identity is kept once.
  datatype Pairs = Pairs(worlds: map<Key, World>, unusedCid: Option<Cid>)

  const NO_PAIRS := Pairs(map[], None)

  function At(p: Pairs, k: Key): (w: World) {
    (if k in p.worlds then p.worlds[k] else INITIAL).(unusedCid := p.unusedCid)
  }

  // Restarts come to all pairs at once, and the confirmations of other pairs come from them.
  predicate Possible(p: Pairs, e: PairEvent) {
    e.On? ==> !e.event.RestartEvent? && !e.event.OtherPairConfirmed? && Enabled(At(p, e.key), e.event)
  }

  predicate PairAsserts(p: Pairs, e: PairEvent)
    requires Possible(p, e)
  {
    e.On? ==> AssertsHold(At(p, e.key), e.event)
  }

  function StepPairs(p: Pairs, e: PairEvent): (r: Pairs)
    requires Possible(p, e) && PairAsserts(p, e)
  {
    match e
    case On(k, event) =>
      var w := Step(At(p, k), event);
      Pairs(p.worlds[k := w], w.unusedCid)
    case RestartAll =>
      Pairs(map k | k in p.worlds :: Step(At(p, k), RestartEvent), p.unusedCid)
  }

  // ---------------------------------------------------------------- every pair is safe

  ghost predicate WorldInv(w: World) {
    ChannelInv(w) && Balanced(w) && OnceInv(w)
  }

  ghost predicate AllInv(p: Pairs) {
    forall k: Key :: WorldInv(At(p, k))
  }

  lemma WorldStep(w: World, e: Event)
    requires WorldInv(w) && Enabled(w, e)
    ensures AssertsHold(w, e) && WorldInv(Step(w, e))
  {
    hide ChannelInv, Balanced, OnceInv, Step, Enabled, AssertsHold;
    StepKeeps(w, e);
    StepKeepsOnce(w, e);
  }

  // A step on one pair leaves the world of another as it was, or as one that heard of a
  // confirmation.
  lemma OtherWorld(p: Pairs, e: PairEvent, j: Key)
    requires Possible(p, e) && PairAsserts(p, e) && e.On? && j != e.key
    ensures var r := At(StepPairs(p, e), j);
            r == At(p, j) || exists cid :: r == Step(At(p, j), OtherPairConfirmed(cid))
  {
    hide Make, OnNetwork, OnPush, OnWait;
    var w := Step(At(p, e.key), e.event);
    if w.unusedCid != p.unusedCid {
      assert w.unusedCid.Some?;
      assert At(StepPairs(p, e), j) == Step(At(p, j), OtherPairConfirmed(w.unusedCid.value));
    }
  }

  lemma PairsStepKeeps(p: Pairs, e: PairEvent)
    requires AllInv(p) && Possible(p, e)
    ensures PairAsserts(p, e) && AllInv(StepPairs(p, e))
  {
    hide WorldInv, Step, Enabled, AssertsHold;
    if e.On? {
      WorldStep(At(p, e.key), e.event);
    }
    var next := StepPairs(p, e);
    forall j: Key ensures WorldInv(At(next, j)) {
      if e.On? && j != e.key {
        OtherWorldKeeps(p, e, j);
      } else if e.RestartAll? {
        RestartKeeps(p, j);
      } else {
        assert At(next, j) == Step(At(p, j), e.event);
      }
    }
  }

  lemma OtherWorldKeeps(p: Pairs, e: PairEvent, j: Key)
    requires AllInv(p) && Possible(p, e) && PairAsserts(p, e) && e.On? && j != e.key
    ensures WorldInv(At(StepPairs(p, e), j))
  {
    hide WorldInv, Step;
    OtherWorld(p, e, j);
    var r := At(StepPairs(p, e), j);
    if r != At(p, j) {
      var cid :| r == Step(At(p, j), OtherPairConfirmed(cid));
      WorldStep(At(p, j), OtherPairConfirmed(cid));
    }
  }

  lemma RestartKeeps(p: Pairs, j: Key)
    requires AllInv(p)
    ensures WorldInv(At(StepPairs(p, RestartAll), j))
    ensures At(StepPairs(p, RestartAll), j) == Step(At(p, j), RestartEvent)
  {
    hide WorldInv;
    WorldStep(At(p, j), RestartEvent);
  }

  datatype PairsResult = PairsReached(p: Pairs) | NotPossible | PairAssertFailed

  function RunPairs(p: Pairs, es: seq<PairEvent>): (r: PairsResult)
    decreases |es|
  {
    if es == [] then PairsReached(p)
    else if !Possible(p, es[0]) then NotPossible
    else if !PairAsserts(p, es[0]) then PairAssertFailed
    else RunPairs(StepPairs(p, es[0]), es[1..])
  }

  lemma {:induction false} PairsRunKeeps(p: Pairs, es: seq<PairEvent>)
    requires AllInv(p)
    ensures RunPairs(p, es) != PairAssertFailed
    ensures RunPairs(p, es).PairsReached? ==> AllInv(RunPairs(p, es).p)
    decreases |es|
  {
    hide AllInv, StepPairs, Possible, PairAsserts;
    if es != [] && Possible(p, es[0]) {
      PairsStepKeeps(p, es[0]);
      PairsRunKeeps(StepPairs(p, es[0]), es[1..]);
    }
  }

  lemma NoPairsAreSafe()
    ensures AllInv(NO_PAIRS)
  {
    hide ChannelInv, Balanced, OnceInv;
    InitialIsSafe();
    assert forall k: Key :: At(NO_PAIRS, k) == INITIAL;
  }

  // Theorem: in every interleaving of events over all pairs of addresses, no assert fails, and
  // every pair has at most one outstanding call, amounts that add up, callbacks answered at most
  // once, and books that balance up to its own leak.
  lemma EveryInterleavingIsSafe(es: seq<PairEvent>, k: Key)
    ensures RunPairs(NO_PAIRS, es) != PairAssertFailed
    ensures RunPairs(NO_PAIRS, es).PairsReached? ==>
              var w := At(RunPairs(NO_PAIRS, es).p, k);
              SafeState(w.chan) && Unused(w.chan) >= 0 &&
              Acked(w.chan.log) + Unused(w.chan) == w.confirmed + w.leaked
  {
    hide RunPairs, SafeState, OnceInv;
    NoPairsAreSafe();
    PairsRunKeeps(NO_PAIRS, es);
    if RunPairs(NO_PAIRS, es).PairsReached? {
      var w := At(RunPairs(NO_PAIRS, es).p, k);
      assert WorldInv(w);
      InvariantsAreSafe(w);
    }
  }

  // ---------------------------------------------------------------- every pair is told the truth

  // The messages that an event confirms.
  function PairAnnounced(p: Pairs, e: PairEvent): (cids: set<Cid>)
    requires Possible(p, e) && PairAsserts(p, e)
  {
    if e.On? then Announced(At(p, e.key), e.event) else {}
  }

  // The messages, of any pair, that the events of a run confirm.
  ghost function PairConfirmations(p: Pairs, es: seq<PairEvent>): (cids: set<Cid>)
    requires RunPairs(p, es).PairsReached?
    decreases |es|
  {
    if es == [] then {} else PairAnnounced(p, es[0]) + PairConfirmations(StepPairs(p, es[0]), es[1..])
  }

  ghost predicate AllTruthful(p: Pairs, cids: set<Cid>) {
    forall k: Key :: Truthful(At(p, k), cids)
  }

  // What becomes known to all is a message that the event confirms.
  lemma SharedIsAnnounced(p: Pairs, e: PairEvent)
    requires AllInv(p) && Possible(p, e) && PairAsserts(p, e) && e.On?
    ensures var cid := StepPairs(p, e).unusedCid;
            cid == p.unusedCid || (cid.Some? && cid.value in PairAnnounced(p, e))
  {
    hide Make, OnNetwork, OnPush, OnWait, Balanced, OnceInv;
    var w := At(p, e.key);
    assert WorldInv(w);
    if Succeeds(w, e.event) {
      assert w.chan.calls[e.event.i] == WaitCall(w.chan.queue.value.row.waitingCid.value);
    }
  }

  lemma PairsStepTruthful(p: Pairs, e: PairEvent, cids: set<Cid>)
    requires AllInv(p) && AllTruthful(p, cids) && Possible(p, e) && PairAsserts(p, e)
    ensures AllTruthful(StepPairs(p, e), cids + PairAnnounced(p, e))
  {
    hide Step, Enabled, AssertsHold, Truthful, ChannelInv, Balanced, OnceInv;
    var next, more := StepPairs(p, e), cids + PairAnnounced(p, e);
    forall j: Key
      ensures Truthful(At(next, j), more)
    {
      assert WorldInv(At(p, j)) && Truthful(At(p, j), cids);
      if e.On? && j == e.key {
        StepIsTruthful(At(p, j), e.event, cids);
        assert At(next, j) == Step(At(p, j), e.event);
      } else if e.On? {
        SharedIsAnnounced(p, e);
        OtherIsTruthful(At(p, j), At(next, j), cids, more);
      } else {
        RestartKeeps(p, j);
        RestartIsTruthful(At(p, j), cids);
        assert more == cids;
      }
    }
  }

  lemma OtherIsTruthful(w: World, r: World, cids: set<Cid>, more: set<Cid>)
    requires Truthful(w, cids) && cids <= more && r.chan == w.chan
    requires r.unusedCid == w.unusedCid || (r.unusedCid.Some? && r.unusedCid.value in more)
    ensures Truthful(r, more)
  {
    MoreAnswers(w.chan.log, w.chan.stored, w.chan.stored, cids, more, [], None);
    assert w.chan.log + Answers([], None) == w.chan.log;
  }

  lemma RestartIsTruthful(w: World, cids: set<Cid>)
    requires Truthful(w, cids)
    ensures Truthful(Step(w, RestartEvent), cids)
  {
  }

  lemma {:induction false} PairsRunTruthful(p: Pairs, es: seq<PairEvent>, cids: set<Cid>)
    requires AllInv(p) && AllTruthful(p, cids) && RunPairs(p, es).PairsReached?
    ensures AllTruthful(RunPairs(p, es).p, cids + PairConfirmations(p, es))
    decreases |es|
  {
    hide AllInv, AllTruthful, StepPairs, Possible, PairAsserts, PairAnnounced;
    if es == [] {
      assert cids + {} == cids;
    } else {
      PairsStepKeeps(p, es[0]);
      PairsStepTruthful(p, es[0], cids);
      var more := cids + PairAnnounced(p, es[0]);
      PairsRunTruthful(StepPairs(p, es[0]), es[1..], more);
      assert more + PairConfirmations(StepPairs(p, es[0]), es[1..]) == cids + PairConfirmations(p, es);
    }
  }

  // Theorem: in every interleaving of events over all pairs, every callback that was told of a channel
  // was told the actor stored for its own pair, and a message that was confirmed, for whatever pair.
  lemma EveryInterleavingIsTruthful(es: seq<PairEvent>, k: Key, n: nat)
    requires RunPairs(NO_PAIRS, es).PairsReached? && n < |At(RunPairs(NO_PAIRS, es).p, k).chan.log|
    ensures var c := At(RunPairs(NO_PAIRS, es).p, k).chan;
            c.log[n].info.Some? ==>
              && c.log[n].info.value.cid in PairConfirmations(NO_PAIRS, es)
              && c.stored.Some? && c.stored.value.actor == Some(c.log[n].info.value.actor)
  {
    hide RunPairs, AllInv, PairConfirmations;
    NoPairsAreSafe();
    assert forall j: Key :: At(NO_PAIRS, j) == INITIAL;
    assert AllTruthful(NO_PAIRS, {});
    PairsRunTruthful(NO_PAIRS, es, {});
    var cids := PairConfirmations(NO_PAIRS, es);
    assert {} + cids == cids;
    var w := At(RunPairs(NO_PAIRS, es).p, k);
    assert Truthful(w, cids);
    assert TrueAnswer(w.chan.log[n], w.chan.stored, cids);
  }

  // ---------------------------------------------------------------- the object is driven

  // The object holds what the pairs say.
  ghost predicate Holds(m: Maker, p: Pairs)
    reads m
  {
    m.unusedCid == p.unusedCid && forall k: Key :: m.View(k) == At(p, k).chan
  }

  // One event on the object, whatever the pair.
  method Handle(m: Maker, ghost p: Pairs, e: PairEvent)
    requires Holds(m, p) && AllInv(p) && Possible(p, e)
    modifies m
    ensures PairAsserts(p, e) && Holds(m, StepPairs(p, e)) && AllInv(StepPairs(p, e))
  {
    hide AllInv, Make, OnNetwork, OnPush, OnWait, Restart;
    PairsStepKeeps(p, e);
    match e {
      case RestartAll =>
        m.Reload();
        forall k: Key ensures m.View(k) == At(StepPairs(p, e), k).chan {
          RestartKeeps(p, k);
        }
      case On(k, event) =>
        match event {
          case MakeEvent(r) => m.Make(k, r);
          case NetworkEvent(i, ok) => m.OnNetwork(k, i, ok);
          case PushEvent(i, r) => m.OnPush(k, i, r);
          case WaitEvent(i, r) => m.OnWait(k, i, r);
          case RestartEvent =>
          case OtherPairConfirmed(_) =>
        }
    }
  }

  // Theorem: driven by any events that can happen, the object goes through no failing assert and
  // holds, pair by pair, what the specification says.
  method Drive(m: Maker, es: seq<PairEvent>)
    requires Holds(m, NO_PAIRS) && RunPairs(NO_PAIRS, es) != NotPossible
    modifies m
    ensures RunPairs(NO_PAIRS, es).PairsReached? && Holds(m, RunPairs(NO_PAIRS, es).p)
  {
    hide AllInv, StepPairs, Possible, PairAsserts, Holds;
    ghost var p := NO_PAIRS;
    NoPairsAreSafe();
    assert es[0..] == es;
    for n := 0 to |es|
      invariant Holds(m, p) && AllInv(p)
      invariant RunPairs(NO_PAIRS, es) == RunPairs(p, es[n..])
    {
      assert es[n..][0] == es[n] && es[n..][1..] == es[n + 1..];
      Handle(m, p, es[n]);
      p := StepPairs(p, es[n]);
    }
    assert es[|es|..] == [];
  }
}
