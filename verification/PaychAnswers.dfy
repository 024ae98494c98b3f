// What callbacks of the payment channel maker are told, over whole runs, and which requests are
// never answered.
module PaychAnswers {
  import opened Base
  import opened PaychMaker
  import opened PaychRuns

  // ---------------------------------------------------------------- what was confirmed

  // The event tells that the message waited for was executed, and the channel has an actor.
  predicate Succeeds(w: World, e: Event)
    requires Enabled(w, e) && AssertsHold(w, e)
  {
    e.WaitEvent? && e.waited.Executed? && (w.chan.queue.value.row.actor.Some? || e.waited.result.Some?)
  }

  // The messages that an event confirms, of this pair or of another.
  function Announced(w: World, e: Event): (cids: set<Cid>)
    requires Enabled(w, e) && AssertsHold(w, e)
  {
    if Succeeds(w, e) then {w.chan.calls[e.i].cid}
    else if e.OtherPairConfirmed? then {e.cid}
    else {}
  }

  // The messages that the events of a run confirm.
  ghost function Confirmations(w: World, es: seq<Event>): (cids: set<Cid>)
    requires Run(w, es).Reached?
    decreases |es|
  {
    if es == [] then {} else Announced(w, es[0]) + Confirmations(Step(w, es[0]), es[1..])
  }

  // ---------------------------------------------------------------- answers are true

  // A callback told of a channel was told the actor that is stored, and a message that is confirmed.
  ghost predicate TrueAnswer(a: Answer, stored: Option<Row>, cids: set<Cid>) {
    a.info.Some? ==>
      && a.info.value.cid in cids
      && stored.Some? && stored.value.actor == Some(a.info.value.actor)
  }

  ghost predicate Truthful(w: World, cids: set<Cid>) {
    && (forall n | 0 <= n < |w.chan.log| :: TrueAnswer(w.chan.log[n], w.chan.stored, cids))
    && (w.unusedCid.Some? ==> w.unusedCid.value in cids)
  }

  // More answers of one kind, over a row with the same actor.
  lemma MoreAnswers(log: seq<Answer>, before: Option<Row>, after: Option<Row>, cids: set<Cid>, more: set<Cid>,
                    rs: seq<Request>, info: Option<Info>)
    requires forall n | 0 <= n < |log| :: TrueAnswer(log[n], before, cids)
    requires cids <= more && (before.Some? && before.value.actor.Some? ==> after.Some? && after.value.actor == before.value.actor)
    requires info.Some? ==> info.value.cid in more && after.Some? && after.value.actor == Some(info.value.actor)
    ensures var all := log + Answers(rs, info); forall n | 0 <= n < |all| :: TrueAnswer(all[n], after, more)
  {
    var all := log + Answers(rs, info);
    forall n | 0 <= n < |all|
      ensures TrueAnswer(all[n], after, more)
    {
      if n < |log| {
        assert TrueAnswer(log[n], before, cids);
      }
    }
  }

  lemma NextIsTruthful(w: World, cids: set<Cid>)
    requires ChannelInv(w) && Truthful(w, cids) && NextAsserts(w.chan, w.unusedCid)
    ensures Truthful(w.(chan := Next(w.chan, w.unusedCid)), cids)
  {
    var c := w.chan;
    var q, r := c.queue.value, Next(c, w.unusedCid);
    if !NextIsIdle(q) && q.row.unused >= q.pendingAmount {
      MoreAnswers(c.log, c.stored, r.stored, cids, cids, q.pending, Some(Info(q.row.actor.value, w.unusedCid.value)));
    } else {
      MoreAnswers(c.log, c.stored, r.stored, cids, cids, [], None);
      assert c.log + Answers([], None) == c.log;
    }
  }

  lemma OnErrorIsTruthful(w: World, before: Option<Row>, cids: set<Cid>)
    requires w.chan.queue.Some? && Truthful(w.(chan := w.chan.(stored := before)), cids)
    requires before.Some? && before.value.actor.Some? ==>
               w.chan.stored.Some? && w.chan.stored.value.actor == before.value.actor
    ensures Truthful(w.(chan := OnError(w.chan)), cids)
  {
    var c, q := w.chan, w.chan.queue.value;
    MoreAnswers(c.log, before, c.stored, cids, cids, q.waiting, None);
    MoreAnswers(c.log + Answers(q.waiting, None), c.stored, c.stored, cids, cids, q.pending, None);
  }

  lemma WaitIsTruthful(w: World, i: nat, r: WaitResult, cids: set<Cid>)
    requires ChannelInv(w) && Balanced(w) && Truthful(w, cids)
    requires Enabled(w, WaitEvent(i, r)) && AssertsHold(w, WaitEvent(i, r))
    ensures Truthful(Step(w, WaitEvent(i, r)), cids + Announced(w, WaitEvent(i, r)))
  {
    hide Answers, Balanced, Next, MakeAsserts, Total;
    var c, q, cid := w.chan, w.chan.queue.value, w.chan.calls[i].cid;
    var rest := c.(calls := Without(c.calls, i));
    assert rest.calls == [] && c.calls == [WaitCall(cid)];
    if Confirms(c, r) {
      var actor := NewActor(q, r.result).value;
      var d := Confirm(rest, actor);
      var more := cids + {cid};
      MoreAnswers(c.log, c.stored, d.stored, cids, more, q.waiting, Some(Info(actor, cid)));
      var next := w.(chan := d, unusedCid := Some(cid));
      ConfirmKeeps(w, cid, actor);
      NextIsTruthful(next, more);
    } else if r.ExitFailed? {
      var row := q.row.(waitingAmount := None, waitingCid := None);
      OnErrorIsTruthful(w.(chan := rest.(queue := Some(q.(row := row)), stored := Some(row))), c.stored, cids);
    } else {
      OnErrorIsTruthful(w.(chan := rest), c.stored, cids);
    }
  }

  lemma MakeIsTruthful(w: World, r: Request, cids: set<Cid>)
    requires ChannelInv(w) && Truthful(w, cids) && r.amount >= 0
    requires MakeAsserts(w.chan, w.unusedCid, r)
    ensures Truthful(w.(chan := Make(w.chan, w.unusedCid, r)), cids)
  {
    hide Answers, Next;
    var c := w.chan;
    var loaded := c.(queue := Some(Enqueue(c, r)));
    if !(c.queue.None? && (c.stored.None? || loaded.queue.value.row.waitingCid.Some?)) {
      LoadedNext(w, r, cids);
    }
  }

  // Serving a request that was just queued.
  lemma LoadedNext(w: World, r: Request, cids: set<Cid>)
    requires ChannelInv(w) && Truthful(w, cids) && r.amount >= 0
    requires var loaded := w.chan.(queue := Some(Enqueue(w.chan, r)));
             NextAsserts(loaded, w.unusedCid) && (w.chan.queue.Some? || w.chan.stored.Some?)
    ensures var loaded := w.chan.(queue := Some(Enqueue(w.chan, r)));
            Truthful(w.(chan := Next(loaded, w.unusedCid)), cids)
  {
    var c := w.chan;
    var loaded := c.(queue := Some(Enqueue(c, r)));
    var q, s := loaded.queue.value, Next(loaded, w.unusedCid);
    if !NextIsIdle(q) && q.row.unused >= q.pendingAmount {
      MoreAnswers(c.log, c.stored, s.stored, cids, cids, q.pending, Some(Info(q.row.actor.value, w.unusedCid.value)));
    } else {
      MoreAnswers(c.log, c.stored, s.stored, cids, cids, [], None);
      assert c.log + Answers([], None) == c.log;
    }
  }

  lemma StepIsTruthful(w: World, e: Event, cids: set<Cid>)
    requires ChannelInv(w) && Balanced(w) && Truthful(w, cids) && Enabled(w, e) && AssertsHold(w, e)
    ensures Truthful(Step(w, e), cids + Announced(w, e))
  {
    hide ChannelInv, Balanced;
    match e
    case MakeEvent(r) =>
      hide Make, MakeAsserts;
      MakeIsTruthful(w, r, cids);
      assert cids + {} == cids;
    case WaitEvent(i, r) =>
      WaitIsTruthful(w, i, r, cids);
    case NetworkEvent(i, ok) =>
      NetworkIsTruthful(w, i, ok, cids);
      assert cids + {} == cids;
    case PushEvent(i, p) =>
      PushIsTruthful(w, i, p, cids);
      assert cids + {} == cids;
    case RestartEvent =>
      assert cids + {} == cids;
    case OtherPairConfirmed(cid) =>
      MoreAnswers(w.chan.log, w.chan.stored, w.chan.stored, cids, cids + {cid}, [], None);
      assert w.chan.log + Answers([], None) == w.chan.log;
  }

  lemma NetworkIsTruthful(w: World, i: nat, ok: bool, cids: set<Cid>)
    requires Truthful(w, cids) && Enabled(w, NetworkEvent(i, ok)) && AssertsHold(w, NetworkEvent(i, ok))
    ensures Truthful(Step(w, NetworkEvent(i, ok)), cids)
  {
    if !ok {
      OnErrorIsTruthful(w.(chan := w.chan.(calls := Without(w.chan.calls, i))), w.chan.stored, cids);
    }
  }

  lemma PushIsTruthful(w: World, i: nat, p: PushResult, cids: set<Cid>)
    requires ChannelInv(w) && Truthful(w, cids) && Enabled(w, PushEvent(i, p)) && AssertsHold(w, PushEvent(i, p))
    ensures Truthful(Step(w, PushEvent(i, p)), cids)
  {
    var c, q := w.chan, w.chan.queue.value;
    if p.PushError? {
      var row := q.row.(waitingAmount := None);
      OnErrorIsTruthful(w.(chan := c.(calls := Without(c.calls, i), queue := Some(q.(row := row)), stored := Some(row))),
                        c.stored, cids);
    } else {
      MoreAnswers(c.log, c.stored, Some(q.row.(waitingCid := Some(p.cid))), cids, cids, [], None);
      assert c.log + Answers([], None) == c.log;
    }
  }

  // Theorem (what callbacks are told): over every run, every callback that was told of a channel was
  // told the actor that is stored for the pair, and a message that has been confirmed.
  lemma {:induction false} RunsAreTruthful(w: World, es: seq<Event>, cids: set<Cid>)
    requires ChannelInv(w) && Balanced(w) && Truthful(w, cids) && Run(w, es).Reached?
    ensures Truthful(Run(w, es).w, cids + Confirmations(w, es))
    decreases |es|
  {
    hide ChannelInv, Balanced, Truthful, Step, Enabled, AssertsHold, Announced;
    if es == [] {
      assert cids + {} == cids;
    } else {
      StepKeeps(w, es[0]);
      StepIsTruthful(w, es[0], cids);
      var more := cids + Announced(w, es[0]);
      RunsAreTruthful(Step(w, es[0]), es[1..], more);
      assert more + Confirmations(Step(w, es[0]), es[1..]) == cids + Confirmations(w, es);
    }
  }

  lemma AnswersAreTrue(es: seq<Event>, n: nat)
    requires Run(INITIAL, es).Reached? && n < |Run(INITIAL, es).w.chan.log|
    ensures var w := Run(INITIAL, es).w;
            w.chan.log[n].info.Some? ==>
              && w.chan.log[n].info.value.cid in Confirmations(INITIAL, es)
              && w.chan.stored.Some? && w.chan.stored.value.actor == Some(w.chan.log[n].info.value.actor)
  {
    hide Run, ChannelInv, Balanced, OnceInv, Confirmations;
    InitialIsSafe();
    RunsAreTruthful(INITIAL, es, {});
    var cids := Confirmations(INITIAL, es);
    assert {} + cids == cids;
    assert TrueAnswer(Run(INITIAL, es).w.chan.log[n], Run(INITIAL, es).w.chan.stored, cids);
  }

  // ---------------------------------------------------------------- what one answer does

  // Theorem: when the message waited for was executed, its callbacks are told the actor and that
  // message. What it brought and no callback waits for is left over. If that covers what is pending,
  // those callbacks are told the same; otherwise the difference is sent for with another message.
  lemma ConfirmedTells(w: World, i: nat, r: WaitResult)
    requires ChannelInv(w) && Enabled(w, WaitEvent(i, r)) && AssertsHold(w, WaitEvent(i, r))
    requires Succeeds(w, WaitEvent(i, r))
    ensures var c, q, cid := w.chan, w.chan.queue.value, w.chan.calls[i].cid;
            var d := Step(w, WaitEvent(i, r)).chan;
            var actor := if q.row.actor.Some? then q.row.actor else r.result;
            var info := Some(Info(actor.value, cid));
            cid in w.sent &&
            var amount := w.sent[cid] + q.row.unused;
            var left := if q.waiting == [] then q.row.unused + amount else 0;
            var total := q.row.total + amount;
            if q.pending == [] || left >= q.pendingAmount then
              var row := Row(actor, total, left - q.pendingAmount, None, None);
              && d.log == c.log + Answers(q.waiting, info) + Answers(q.pending, info)
              && d.stored == Some(row) && d.queue == Some(Queue(row, [], 0, [])) && d.calls == []
            else
              var row := Row(actor, total, left, None, Some(q.pendingAmount));
              && d.log == c.log + Answers(q.waiting, info)
              && d.stored == Some(row) && d.queue == Some(Queue(row, q.pending, 0, []))
              && d.calls == [PushCall(q.pendingAmount - left)]
  {
    var c, q, cid := w.chan, w.chan.queue.value, w.chan.calls[i].cid;
    assert Without(c.calls, i) == [] && c.calls == [WaitCall(cid)];
    var actor := if q.row.actor.Some? then q.row.actor else r.result;
    if q.pending == [] {
      assert c.log + Answers(q.waiting, Some(Info(actor.value, cid))) + Answers([], Some(Info(actor.value, cid))) ==
             c.log + Answers(q.waiting, Some(Info(actor.value, cid)));
    }
  }

  // The event ends the attempt: the message was not sent, not executed, or gave no actor.
  predicate Fails(w: World, e: Event)
    requires Enabled(w, e) && AssertsHold(w, e)
  {
    match e
    case NetworkEvent(_, ok) => !ok
    case PushEvent(_, p) => p.PushError?
    case WaitEvent(_, _) => !Succeeds(w, e)
    case _ => false
  }

  // Theorem: a failure is told to every callback held, waiting or pending, and to no other; nothing is
  // outstanding after it. A message that was not sent or not executed is forgotten, and one whose
  // outcome is not known is kept to be waited for again; what is unused and the total stay.
  lemma FailureTellsAll(w: World, e: Event)
    requires ChannelInv(w) && Enabled(w, e) && AssertsHold(w, e) && Fails(w, e)
    ensures var c, q, d := w.chan, w.chan.queue.value, Step(w, e).chan;
            && d.log == c.log + Answers(q.waiting, None) + Answers(q.pending, None)
            && d.queue == None && d.calls == []
            && d.stored == (if e.PushEvent? || (e.WaitEvent? && e.waited.ExitFailed?)
                            then Some(Row(q.row.actor, q.row.total, q.row.unused, None, None))
                            else c.stored)
  {
    hide Total;
    assert Without(w.chan.calls, e.i) == [];
  }

  // ---------------------------------------------------------------- requests that are never answered

  // The row as the maker sees it.
  function CurrentRow(c: Channel): (row: Option<Row>) {
    if c.queue.Some? then Some(c.queue.value.row) else c.stored
  }

  // Nothing is outstanding, no message is waited for, and no channel was made or one is being funded.
  predicate Stuck(c: Channel) {
    c.calls == [] && CurrentRow(c).Some? &&
    var row := CurrentRow(c).value;
    row.waitingCid.None? && (row.actor.None? || row.waitingAmount.Some?)
  }

  // A request is held although nothing is outstanding that could lead to an answer.
  ghost predicate Unserved(c: Channel, r: Request) {
    c.calls == [] && c.queue.Some? && (r in c.queue.value.pending || r in c.queue.value.waiting)
  }

  ghost predicate Served(c: Channel) {
    c.calls == [] && c.queue.Some? && c.queue.value.pending != [] ==> Stuck(c)
  }

  // Theorem: a request is left without an answer, and without a call that could bring one, if and only
  // if the maker was stuck when the request came.
  lemma UnservedExactlyWhenStuck(w: World, r: Request)
    requires ChannelInv(w) && Enabled(w, MakeEvent(r)) && AssertsHold(w, MakeEvent(r))
    ensures Unserved(Step(w, MakeEvent(r)).chan, r) <==> Stuck(w.chan)
  {
    hide Total, Answers;
    var c := w.chan;
    var q := Enqueue(c, r);
    assert r in q.pending;
  }

  // Being stuck lasts: whatever happens, no call is made and no callback is answered any more.
  lemma StepKeepsStuck(w: World, e: Event)
    requires ChannelInv(w) && Stuck(w.chan) && Enabled(w, e) && AssertsHold(w, e)
    ensures Stuck(Step(w, e).chan) && Step(w, e).chan.log == w.chan.log
  {
    hide Total, Answers;
  }

  lemma {:induction false} StuckForever(w: World, es: seq<Event>)
    requires ChannelInv(w) && Balanced(w) && Stuck(w.chan) && Run(w, es).Reached?
    ensures Stuck(Run(w, es).w.chan) && Run(w, es).w.chan.log == w.chan.log
    decreases |es|
  {
    hide ChannelInv, Balanced, Stuck, Step, Enabled, AssertsHold;
    if es != [] {
      StepKeeps(w, es[0]);
      StepKeepsStuck(w, es[0]);
      StuckForever(Step(w, es[0]), es[1..]);
    }
  }

  // Theorem: over every run, whoever is held has a call outstanding unless the maker is stuck.
  lemma StepKeepsServed(w: World, e: Event)
    requires ChannelInv(w) && Served(w.chan) && Enabled(w, e) && AssertsHold(w, e)
    ensures Served(Step(w, e).chan)
  {
    hide Total, Answers;
  }

  lemma {:induction false} RunsServe(w: World, es: seq<Event>)
    requires ChannelInv(w) && Balanced(w) && Served(w.chan) && Run(w, es).Reached?
    ensures Served(Run(w, es).w.chan) && ChannelInv(Run(w, es).w)
    decreases |es|
  {
    hide ChannelInv, Balanced, Served, Step, Enabled, AssertsHold;
    if es != [] {
      StepKeeps(w, es[0]);
      StepKeepsServed(w, es[0]);
      RunsServe(Step(w, es[0]), es[1..]);
    }
  }

  lemma EveryRequestIsServedUnlessStuck(es: seq<Event>, r: Request)
    requires Run(INITIAL, es).Reached?
    ensures var c := Run(INITIAL, es).w.chan; Unserved(c, r) ==> Stuck(c)
  {
    hide Run, Balanced, OnceInv, Stuck, Total;
    InitialIsSafe();
    RunsServe(INITIAL, es);
  }

  // How it happens: the message that creates the channel fails, and the next request is never answered.
  lemma StuckAfterFailedCreation()
    ensures var es := [MakeEvent(Request(1, 10)), NetworkEvent(0, true), PushEvent(0, PushError), MakeEvent(Request(2, 5))];
            Run(INITIAL, es).Reached? && Unserved(Run(INITIAL, es).w.chan, Request(2, 5))
  {
    hide Run;
    var e1, e2, e3, e4 := MakeEvent(Request(1, 10)), NetworkEvent(0, true), PushEvent(0, PushError), MakeEvent(Request(2, 5));
    RunNone(INITIAL);
    RunMore([], INITIAL, e1);
    var w1 := Step(INITIAL, e1);
    assert w1.chan.calls == [NetworkCall];
    RunMore([] + [e1], w1, e2);
    var w2 := Step(w1, e2);
    assert w2.chan.calls == [PushCall(10)];
    RunMore([] + [e1] + [e2], w2, e3);
    var w3 := Step(w2, e3);
    assert w3.chan.stored == Some(Row(None, 0, 0, None, None)) && w3.chan.queue == None && w3.chan.calls == [];
    RunMore([] + [e1] + [e2] + [e3], w3, e4);
    assert [] + [e1] + [e2] + [e3] + [e4] == [e1, e2, e3, e4];
    assert Stuck(w3.chan);
    var w4 := Step(w3, e4);
    assert w4.chan.queue.value.pending == [Request(2, 5)];
  }
}
