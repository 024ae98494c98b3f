// Whole runs of the payment channel maker for one pair of addresses: which asserts hold, who
// is called back, and where the money goes.
module PaychRuns {
  import opened Base
  import opened PaychMaker

  datatype Event =
    | MakeEvent(request: Request)
    | NetworkEvent(i: nat, ok: bool)
    | PushEvent(i: nat, pushed: PushResult)
    | WaitEvent(i: nat, waited: WaitResult)
    | RestartEvent
    | OtherPairConfirmed(cid: Cid)

  // The channel with its history: the value of every message sent, the callback identities
  // seen, the value of the messages confirmed, and the unused funds that were counted again
  // because the callbacks of a confirmed message had been lost.
  datatype World = World(chan: Channel, unusedCid: Option<Cid>, sent: map<Cid, int>, used: set<CbId>,
                         confirmed: int, leaked: int)

  const INITIAL := World(NO_CHANNEL, None, map[], {}, 0, 0)

  // Which events can happen: a call is answered once, a new message has a new identity, and
  // amounts are not negative.
  predicate Enabled(w: World, e: Event) {
    match e
    case MakeEvent(r) => r.id !in w.used && r.amount >= 0
    case NetworkEvent(i, _) => i < |w.chan.calls| && w.chan.calls[i].NetworkCall?
    case PushEvent(i, p) => i < |w.chan.calls| && w.chan.calls[i].PushCall? && (p.Pushed? ==> p.cid !in w.sent)
    case WaitEvent(i, _) => i < |w.chan.calls| && w.chan.calls[i].WaitCall?
    case RestartEvent => true
    case OtherPairConfirmed(_) => true
  }

  // Every assert and every access to an optional value that the handler goes through.
  predicate AssertsHold(w: World, e: Event) {
    match e
    case MakeEvent(r) => MakeAsserts(w.chan, w.unusedCid, r)
    case NetworkEvent(_, ok) => OnNetworkAsserts(w.chan, ok)
    case PushEvent(_, _) => OnPushAsserts(w.chan)
    case WaitEvent(_, r) => OnWaitAsserts(w.chan, r)
    case RestartEvent => true
    case OtherPairConfirmed(_) => true
  }

  function Step(w: World, e: Event): (r: World)
    requires Enabled(w, e) && AssertsHold(w, e)
  {
    match e
    case MakeEvent(r) => w.(chan := Make(w.chan, w.unusedCid, r), used := w.used + {r.id})
    case NetworkEvent(i, ok) => w.(chan := OnNetwork(w.chan, i, ok))
    case PushEvent(i, p) =>
      w.(chan := OnPush(w.chan, i, p),
         sent := if p.Pushed? then w.sent[p.cid := w.chan.calls[i].value] else w.sent)
    case WaitEvent(i, r) =>
      var next, q := w.(chan := OnWait(w.chan, i, r)), w.chan.queue.value;
      if !Confirms(w.chan, r) then next
      else
        var cid := w.chan.calls[i].cid;
        next.(unusedCid := q.row.waitingCid,
              confirmed := w.confirmed + if cid in w.sent then w.sent[cid] else 0,
              leaked := w.leaked + if q.waiting == [] then q.row.unused else 0)
    case RestartEvent => w.(chan := Restart(w.chan))
    case OtherPairConfirmed(cid) => w.(unusedCid := Some(cid))
  }

  datatype RunResult = Reached(w: World) | NotARun | AssertFailed

  // The events one after the other.
  function Run(w: World, es: seq<Event>): (r: RunResult)
    decreases |es|
  {
    if es == [] then Reached(w)
    else if !Enabled(w, es[0]) then NotARun
    else if !AssertsHold(w, es[0]) then AssertFailed
    else Run(Step(w, es[0]), es[1..])
  }

  // ---------------------------------------------------------------- sums and identities

  function Total(rs: seq<Request>): (n: int) {
    if rs == [] then 0 else Total(rs[..|rs| - 1]) + rs[|rs| - 1].amount
  }

  // The amounts acknowledged with success.
  function Acked(log: seq<Answer>): (n: int) {
    if log == [] then 0
    else
      var last := log[|log| - 1];
      Acked(log[..|log| - 1]) + if last.info.Some? then last.request.amount else 0
  }

  lemma {:induction false} AckedAnswers(log: seq<Answer>, rs: seq<Request>, info: Option<Info>)
    ensures Acked(log + Answers(rs, info)) == Acked(log) + if info.Some? then Total(rs) else 0
  {
    if rs == [] {
      assert log + Answers(rs, info) == log;
    } else {
      var front := rs[..|rs| - 1];
      AckedAnswers(log, front, info);
      var all := log + Answers(rs, info);
      assert all[..|all| - 1] == log + Answers(front, info);
    }
  }

  lemma {:induction false} TotalIsNonNegative(rs: seq<Request>)
    requires forall r | r in rs :: r.amount >= 0
    ensures Total(rs) >= 0
  {
    if rs != [] {
      TotalIsNonNegative(rs[..|rs| - 1]);
    }
  }

  lemma TotalPush(rs: seq<Request>, r: Request)
    ensures Total(rs + [r]) == Total(rs) + r.amount
  {
    assert (rs + [r])[..|rs|] == rs;
  }

  function Ids(rs: seq<Request>): (ids: seq<CbId>)
    ensures |ids| == |rs| && forall i | 0 <= i < |rs| :: ids[i] == rs[i].id
  {
    seq(|rs|, i requires 0 <= i < |rs| => rs[i].id)
  }

  function AnsweredIds(log: seq<Answer>): (ids: seq<CbId>)
    ensures |ids| == |log| && forall i | 0 <= i < |log| :: ids[i] == log[i].request.id
  {
    seq(|log|, i requires 0 <= i < |log| => log[i].request.id)
  }

  // All callbacks that were answered or still may be.
  function LiveIds(c: Channel): (ids: seq<CbId>) {
    AnsweredIds(c.log) + if c.queue.None? then [] else Ids(c.queue.value.waiting) + Ids(c.queue.value.pending)
  }

  ghost predicate Distinct(ids: seq<CbId>) {
    forall i, j | 0 <= i < j < |ids| :: ids[i] != ids[j]
  }

  // ---------------------------------------------------------------- invariants

  ghost predicate NonNegative(q: Queue) {
    (forall r | r in q.waiting :: r.amount >= 0) && (forall r | r in q.pending :: r.amount >= 0)
  }

  // The value that the message being waited for was sent with.
  function MessageValue(row: Row): (n: int)
    requires row.waitingAmount.Some?
  {
    row.waitingAmount.value - row.unused
  }

  // A row as it is stored: a message identity comes with its amount, which covers the unused
  // funds it was reduced by.
  ghost predicate RowInv(row: Row, sent: map<Cid, int>, unusedCid: Option<Cid>) {
    && row.unused >= 0
    && (row.actor.None? ==> row.unused == 0)
    && (row.actor.Some? ==> unusedCid.Some?)
    && (row.waitingCid.Some? ==>
          row.waitingAmount.Some? && row.waitingAmount.value >= row.unused &&
          row.waitingCid.value in sent && sent[row.waitingCid.value] == MessageValue(row))
  }

  ghost predicate QueueInv(c: Channel, q: Queue) {
    && q.pendingAmount == Total(q.pending) && NonNegative(q)
    && (c.stored.Some? ==> c.stored.value.unused == q.row.unused && c.stored.value.actor == q.row.actor)
    && (c.stored.None? ==> q.row.actor.None?)
    && if c.calls == [] then c.stored == Some(q.row) && q.waiting == [] && q.row.waitingCid.None?
       else |c.calls| == 1 && CallInv(c, q, c.calls[0])
  }

  // What is known while an API call is outstanding.
  ghost predicate CallInv(c: Channel, q: Queue, call: Call) {
    match call
    case NetworkCall =>
      c.stored.None? && q.row.actor.None? && q.row.waitingCid.None? && q.waiting == [] &&
      q.pending != []
    case PushCall(value) =>
      q.row.waitingCid.None? && q.row.waitingAmount.Some? && q.row.waitingAmount.value >= q.row.unused &&
      value == MessageValue(q.row) && q.waiting != [] && Total(q.waiting) == q.row.waitingAmount.value
    case WaitCall(cid) =>
      c.stored == Some(q.row) && q.row.waitingCid == Some(cid) && q.row.waitingAmount.Some? &&
      (q.waiting != [] ==> Total(q.waiting) == q.row.waitingAmount.value)
  }

  ghost predicate ChannelInv(w: World) {
    var c := w.chan;
    && (c.stored.Some? ==> RowInv(c.stored.value, w.sent, w.unusedCid))
    && (c.queue.None? ==> c.calls == [])
    && (c.queue.Some? ==> RowInv(c.queue.value.row, w.sent, w.unusedCid) && QueueInv(c, c.queue.value))
  }

  // The unused funds of the channel.
  function Unused(c: Channel): (n: int) {
    if c.queue.Some? then c.queue.value.row.unused
    else if c.stored.Some? then c.stored.value.unused
    else 0
  }

  // Where the money is.
  ghost predicate Balanced(w: World) {
    Acked(w.chan.log) + Unused(w.chan) == w.confirmed + w.leaked
  }

  // No callback occurs twice among those answered or still held, and all were seen before.
  ghost predicate OnceInv(w: World) {
    forall id :: multiset(LiveIds(w.chan))[id] <= if id in w.used then 1 else 0
  }

  // ---------------------------------------------------------------- handlers keep them

  // Between messages, serving what is pending goes through no assert and keeps everything.
  lemma NextKeeps(w: World)
    requires ChannelInv(w) && w.chan.queue.Some? && w.chan.calls == []
    ensures NextAsserts(w.chan, w.unusedCid)
    ensures ChannelInv(w.(chan := Next(w.chan, w.unusedCid)))
    ensures var c := Next(w.chan, w.unusedCid);
            Acked(c.log) + Unused(c) == Acked(w.chan.log) + Unused(w.chan)
  {
    var q := w.chan.queue.value;
    if !NextIsIdle(q) && q.row.unused >= q.pendingAmount {
      AckedAnswers(w.chan.log, q.pending, Some(Info(q.row.actor.value, w.unusedCid.value)));
    }
    TotalIsNonNegative(q.pending);
  }

  lemma OnErrorKeeps(w: World)
    requires w.chan.queue.Some? && w.chan.calls == []
    requires w.chan.stored.Some? ==> RowInv(w.chan.stored.value, w.sent, w.unusedCid)
    requires if w.chan.stored.Some? then w.chan.stored.value.unused == w.chan.queue.value.row.unused
             else w.chan.queue.value.row.unused == 0
    ensures ChannelInv(w.(chan := OnError(w.chan)))
    ensures var c := OnError(w.chan);
            Acked(c.log) + Unused(c) == Acked(w.chan.log) + Unused(w.chan)
  {
    var q := w.chan.queue.value;
    AckedAnswers(w.chan.log, q.waiting, None);
    AckedAnswers(w.chan.log + Answers(q.waiting, None), q.pending, None);
  }

  lemma MakeKeeps(w: World, r: Request)
    requires ChannelInv(w) && r.amount >= 0
    ensures MakeAsserts(w.chan, w.unusedCid, r)
    ensures ChannelInv(w.(chan := Make(w.chan, w.unusedCid, r)))
    ensures var c := Make(w.chan, w.unusedCid, r);
            Acked(c.log) + Unused(c) == Acked(w.chan.log) + Unused(w.chan)
  {
    var c := w.chan;
    var q := Enqueue(c, r);
    TotalPush(if c.queue.Some? then c.queue.value.pending else [], r);
    var loaded := w.(chan := c.(queue := Some(q)));
    if c.queue.Some? || (c.stored.Some? && q.row.waitingCid.None?) {
      if c.calls == [] {
        NextKeeps(loaded);
      }
    }
  }

  lemma NetworkKeeps(w: World, i: nat, ok: bool)
    requires ChannelInv(w) && Enabled(w, NetworkEvent(i, ok))
    ensures OnNetworkAsserts(w.chan, ok)
    ensures ChannelInv(w.(chan := OnNetwork(w.chan, i, ok)))
    ensures var c := OnNetwork(w.chan, i, ok);
            Acked(c.log) + Unused(c) == Acked(w.chan.log) + Unused(w.chan)
  {
    TotalIsNonNegative(w.chan.queue.value.pending);
    if !ok {
      OnErrorKeeps(w.(chan := w.chan.(calls := [])));
    }
  }

  lemma PushKeeps(w: World, i: nat, p: PushResult)
    requires ChannelInv(w) && Enabled(w, PushEvent(i, p))
    ensures OnPushAsserts(w.chan)
    ensures ChannelInv(Step(w, PushEvent(i, p)))
    ensures var c := OnPush(w.chan, i, p);
            Acked(c.log) + Unused(c) == Acked(w.chan.log) + Unused(w.chan)
  {
    var q := w.chan.queue.value;
    if p.PushError? {
      var row := q.row.(waitingAmount := None);
      OnErrorKeeps(w.(chan := w.chan.(calls := [], queue := Some(q.(row := row)), stored := Some(row))));
    }
  }

  // A confirmed message: what it brought is acknowledged or kept as unused, and when its
  // callbacks were lost the unused funds it was reduced by are counted again.
  lemma ConfirmKeeps(w: World, cid: Cid, actor: Actor)
    requires ChannelInv(w) && w.chan.calls == [WaitCall(cid)]
    requires w.chan.queue.value.row.actor.Some? ==> w.chan.queue.value.row.actor == Some(actor)
    ensures var q := w.chan.queue.value;
            var c := Confirm(w.chan.(calls := []), actor);
            cid in w.sent && ChannelInv(w.(chan := c, unusedCid := Some(cid))) &&
            Acked(c.log) + Unused(c) ==
            Acked(w.chan.log) + Unused(w.chan) + w.sent[cid] + if q.waiting == [] then q.row.unused else 0
  {
    var q := w.chan.queue.value;
    AckedAnswers(w.chan.log, q.waiting, Some(Info(actor, cid)));
  }

  lemma WaitKeeps(w: World, i: nat, r: WaitResult)
    requires ChannelInv(w) && Balanced(w) && Enabled(w, WaitEvent(i, r))
    ensures OnWaitAsserts(w.chan, r)
    ensures ChannelInv(Step(w, WaitEvent(i, r))) && Balanced(Step(w, WaitEvent(i, r)))
  {
    var q, cid := w.chan.queue.value, w.chan.calls[i].cid;
    assert Without(w.chan.calls, i) == [];
    assert w.chan.calls == [WaitCall(cid)];
    if Confirms(w.chan, r) {
      var actor := NewActor(q, r.result).value;
      ConfirmKeeps(w, cid, actor);
      NextKeeps(w.(chan := Confirm(w.chan.(calls := []), actor), unusedCid := Some(cid)));
      NextIgnoresCalls(w.chan, actor, Some(cid));
    } else if r.ExitFailed? {
      var row := q.row.(waitingAmount := None, waitingCid := None);
      OnErrorKeeps(w.(chan := w.chan.(calls := [], queue := Some(q.(row := row)), stored := Some(row))));
    } else {
      OnErrorKeeps(w.(chan := w.chan.(calls := [])));
    }
  }

  lemma NextIgnoresCalls(c: Channel, actor: Actor, cid: Option<Cid>)
    requires c.queue.Some? && c.queue.value.row.waitingCid.Some? && c.queue.value.row.waitingAmount.Some?
    ensures NextAsserts(Confirm(c, actor), cid) == NextAsserts(Confirm(c.(calls := []), actor), cid)
  {
  }

  lemma StepKeeps(w: World, e: Event)
    requires ChannelInv(w) && Balanced(w) && Enabled(w, e)
    ensures AssertsHold(w, e)
    ensures ChannelInv(Step(w, e)) && Balanced(Step(w, e))
  {
    match e
    case MakeEvent(r) => MakeKeeps(w, r);
    case NetworkEvent(i, ok) => NetworkKeeps(w, i, ok);
    case PushEvent(i, p) => PushKeeps(w, i, p);
    case WaitEvent(i, r) => WaitKeeps(w, i, r);
    case RestartEvent =>
    case OtherPairConfirmed(_) =>
  }

  // ---------------------------------------------------------------- callbacks

  lemma AnsweredAfter(log: seq<Answer>, rs: seq<Request>, info: Option<Info>)
    ensures AnsweredIds(log + Answers(rs, info)) == AnsweredIds(log) + Ids(rs)
  {
  }

  ghost function Bag(c: Channel): (m: multiset<CbId>) {
    multiset(LiveIds(c))
  }

  lemma BagOf(c: Channel)
    ensures Bag(c) == multiset(AnsweredIds(c.log)) +
                      if c.queue.None? then multiset{}
                      else multiset(Ids(c.queue.value.waiting)) + multiset(Ids(c.queue.value.pending))
  {
  }

  lemma OnErrorBag(c: Channel)
    requires c.queue.Some?
    ensures Bag(OnError(c)) == Bag(c)
  {
    hide Bag;
    var q := c.queue.value;
    BagOf(c);
    BagOf(OnError(c));
    AnsweredAfter(c.log, q.waiting, None);
    AnsweredAfter(c.log + Answers(q.waiting, None), q.pending, None);
  }

  lemma NextBag(c: Channel, unusedCid: Option<Cid>)
    requires NextAsserts(c, unusedCid)
    ensures Bag(Next(c, unusedCid)) == Bag(c)
  {
    hide Bag;
    var q := c.queue.value;
    BagOf(c);
    BagOf(Next(c, unusedCid));
    if !NextIsIdle(q) && q.row.unused >= q.pendingAmount {
      AnsweredAfter(c.log, q.pending, Some(Info(q.row.actor.value, unusedCid.value)));
      assert Ids([]) == [];
    }
  }

  lemma MakeBag(c: Channel, unusedCid: Option<Cid>, r: Request)
    requires MakeAsserts(c, unusedCid, r)
    ensures Bag(Make(c, unusedCid, r)) == Bag(c) + multiset{r.id}
  {
    hide Bag, Next, NextAsserts, AnsweredIds;
    var loaded := c.(queue := Some(Enqueue(c, r)));
    BagOf(loaded);
    BagOf(Make(c, unusedCid, r));
    LoadedBag(c, r);
    if NextAsserts(loaded, unusedCid) {
      NextBag(loaded, unusedCid);
    }
  }

  lemma LoadedBag(c: Channel, r: Request)
    ensures Bag(c.(queue := Some(Enqueue(c, r)))) == Bag(c) + multiset{r.id}
  {
    hide Bag, AnsweredIds;
    BagOf(c);
    BagOf(c.(queue := Some(Enqueue(c, r))));
    var pending := if c.queue.Some? then c.queue.value.pending else [];
    assert Ids(pending + [r]) == Ids(pending) + [r.id];
    assert Ids([]) == [];
  }

  lemma WaitBag(c: Channel, i: nat, r: WaitResult)
    requires i < |c.calls| && OnWaitAsserts(c, r)
    ensures Bag(OnWait(c, i, r)) == Bag(c)
  {
    hide Bag;
    var q, rest := c.queue.value, c.(calls := Without(c.calls, i));
    BagOf(c);
    BagOf(rest);
    if Confirms(c, r) {
      var actor := NewActor(q, r.result).value;
      var confirmed := Confirm(rest, actor);
      BagOf(confirmed);
      AnsweredAfter(c.log, q.waiting, Some(Info(actor, q.row.waitingCid.value)));
      assert Ids([]) == [];
      NextBag(confirmed, q.row.waitingCid);
    } else if r.ExitFailed? {
      var row := q.row.(waitingAmount := None, waitingCid := None);
      var saved := rest.(queue := Some(q.(row := row)), stored := Some(row));
      BagOf(saved);
      OnErrorBag(saved);
    } else {
      OnErrorBag(rest);
    }
  }

  lemma StepBag(w: World, e: Event)
    requires Enabled(w, e) && AssertsHold(w, e)
    ensures Bag(Step(w, e).chan) <= Bag(w.chan) + if e.MakeEvent? then multiset{e.request.id} else multiset{}
  {
    hide Bag;
    var c := w.chan;
    BagOf(c);
    BagOf(Step(w, e).chan);
    match e
    case MakeEvent(r) => MakeBag(c, w.unusedCid, r);
    case NetworkEvent(i, ok) =>
      if !ok {
        var rest := c.(calls := Without(c.calls, i));
        BagOf(rest);
        OnErrorBag(rest);
      }
    case PushEvent(i, p) =>
      if p.PushError? {
        var row := c.queue.value.row.(waitingAmount := None);
        var saved := c.(calls := Without(c.calls, i), queue := Some(c.queue.value.(row := row)), stored := Some(row));
        BagOf(saved);
        OnErrorBag(saved);
      }
    case WaitEvent(i, r) => WaitBag(c, i, r);
    case RestartEvent =>
    case OtherPairConfirmed(_) =>
  }

  lemma StepKeepsOnce(w: World, e: Event)
    requires OnceInv(w) && Enabled(w, e) && AssertsHold(w, e)
    ensures OnceInv(Step(w, e))
  {
    hide AssertsHold, LiveIds;
    StepBag(w, e);
    var next := Step(w, e);
    assert next.used == if e.MakeEvent? then w.used + {e.request.id} else w.used;
    forall id
      ensures multiset(LiveIds(next.chan))[id] <= if id in next.used then 1 else 0
    {
      assert Bag(next.chan)[id] <= (Bag(w.chan) + if e.MakeEvent? then multiset{e.request.id} else multiset{})[id];
    }
  }

  // ---------------------------------------------------------------- theorems

  // Theorem: in no run does an assert fail, and every state of every run has at most one
  // outstanding API call, a stored message identity only together with its amount, and
  // pending amounts that add up; its books balance; and no callback was invoked twice.
  lemma {:induction false} EveryRunIsSafe(w: World, es: seq<Event>)
    requires ChannelInv(w) && Balanced(w) && OnceInv(w)
    ensures match Run(w, es)
            case AssertFailed => false
            case NotARun => true
            case Reached(r) => ChannelInv(r) && Balanced(r) && OnceInv(r)
    decreases |es|
  {
    hide ChannelInv, Balanced, OnceInv, Step, Enabled, AssertsHold;
    if es != [] && Enabled(w, es[0]) {
      StepKeeps(w, es[0]);
      StepKeepsOnce(w, es[0]);
      EveryRunIsSafe(Step(w, es[0]), es[1..]);
    }
  }

  lemma InitialIsSafe()
    ensures ChannelInv(INITIAL) && Balanced(INITIAL) && OnceInv(INITIAL)
  {
    assert LiveIds(NO_CHANNEL) == [];
  }

  // What a reader of the source would check of any one state.
  ghost predicate SafeState(c: Channel) {
    && |c.calls| <= 1
    && (c.stored.Some? && c.stored.value.waitingCid.Some? ==> c.stored.value.waitingAmount.Some?)
    && (c.queue.Some? ==> c.queue.value.pendingAmount == Total(c.queue.value.pending))
    && Distinct(AnsweredIds(c.log))
  }

  // Theorem (protocol safety): no assert fails in any run, and every state reached is safe.
  lemma ProtocolIsSafe(es: seq<Event>)
    ensures Run(INITIAL, es) != AssertFailed
    ensures Run(INITIAL, es).Reached? ==> SafeState(Run(INITIAL, es).w.chan)
  {
    hide Run, ChannelInv, OnceInv, Balanced, SafeState;
    InitialIsSafe();
    EveryRunIsSafe(INITIAL, es);
    if Run(INITIAL, es).Reached? {
      InvariantsAreSafe(Run(INITIAL, es).w);
    }
  }

  lemma InvariantsAreSafe(w: World)
    requires ChannelInv(w) && OnceInv(w)
    ensures SafeState(w.chan)
  {
    hide OnceInv, Distinct;
    AnsweredAreDistinct(w);
  }

  lemma AnsweredAreDistinct(w: World)
    requires OnceInv(w)
    ensures Distinct(AnsweredIds(w.chan.log))
  {
    var ids, all := AnsweredIds(w.chan.log), LiveIds(w.chan);
    forall i, j | 0 <= i < j < |ids|
      ensures ids[i] != ids[j]
    {
      assert all[i] == ids[i] && all[j] == ids[j];
      var front, mid, back := all[..i], all[i + 1..j], all[j + 1..];
      assert all == front + [all[i]] + mid + [all[j]] + back;
      assert multiset(all)[all[i]] <= 1;
    }
  }

  // Theorem (conservation): over every run, what was acknowledged plus what is unused is what
  // the confirmed messages brought plus the leak, and nothing is negative. So the books of the
  // source balance exactly when nothing leaked, that is, when every confirmation whose
  // callbacks had been lost found no unused funds.
  lemma FundsAreConserved(es: seq<Event>)
    requires Run(INITIAL, es).Reached?
    ensures var w := Run(INITIAL, es).w;
            Unused(w.chan) >= 0 &&
            (w.confirmed == Acked(w.chan.log) + Unused(w.chan) <==> w.leaked == 0)
  {
    hide Run;
    InitialIsSafe();
    EveryRunIsSafe(INITIAL, es);
  }

  // ---------------------------------------------------------------- when funds leak

  // A message is confirmed, its callbacks are lost, and there are unused funds: the amount is
  // counted as unused although part of it was taken from them.
  predicate Leaks(w: World, e: Event)
    requires Enabled(w, e) && AssertsHold(w, e)
  {
    e.WaitEvent? && Confirms(w.chan, e.waited) &&
    w.chan.queue.value.waiting == [] && w.chan.queue.value.row.unused > 0
  }

  ghost predicate NeverLeaks(w: World, es: seq<Event>)
    requires Run(w, es).Reached?
    decreases |es|
  {
    es == [] || (!Leaks(w, es[0]) && NeverLeaks(Step(w, es[0]), es[1..]))
  }

  lemma StepLeaks(w: World, e: Event)
    requires ChannelInv(w) && Enabled(w, e) && AssertsHold(w, e)
    ensures Step(w, e).leaked >= w.leaked && (Step(w, e).leaked > w.leaked <==> Leaks(w, e))
  {
    hide Make, OnNetwork, OnPush, OnWait;
  }

  lemma {:induction false} LeakIsExact(w: World, es: seq<Event>)
    requires ChannelInv(w) && Balanced(w) && Run(w, es).Reached?
    ensures Run(w, es).w.leaked >= w.leaked
    ensures Run(w, es).w.leaked == w.leaked <==> NeverLeaks(w, es)
    decreases |es|
  {
    hide Step, ChannelInv, Balanced, Leaks, Enabled, AssertsHold;
    if es != [] {
      StepLeaks(w, es[0]);
      StepKeeps(w, es[0]);
      LeakIsExact(Step(w, es[0]), es[1..]);
    }
  }

  // Theorem (when the books balance): the confirmed messages brought exactly what was acknowledged
  // plus what is unused if and only if no step of the run confirmed a message with lost callbacks
  // over unused funds.
  lemma BooksBalanceExactly(es: seq<Event>)
    requires Run(INITIAL, es).Reached?
    ensures var w := Run(INITIAL, es).w;
            w.confirmed == Acked(w.chan.log) + Unused(w.chan) <==> NeverLeaks(INITIAL, es)
  {
    hide Run, NeverLeaks, Unused;
    InitialIsSafe();
    FundsAreConserved(es);
    LeakIsExact(INITIAL, es);
  }

  // Waiting callbacks are dropped, by a failed wait or a restart, while there are unused funds.
  predicate Drops(w: World, e: Event)
    requires Enabled(w, e) && AssertsHold(w, e)
  {
    w.chan.queue.Some? && w.chan.queue.value.row.waitingCid.Some? &&
    w.chan.queue.value.waiting != [] && w.chan.queue.value.row.unused > 0 &&
    (e.RestartEvent? || (e.WaitEvent? && !e.waited.ExitFailed? && !Confirms(w.chan, e.waited)))
  }

  ghost predicate NeverDrops(w: World, es: seq<Event>)
    requires Run(w, es).Reached?
    decreases |es|
  {
    es == [] || (!Drops(w, es[0]) && NeverDrops(Step(w, es[0]), es[1..]))
  }

  // A message whose callbacks are lost was sent with no unused funds.
  ghost predicate LostOverNothing(c: Channel) {
    && (c.queue.Some? && c.stored.Some? ==> c.stored.value.waitingCid == c.queue.value.row.waitingCid)
    && (c.stored.Some? && c.stored.value.waitingCid.Some? && (c.queue.None? || c.queue.value.waiting == []) ==>
          c.stored.value.unused == 0)
  }

  lemma StepKeepsLost(w: World, e: Event)
    requires ChannelInv(w) && LostOverNothing(w.chan) && Enabled(w, e) && AssertsHold(w, e) && !Drops(w, e)
    ensures LostOverNothing(Step(w, e).chan) && !Leaks(w, e)
  {
    hide Total, Answers;
  }

  lemma {:induction false} NoDropNoLeak(w: World, es: seq<Event>)
    requires ChannelInv(w) && Balanced(w) && LostOverNothing(w.chan) && Run(w, es).Reached? && NeverDrops(w, es)
    ensures NeverLeaks(w, es)
    decreases |es|
  {
    hide Step, ChannelInv, Balanced, Leaks, Drops, Enabled, AssertsHold, LostOverNothing;
    if es != [] {
      StepKeeps(w, es[0]);
      StepKeepsLost(w, es[0]);
      NoDropNoLeak(Step(w, es[0]), es[1..]);
    }
  }

  // Theorem (conservation without loss): over every run that drops waiting callbacks only when
  // nothing is unused, the value of the confirmed messages is what was acknowledged plus what is
  // unused.
  lemma NoDropsConserve(es: seq<Event>)
    requires Run(INITIAL, es).Reached? && NeverDrops(INITIAL, es)
    ensures var w := Run(INITIAL, es).w; w.confirmed == Acked(w.chan.log) + Unused(w.chan)
  {
    hide Run, NeverLeaks, NeverDrops, Unused, Acked, ChannelInv, Balanced, OnceInv;
    InitialIsSafe();
    NoDropNoLeak(INITIAL, es);
    BooksBalanceExactly(es);
  }

  lemma {:induction false} RunAppend(w: World, a: seq<Event>, b: seq<Event>)
    requires Run(w, a).Reached?
    ensures Run(w, a + b) == Run(Run(w, a).w, b)
    decreases |a|
  {
    hide Step, Enabled, AssertsHold;
    if a == [] {
      assert a + b == b;
    } else {
      assert (a + b)[1..] == a[1..] + b;
      RunAppend(Step(w, a[0]), a[1..], b);
    }
  }

  lemma RunOne(w: World, e: Event)
    requires Enabled(w, e) && AssertsHold(w, e)
    ensures Run(w, [e]) == Reached(Step(w, e))
  {
    hide Step, Enabled, AssertsHold;
    assert [e][1..] == [];
  }

  // Extends a run that reached `w` by one event.
  lemma RunMore(es: seq<Event>, w: World, e: Event)
    requires Run(INITIAL, es) == Reached(w) && Enabled(w, e) && AssertsHold(w, e)
    ensures Run(INITIAL, es + [e]) == Reached(Step(w, e))
  {
    hide Step, Enabled, AssertsHold, Run;
    RunAppend(INITIAL, es, [e]);
    RunOne(w, e);
  }

  // The leak is real: fund 10 and lose the callback, use 5 of it, fund 8 more (of which only 3
  // are sent) and lose the callback again; all 8 are then counted as unused on top of the 5.
  lemma LeakHappens()
    ensures exists es :: Run(INITIAL, es).Reached? && Run(INITIAL, es).w.leaked == 5
  {
    hide Run;
    var es, w := FundAndRestart();
    var e6, e7 := MakeEvent(Request(4, 0)), WaitEvent(0, Executed(None));
    RunMore(es, w, e6);
    var w6 := Step(w, e6);
    RunMore(es + [e6], w6, e7);
  }

  lemma FundAndRestart() returns (es: seq<Event>, w: World)
    ensures Run(INITIAL, es) == Reached(w)
    ensures w.chan.queue == None && w.chan.calls == [] && w.unusedCid == Some(1) && w.leaked == 0
    ensures w.chan.stored == Some(Row(Some(7), 10, 5, Some(2), Some(8))) && 4 !in w.used
  {
    hide Run;
    es, w := FundAndUse();
    var e3, e4 := MakeEvent(Request(3, 8)), PushEvent(0, Pushed(2));
    RunMore(es, w, e3);
    var w3 := Step(w, e3);
    assert w3.chan.calls == [PushCall(3)];
    RunMore(es + [e3], w3, e4);
    var w4 := Step(w3, e4);
    RunMore(es + [e3] + [e4], w4, RestartEvent);
    es, w := es + [e3] + [e4] + [RestartEvent], Step(w4, RestartEvent);
  }

  lemma FundAndUse() returns (es: seq<Event>, w: World)
    ensures Run(INITIAL, es) == Reached(w)
    ensures var row := Row(Some(7), 10, 5, None, None);
            w.chan.stored == Some(row) && w.chan.queue == Some(Queue(row, [], 0, [])) && w.chan.calls == [] &&
            w.sent == map[1 := 10] && w.used == {1, 2} && w.unusedCid == Some(1) && w.leaked == 0
  {
    hide Run;
    es, w := FundAndForget();
    var e1, e2 := MakeEvent(Request(2, 5)), WaitEvent(0, Executed(Some(7)));
    RunMore(es, w, e1);
    var w1 := Step(w, e1);
    RunMore(es + [e1], w1, e2);
    es, w := es + [e1] + [e2], Step(w1, e2);
  }

  lemma FundAndForget() returns (es: seq<Event>, w: World)
    ensures Run(INITIAL, es) == Reached(w)
    ensures w == World(Channel(Some(Row(None, 0, 0, Some(1), Some(10))), None, [], []),
                       None, map[1 := 10], {1}, 0, 0)
  {
    hide Run;
    assert Run(INITIAL, []) == Reached(INITIAL) by { RunNone(INITIAL); }
    var e1, e2, e3 := MakeEvent(Request(1, 10)), NetworkEvent(0, true), PushEvent(0, Pushed(1));
    RunMore([], INITIAL, e1);
    var w1 := Step(INITIAL, e1);
    RunMore([] + [e1], w1, e2);
    var w2 := Step(w1, e2);
    assert w2.chan.calls == [PushCall(10)];
    RunMore([] + [e1] + [e2], w2, e3);
    var w3 := Step(w2, e3);
    assert w3.chan.queue.value.row == Row(None, 0, 0, Some(1), Some(10));
    RunMore([] + [e1] + [e2] + [e3], w3, RestartEvent);
    es, w := [] + [e1] + [e2] + [e3] + [RestartEvent], Step(w3, RestartEvent);
  }

  lemma RunNone(w: World)
    ensures Run(w, []) == Reached(w)
  {
  }
}
