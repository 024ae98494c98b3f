// Creating and funding payment channels: what every handler does to the state kept for one
// pair of addresses. The same state is held by the PaychMaker object for all pairs.
module PaychMaker {
  import opened Base

  type Cid = nat
  type Actor = nat
  type CbId = nat

  // What is kept across restarts.
  datatype Row = Row(actor: Option<Actor>, total: int, unused: int,
                     waitingCid: Option<Cid>, waitingAmount: Option<int>)

  const EMPTY_ROW := Row(None, 0, 0, None, None)

  // A callback together with the amount its caller asked for.
  datatype Request = Request(id: CbId, amount: int)

  datatype Queue = Queue(row: Row, waiting: seq<Request>, pendingAmount: int, pending: seq<Request>)

  // An API call whose continuation has not run yet.
  datatype Call = NetworkCall | PushCall(value: int) | WaitCall(cid: Cid)

  datatype Info = Info(actor: Actor, cid: Cid)

  // A callback that was invoked, with its channel, or with an error.
  datatype Answer = Answer(request: Request, info: Option<Info>)

  // Everything about one pair of addresses: the stored row, the queue in memory, the
  // outstanding API calls, and the callbacks invoked so far.
  datatype Channel = Channel(stored: Option<Row>, queue: Option<Queue>, calls: seq<Call>, log: seq<Answer>)

  const NO_CHANNEL := Channel(None, None, [], [])

  // The answers that API calls come back with.
  datatype PushResult = Pushed(cid: Cid) | PushError
  datatype WaitResult = Executed(result: Option<Actor>) | ExitFailed | WaitError

  // ---------------------------------------------------------------- handlers

  function Answers(requests: seq<Request>, info: Option<Info>): (log: seq<Answer>)
    ensures |log| == |requests|
    ensures forall i | 0 <= i < |log| :: log[i] == Answer(requests[i], info)
  {
    seq(|requests|, i requires 0 <= i < |requests| => Answer(requests[i], info))
  }

  function Without(calls: seq<Call>, i: nat): (r: seq<Call>)
    requires i < |calls|
  {
    calls[..i] + calls[i + 1..]
  }

  predicate ShiftAsserts(q: Queue) {
    q.row.waitingCid.None? && q.waiting == []
  }

  // Everything pending becomes what the next message is for.
  function Shift(q: Queue): (r: Queue) {
    Queue(q.row.(waitingAmount := Some(q.pendingAmount)), q.pending, 0, q.waiting)
  }

  // All callbacks fail and the queue is dropped.
  function OnError(c: Channel): (r: Channel)
    requires c.queue.Some?
  {
    var q := c.queue.value;
    c.(queue := None, log := c.log + Answers(q.waiting, None) + Answers(q.pending, None))
  }

  predicate NextIsIdle(q: Queue) {
    q.row.actor.None? || q.row.waitingCid.Some? || q.row.waitingAmount.Some? || q.pending == []
  }

  predicate NextAsserts(c: Channel, unusedCid: Option<Cid>) {
    c.queue.Some? &&
    var q := c.queue.value;
    NextIsIdle(q) || (if q.row.unused >= q.pendingAmount then unusedCid.Some? else ShiftAsserts(q))
  }

  // Serves what is pending: from unused funds, or with another message.
  function Next(c: Channel, unusedCid: Option<Cid>): (r: Channel)
    requires NextAsserts(c, unusedCid)
  {
    var q := c.queue.value;
    if NextIsIdle(q) then c
    else if q.row.unused >= q.pendingAmount then
      var row := q.row.(unused := q.row.unused - q.pendingAmount);
      c.(queue := Some(Queue(row, q.waiting, 0, [])), stored := Some(row),
         log := c.log + Answers(q.pending, Some(Info(q.row.actor.value, unusedCid.value))))
    else
      var shifted := Shift(q);
      c.(queue := Some(shifted), stored := Some(shifted.row),
         calls := c.calls + [PushCall(q.pendingAmount - q.row.unused)])
  }

  predicate MakeAsserts(c: Channel, unusedCid: Option<Cid>, request: Request) {
    var q := Enqueue(c, request);
    (c.queue.None? && (c.stored.None? || q.row.waitingCid.Some?)) ||
    NextAsserts(c.(queue := Some(q)), unusedCid)
  }

  // The queue of a pair, loaded from the store if need be, with one more request.
  function Enqueue(c: Channel, request: Request): (q: Queue) {
    var q := if c.queue.Some? then c.queue.value
             else Queue(if c.stored.Some? then c.stored.value else EMPTY_ROW, [], 0, []);
    q.(pendingAmount := q.pendingAmount + request.amount, pending := q.pending + [request])
  }

  function Make(c: Channel, unusedCid: Option<Cid>, request: Request): (r: Channel)
    requires MakeAsserts(c, unusedCid, request)
  {
    var q := Enqueue(c, request);
    var loaded := c.(queue := Some(q));
    if c.queue.None? && c.stored.None? then loaded.(calls := c.calls + [NetworkCall])
    else if c.queue.None? && q.row.waitingCid.Some? then
      loaded.(calls := c.calls + [WaitCall(q.row.waitingCid.value)])
    else Next(loaded, unusedCid)
  }

  predicate OnNetworkAsserts(c: Channel, ok: bool) {
    c.queue.Some? &&
    var q := c.queue.value;
    q.row.actor.None? && q.row.waitingCid.None? && (ok ==> ShiftAsserts(q))
  }

  function OnNetwork(c: Channel, i: nat, ok: bool): (r: Channel)
    requires i < |c.calls| && OnNetworkAsserts(c, ok)
  {
    var rest := c.(calls := Without(c.calls, i));
    if !ok then OnError(rest)
    else
      var q := Shift(c.queue.value);
      rest.(queue := Some(q), calls := rest.calls + [PushCall(q.row.waitingAmount.value)])
  }

  predicate OnPushAsserts(c: Channel) {
    c.queue.Some? && c.queue.value.row.waitingCid.None?
  }

  function OnPush(c: Channel, i: nat, result: PushResult): (r: Channel)
    requires i < |c.calls| && OnPushAsserts(c)
  {
    var rest, q := c.(calls := Without(c.calls, i)), c.queue.value;
    match result
    case PushError =>
      var row := q.row.(waitingAmount := None);
      OnError(rest.(queue := Some(q.(row := row)), stored := Some(row)))
    case Pushed(cid) =>
      var row := q.row.(waitingCid := Some(cid));
      rest.(queue := Some(q.(row := row)), stored := Some(row), calls := rest.calls + [WaitCall(cid)])
  }

  // The row once its message is known to have been executed.
  function Settled(q: Queue, actor: Actor): (row: Row)
    requires q.row.waitingAmount.Some?
  {
    var w, u := q.row.waitingAmount.value, q.row.unused;
    var unused := if q.waiting == [] then u + w else u - if u < w then u else w;
    Row(Some(actor), q.row.total + w, unused, None, None)
  }

  // The channel after a confirmed message, before pending requests are looked at.
  function Confirm(c: Channel, actor: Actor): (r: Channel)
    requires c.queue.Some? && c.queue.value.row.waitingCid.Some? && c.queue.value.row.waitingAmount.Some?
  {
    var q := c.queue.value;
    var row := Settled(q, actor);
    c.(queue := Some(q.(row := row, waiting := [])), stored := Some(row),
       log := c.log + Answers(q.waiting, Some(Info(actor, q.row.waitingCid.value))))
  }

  // The actor after a message executed: the one known, or the one created.
  function NewActor(q: Queue, result: Option<Actor>): (actor: Option<Actor>) {
    if q.row.actor.Some? then q.row.actor else result
  }

  predicate OnWaitAsserts(c: Channel, result: WaitResult) {
    c.queue.Some? &&
    var q := c.queue.value;
    q.row.waitingCid.Some? &&
    (result.Executed? && NewActor(q, result.result).Some? ==>
       q.row.waitingAmount.Some? &&
       NextAsserts(Confirm(c, NewActor(q, result.result).value), q.row.waitingCid))
  }

  function OnWait(c: Channel, i: nat, result: WaitResult): (r: Channel)
    requires i < |c.calls| && OnWaitAsserts(c, result)
  {
    var rest, q := c.(calls := Without(c.calls, i)), c.queue.value;
    match result
    case WaitError => OnError(rest)
    case ExitFailed =>
      var row := q.row.(waitingAmount := None, waitingCid := None);
      OnError(rest.(queue := Some(q.(row := row)), stored := Some(row)))
    case Executed(made) =>
      var actor := NewActor(q, made);
      if actor.None? then OnError(rest)
      else Next(Confirm(rest, actor.value), q.row.waitingCid)
  }

  // Whether a wait result updates the last confirmed message.
  predicate Confirms(c: Channel, result: WaitResult)
    requires c.queue.Some?
  {
    result.Executed? && NewActor(c.queue.value, result.result).Some?
  }

  // A restart forgets the queue and the outstanding calls, and keeps the row.
  function Restart(c: Channel): (r: Channel) {
    c.(queue := None, calls := [])
  }

  // ---------------------------------------------------------------- what callbacks are told

  // The callbacks invoked in between were all told the same.
  ghost predicate Told(before: Channel, after: Channel, info: Option<Info>) {
    before.log <= after.log && forall n | |before.log| <= n < |after.log| :: after.log[n].info == info
  }

  lemma NextTells(c: Channel, unusedCid: Option<Cid>)
    requires NextAsserts(c, unusedCid)
    ensures var row := c.queue.value.row;
            if row.actor.Some? && unusedCid.Some?
            then Told(c, Next(c, unusedCid), Some(Info(row.actor.value, unusedCid.value)))
            else Next(c, unusedCid).log == c.log
  {
  }

  // A wait that succeeds tells the actor and the message that was waited for, and any other an error.
  lemma WaitTells(c: Channel, i: nat, result: WaitResult)
    requires i < |c.calls| && OnWaitAsserts(c, result)
    ensures var row := c.queue.value.row;
            var actor := if row.actor.Some? then row.actor else if result.Executed? then result.result else None;
            Told(c, OnWait(c, i, result),
                 if result.Executed? && actor.Some? then Some(Info(actor.value, row.waitingCid.value)) else None)
  {
    hide Next;
    if Confirms(c, result) {
      var actor := NewActor(c.queue.value, result.result).value;
      NextTells(Confirm(c.(calls := Without(c.calls, i)), actor), c.queue.value.row.waitingCid);
    }
  }
}
