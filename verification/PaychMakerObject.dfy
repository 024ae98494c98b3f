// The payment channel maker: queues for all pairs of addresses, updated in place by the
// handlers. Each handler does to its pair what the specification says, and nothing to others.
module PaychMakerObject {
  import opened Base
  import Spec = PaychMaker
  import opened PaychMaker

  type Key = nat

  function Lookup<V>(m: map<Key, V>, k: Key): (r: Option<V>) {
    if k in m then Some(m[k]) else None
  }

  function ListAt<V>(m: map<Key, seq<V>>, k: Key): (r: seq<V>) {
    if k in m then m[k] else []
  }

  class Maker {
    var queues: map<Key, Queue>
    var kv: map<Key, Row>
    var unusedCid: Option<Cid>
    // API calls whose continuation is outstanding, and callbacks invoked, by pair.
    var calls: map<Key, seq<Call>>
    var log: map<Key, seq<Answer>>

    ghost function View(k: Key): (c: Channel)
      reads this
    {
      Channel(Lookup(kv, k), Lookup(queues, k), ListAt(calls, k), ListAt(log, k))
    }

    // Only pair `k` is touched.
    twostate predicate OthersKept(k: Key)
      reads this
    {
      forall j | j != k :: View(j) == old(View(j))
    }

    constructor ()
      ensures forall k :: View(k) == NO_CHANNEL
      ensures unusedCid == None
    {
      queues, kv, unusedCid, calls, log := map[], map[], None, map[], map[];
    }

    // The process is started again: what was only in memory is gone.
    method Reload()
      modifies this`queues, this`calls
      ensures forall k :: View(k) == Restart(old(View(k)))
    {
      queues, calls := map[], map[];
    }

    method Invoke(k: Key, requests: seq<Request>, info: Option<Info>)
      modifies this`log
      ensures View(k) == old(View(k)).(log := old(View(k)).log + Answers(requests, info))
      ensures OthersKept(k)
    {
      var answers: seq<Answer> := [];
      for i := 0 to |requests|
        invariant answers == Answers(requests, info)[..i]
      {
        answers := answers + [Answer(requests[i], info)];
      }
      assert answers == Answers(requests, info);
      log := log[k := ListAt(log, k) + answers];
    }

    method Send(k: Key, call: Call)
      modifies this`calls
      ensures View(k) == old(View(k)).(calls := old(View(k)).calls + [call])
      ensures OthersKept(k)
    {
      calls := calls[k := ListAt(calls, k) + [call]];
    }

    // A continuation runs: its call is no longer outstanding.
    method Answered(k: Key, i: nat)
      requires i < |View(k).calls|
      modifies this`calls
      ensures View(k) == old(View(k)).(calls := Without(old(View(k)).calls, i))
      ensures OthersKept(k)
    {
      calls := calls[k := Without(ListAt(calls, k), i)];
    }

    method Save(k: Key)
      requires k in queues
      modifies this`kv
      ensures View(k) == old(View(k)).(stored := Some(queues[k].row))
      ensures OthersKept(k)
    {
      kv := kv[k := queues[k].row];
    }

    method SetQueue(k: Key, q: Queue)
      modifies this`queues
      ensures View(k) == old(View(k)).(queue := Some(q))
      ensures OthersKept(k)
    {
      queues := queues[k := q];
    }

    method ShiftQueue(k: Key)
      requires k in queues && ShiftAsserts(queues[k])
      modifies this`queues
      ensures View(k) == old(View(k)).(queue := Some(Shift(old(queues[k]))))
      ensures OthersKept(k)
    {
      var q := queues[k];
      var waiting, pending := q.pending, q.waiting;
      SetQueue(k, Queue(q.row.(waitingAmount := Some(q.pendingAmount)), waiting, 0, pending));
    }

    method OnError(k: Key)
      requires k in queues
      modifies this`queues, this`log
      ensures View(k) == Spec.OnError(old(View(k)))
      ensures OthersKept(k)
    {
      var q := queues[k];
      Invoke(k, q.waiting, None);
      Invoke(k, q.pending, None);
      queues := queues - {k};
    }

    method Next(k: Key)
      requires NextAsserts(View(k), unusedCid)
      modifies this`queues, this`kv, this`calls, this`log
      ensures View(k) == Spec.Next(old(View(k)), old(unusedCid))
      ensures var actor := old(queues[k].row.actor);
              if actor.Some? && unusedCid.Some?
              then Told(old(View(k)), View(k), Some(Info(actor.value, unusedCid.value)))
              else View(k).log == old(View(k)).log
      ensures OthersKept(k)
    {
      NextTells(View(k), unusedCid);
      var q := queues[k];
      if q.row.actor.None? || q.row.waitingCid.Some? || q.row.waitingAmount.Some? || q.pending == [] {
        return;
      }
      if q.row.unused >= q.pendingAmount {
        var row := q.row.(unused := q.row.unused - q.pendingAmount);
        SetQueue(k, Queue(row, q.waiting, 0, q.pending));
        Save(k);
        Invoke(k, q.pending, Some(Info(row.actor.value, unusedCid.value)));
        SetQueue(k, Queue(row, q.waiting, 0, []));
        return;
      }
      ShiftQueue(k);
      Save(k);
      Send(k, PushCall(queues[k].row.waitingAmount.value - queues[k].row.unused));
    }

    // Asks for a channel of the pair to be funded with `amount` more.
    method Make(k: Key, request: Request)
      requires MakeAsserts(View(k), unusedCid, request)
      modifies this`queues, this`kv, this`calls, this`log
      ensures View(k) == Spec.Make(old(View(k)), old(unusedCid), request)
      ensures OthersKept(k)
    {
      var empty := k !in queues;
      var q := if empty then Queue(EMPTY_ROW, [], 0, []) else queues[k];
      q := q.(pendingAmount := q.pendingAmount + request.amount, pending := q.pending + [request]);
      if empty {
        if k in kv {
          q := q.(row := kv[k]);
          SetQueue(k, q);
          if q.row.waitingCid.Some? {
            Send(k, WaitCall(q.row.waitingCid.value));
            return;
          }
        } else {
          SetQueue(k, q);
          Send(k, NetworkCall);
          return;
        }
      } else {
        SetQueue(k, q);
      }
      Next(k);
    }

    method OnNetwork(k: Key, i: nat, ok: bool)
      requires i < |View(k).calls| && OnNetworkAsserts(View(k), ok)
      modifies this`queues, this`calls, this`log
      ensures View(k) == Spec.OnNetwork(old(View(k)), i, ok)
      ensures OthersKept(k)
    {
      Answered(k, i);
      if !ok {
        OnError(k);
        return;
      }
      ShiftQueue(k);
      Send(k, PushCall(queues[k].row.waitingAmount.value));
    }

    method OnPush(k: Key, i: nat, result: PushResult)
      requires i < |View(k).calls| && OnPushAsserts(View(k))
      modifies this`queues, this`kv, this`calls, this`log
      ensures View(k) == Spec.OnPush(old(View(k)), i, result)
      ensures OthersKept(k)
    {
      Answered(k, i);
      var q := queues[k];
      match result {
        case PushError =>
          SetQueue(k, q.(row := q.row.(waitingAmount := None)));
          Save(k);
          OnError(k);
        case Pushed(cid) =>
          SetQueue(k, q.(row := q.row.(waitingCid := Some(cid))));
          Save(k);
          Send(k, WaitCall(cid));
      }
    }

    method OnWait(k: Key, i: nat, result: WaitResult)
      requires i < |View(k).calls| && OnWaitAsserts(View(k), result)
      modifies this
      ensures View(k) == Spec.OnWait(old(View(k)), i, result)
      ensures unusedCid == if Confirms(old(View(k)), result) then old(queues[k].row.waitingCid) else old(unusedCid)
      ensures var row := old(queues[k].row);
              var actor := if row.actor.Some? then row.actor else if result.Executed? then result.result else None;
              Told(old(View(k)), View(k),
                   if result.Executed? && actor.Some? then Some(Info(actor.value, row.waitingCid.value)) else None)
      ensures OthersKept(k)
    {
      hide Spec.Next, Answers, Without, Told;
      WaitTells(View(k), i, result);
      ghost var before := View(k);
      Answered(k, i);
      ghost var rest := View(k);
      var q := queues[k];
      var cid := q.row.waitingCid.value;
      if result.WaitError? {
        OnError(k);
        return;
      }
      if result.ExitFailed? {
        SetQueue(k, q.(row := q.row.(waitingAmount := None, waitingCid := None)));
        Save(k);
        OnError(k);
        return;
      }
      if q.row.actor.None? {
        if result.result.None? {
          OnError(k);
          return;
        }
        q := q.(row := q.row.(actor := result.result));
      }
      ConfirmMessage(k, q, cid);
      unusedCid := Some(cid);
      ghost var actor := q.row.actor.value;
      assert View(k) == Confirm(rest, actor);
      SameNext(before, rest, actor, Some(cid));
      Next(k);
    }

    // Books a confirmed message and tells the callbacks that waited for it.
    method ConfirmMessage(k: Key, loaded: Queue, cid: Cid)
      requires k in queues && loaded == queues[k].(row := queues[k].row.(actor := loaded.row.actor))
      requires loaded.row.actor.Some? && loaded.row.waitingCid == Some(cid) && loaded.row.waitingAmount.Some?
      modifies this`queues, this`kv, this`log
      ensures View(k) == Confirm(old(View(k)), loaded.row.actor.value)
      ensures Told(old(View(k)), View(k), Some(Info(loaded.row.actor.value, cid)))
      ensures OthersKept(k)
    {
      var row, amount := loaded.row, loaded.row.waitingAmount.value;
      row := row.(total := row.total + amount);
      if loaded.waiting == [] {
        row := row.(unused := row.unused + amount);
      } else {
        var reused := if row.unused < amount then row.unused else amount;
        if reused != 0 {
          row := row.(unused := row.unused - reused);
        }
      }
      row := row.(waitingAmount := None, waitingCid := None);
      SetQueue(k, loaded.(row := row));
      Save(k);
      Invoke(k, loaded.waiting, Some(Info(row.actor.value, cid)));
      SetQueue(k, loaded.(row := row, waiting := []));
    }
  }

  lemma SameNext(before: Channel, rest: Channel, actor: Actor, cid: Option<Cid>)
    requires before.queue.Some? && before.queue.value.row.waitingCid.Some?
    requires before.queue.value.row.waitingAmount.Some?
    requires rest == before.(calls := rest.calls)
    ensures NextAsserts(Confirm(before, actor), cid) == NextAsserts(Confirm(rest, actor), cid)
  {
  }
}
