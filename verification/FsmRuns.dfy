// Runs of a state machine: events queued from any thread, handled one by one on the io thread.
module FsmRuns {
  import opened Base
  import opened FsmRules

  type Entity = nat

  datatype Item = Item(entity: Entity, event: Event, context: nat)

  // Where the io thread stands inside a tick.
  datatype Phase = Idle | Popped(item: Item) | Decided(item: Item, source: State)

  datatype Machine = Machine(
    running: bool, queue: seq<Item>, states: map<Entity, State>,
    // ticks posted and not yet run
    pending: nat,
    phase: Phase,
    // history: what was accepted, and what was dealt with, in order
    accepted: seq<Item>, finished: seq<Item>)

  // The fixed part of a machine.
  datatype Config = Config(rules: seq<Rule>, discard: bool)

  // ---------------------------------------------------------------- steps

  // Queues an event; a tick is posted only when the queue was empty.
  function Enqueue(m: Machine, item: Item): (r: Machine) {
    m.(queue := m.queue + [item], accepted := m.accepted + [item],
       pending := if m.queue == [] then m.pending + 1 else m.pending)
  }

  // A tick takes the front of the queue, and posts the next tick when more is queued.
  function Pop(m: Machine): (r: Machine)
    requires m.pending > 0 && m.queue != []
  {
    m.(queue := m.queue[1..], phase := Popped(m.queue[0]),
       pending := if |m.queue| > 1 then m.pending else m.pending - 1)
  }

  // It reads the state of the entity; an entity that is not tracked ends the tick.
  function Look(m: Machine): (r: Machine)
    requires m.phase.Popped?
  {
    var item := m.phase.item;
    if item.entity !in m.states then m.(phase := Idle, finished := m.finished + [item])
    else m.(phase := Decided(item, m.states[item.entity]))
  }

  // It applies the rule found for that state, or drops or requeues the event.
  function Apply(c: Config, m: Machine): (r: Machine)
    requires m.phase.Decided?
  {
    var item := m.phase.item;
    match Handle(c.rules, item.event, m.phase.source)
    case Moved(to) => m.(phase := Idle, finished := m.finished + [item], states := m.states[item.entity := to])
    case Threw => m.(phase := Idle, finished := m.finished + [item])
    case NoRule =>
      if c.discard then m.(phase := Idle, finished := m.finished + [item])
      else m.(phase := Idle, queue := m.queue + [item])
  }

  // Other threads send, begin, force and stop at any time; the io thread ticks.
  datatype Step = Send(item: Item) | Begin(entity: Entity, state: State) | Force(entity: Entity, state: State)
                | Stop | TickStart | TickLook | TickApply | TickDropped

  // A tick posted to a stopped machine does nothing. A send that saw the machine running may
  // queue its event after the machine was stopped.
  predicate Enabled(m: Machine, s: Step) {
    match s
    case Send(_) => true
    case Begin(e, _) => e !in m.states
    case Force(e, _) => e in m.states
    case Stop => true
    case TickStart => m.running && m.pending > 0 && m.phase.Idle?
    case TickLook => m.phase.Popped?
    case TickApply => m.phase.Decided?
    case TickDropped => !m.running && m.pending > 0 && m.phase.Idle?
  }

  // A tick that starts on an empty queue reads an element that is not there.
  predicate PopsEmpty(m: Machine, s: Step) {
    s.TickStart? && m.queue == []
  }

  function Next(c: Config, m: Machine, s: Step): (r: Machine)
    requires Enabled(m, s) && !PopsEmpty(m, s)
  {
    match s
    case Send(item) => Enqueue(m, item)
    case Begin(e, state) => m.(states := m.states[e := state])
    case Force(e, state) => m.(states := m.states[e := state])
    case Stop => m.(running := false)
    case TickStart => Pop(m)
    case TickLook => Look(m)
    case TickApply => Apply(c, m)
    case TickDropped => m.(pending := m.pending - 1)
  }

  function Start(states: map<Entity, State>): (m: Machine) {
    Machine(true, [], states, 0, Idle, [], [])
  }

  ghost predicate StepTo(c: Config, before: Machine, s: Step, m: Machine) {
    Enabled(before, s) && !PopsEmpty(before, s) && m == Next(c, before, s)
  }

  function DropLast(steps: seq<Step>): (r: seq<Step>)
    requires steps != []
  {
    steps[..|steps| - 1]
  }

  function Last(steps: seq<Step>): (s: Step)
    requires steps != []
  {
    steps[|steps| - 1]
  }

  // `m` is reached from `start` by the steps.
  ghost predicate Reaches(c: Config, start: Machine, steps: seq<Step>, m: Machine)
    decreases |steps|
  {
    if steps == [] then m == start
    else exists before :: Reaches(c, start, DropLast(steps), before) && StepTo(c, before, Last(steps), m)
  }

  // ---------------------------------------------------------------- invariants

  ghost predicate TickIsDue(m: Machine) {
    m.running ==> m.pending <= 1 && (m.pending == 1 ==> m.queue != [])
  }

  ghost predicate ExactlyOneTick(m: Machine) {
    m.running ==> m.pending == (if m.queue != [] then 1 else 0)
  }

  function InHand(m: Machine): (items: seq<Item>) {
    if m.phase.Idle? then [] else [m.phase.item]
  }

  ghost predicate Conserved(m: Machine) {
    multiset(m.accepted) == Items(m.finished, InHand(m), m.queue)
  }

  ghost predicate InOrder(m: Machine) {
    m.accepted == m.finished + InHand(m) + m.queue
  }

  lemma StepKeepsTick(c: Config, m: Machine, s: Step)
    requires TickIsDue(m) && Enabled(m, s)
    ensures !PopsEmpty(m, s) && TickIsDue(Next(c, m, s))
  {
    hide Handle;
  }

  lemma StepKeepsOneTick(c: Config, m: Machine, s: Step)
    requires c.discard && ExactlyOneTick(m) && Enabled(m, s)
    ensures !PopsEmpty(m, s) && ExactlyOneTick(Next(c, m, s))
  {
    hide Handle;
  }

  // The same items, wherever they are.
  ghost function Items(finished: seq<Item>, inHand: seq<Item>, queue: seq<Item>): (r: multiset<Item>) {
    multiset(finished) + multiset(inHand) + multiset(queue)
  }

  lemma ItemsMove(finished: seq<Item>, queue: seq<Item>, item: Item)
    ensures Items(finished, [item], queue) == Items(finished + [item], [], queue)
    ensures Items(finished, [item], queue) == Items(finished, [], queue + [item])
    ensures Items(finished, [], [item] + queue) == Items(finished, [item], queue)
  {
    assert multiset([item] + queue) == multiset{item} + multiset(queue);
  }

  lemma ItemsSent(finished: seq<Item>, inHand: seq<Item>, queue: seq<Item>, item: Item)
    ensures Items(finished, inHand, queue + [item]) == Items(finished, inHand, queue) + multiset{item}
  {
  }

  lemma StepConserves(c: Config, m: Machine, s: Step)
    requires Conserved(m) && Enabled(m, s) && !PopsEmpty(m, s)
    ensures Conserved(Next(c, m, s))
  {
    hide Handle, Items;
    match s {
      case Send(item) => ItemsSent(m.finished, InHand(m), m.queue, item);
      case TickStart =>
        ItemsMove(m.finished, m.queue[1..], m.queue[0]);
        assert m.queue == [m.queue[0]] + m.queue[1..];
      case TickLook => ItemsMove(m.finished, m.queue, m.phase.item);
      case TickApply => ItemsMove(m.finished, m.queue, m.phase.item);
      case _ =>
    }
  }

  lemma InOrderMoves(finished: seq<Item>, queue: seq<Item>, item: Item)
    ensures finished + [] + ([item] + queue) == finished + [item] + queue == finished + [item] + [] + queue
  {
  }

  lemma StepKeepsOrder(c: Config, m: Machine, s: Step)
    requires c.discard && InOrder(m) && Enabled(m, s) && !PopsEmpty(m, s)
    ensures InOrder(Next(c, m, s))
  {
    hide Handle;
    match s {
      case Send(item) =>
        assert m.finished + InHand(m) + (m.queue + [item]) == m.finished + InHand(m) + m.queue + [item];
      case TickStart =>
        InOrderMoves(m.finished, m.queue[1..], m.queue[0]);
        assert m.queue == [m.queue[0]] + m.queue[1..];
      case TickLook => InOrderMoves(m.finished, m.queue, m.phase.item);
      case TickApply => InOrderMoves(m.finished, m.queue, m.phase.item);
      case _ =>
    }
  }

  // Theorem: in every run, whatever is done from other threads, no tick starts on an empty queue,
  // and nothing accepted is lost or doubled.
  lemma {:induction false} EveryRunIsSafe(c: Config, states: map<Entity, State>, steps: seq<Step>, m: Machine)
    requires Reaches(c, Start(states), steps, m)
    ensures TickIsDue(m) && Conserved(m)
    ensures forall s | Enabled(m, s) :: !PopsEmpty(m, s)
    decreases |steps|
  {
    hide Next;
    if steps != [] {
      var last := Last(steps);
      var before :| Reaches(c, Start(states), DropLast(steps), before) && StepTo(c, before, last, m);
      EveryRunIsSafe(c, states, DropLast(steps), before);
      StepKeepsTick(c, before, last);
      StepConserves(c, before, last);
    }
  }

  // Theorem: when events that fit no rule are discarded, exactly one tick is due if and only if
  // the queue is not empty, and events are dealt with in the order they were accepted.
  lemma {:induction false} EveryDiscardingRunIsFifo(c: Config, states: map<Entity, State>, steps: seq<Step>, m: Machine)
    requires c.discard && Reaches(c, Start(states), steps, m)
    ensures ExactlyOneTick(m) && InOrder(m)
    decreases |steps|
  {
    hide Next;
    if steps != [] {
      var last := Last(steps);
      var before :| Reaches(c, Start(states), DropLast(steps), before) && StepTo(c, before, last, m);
      EveryDiscardingRunIsFifo(c, states, DropLast(steps), before);
      StepKeepsOneTick(c, before, last);
      StepKeepsOrder(c, before, last);
    }
  }

  // ---------------------------------------------------------------- requeued events

  // Events are queued and no tick is due.
  ghost predicate Stalled(m: Machine) {
    m.queue != [] && m.pending == 0 && m.phase.Idle?
  }

  // The step puts an event that fits no rule back behind an empty queue.
  predicate Strands(c: Config, m: Machine, s: Step) {
    s.TickApply? && m.phase.Decided? && m.queue == [] && !c.discard &&
    Handle(c.rules, m.phase.item.event, m.phase.source).NoRule?
  }

  // `m` is reached from `start` by the steps, and none of them strands an event.
  ghost predicate NeverStrands(c: Config, start: Machine, steps: seq<Step>, m: Machine)
    decreases |steps|
  {
    if steps == [] then m == start
    else
      exists before ::
        NeverStrands(c, start, DropLast(steps), before) && StepTo(c, before, Last(steps), m) &&
        !Strands(c, before, Last(steps))
  }

  lemma StepKeepsTickUnlessStranding(c: Config, m: Machine, s: Step)
    requires ExactlyOneTick(m) && Enabled(m, s)
    ensures !PopsEmpty(m, s)
    ensures Next(c, m, s).running ==>
              m.running &&
              (ExactlyOneTick(Next(c, m, s)) <==> !Strands(c, m, s)) && (Strands(c, m, s) ==> Stalled(Next(c, m, s)))
  {
    hide Handle;
  }

  lemma StepKeepsStalled(c: Config, m: Machine, s: Step)
    requires Stalled(m) && Enabled(m, s) && !PopsEmpty(m, s)
    ensures Stalled(Next(c, m, s)) && Next(c, m, s).finished == m.finished && m.queue <= Next(c, m, s).queue
    ensures Next(c, m, s).running ==> m.running
  {
    hide Handle;
  }

  lemma {:induction false} UnstrandedKeepsTick(c: Config, states: map<Entity, State>, steps: seq<Step>, m: Machine)
    requires NeverStrands(c, Start(states), steps, m)
    ensures ExactlyOneTick(m)
    decreases |steps|
  {
    hide Next, Strands;
    if steps != [] {
      var last := Last(steps);
      var before :| NeverStrands(c, Start(states), DropLast(steps), before) && StepTo(c, before, last, m) &&
                    !Strands(c, before, last);
      UnstrandedKeepsTick(c, states, DropLast(steps), before);
      StepKeepsTickUnlessStranding(c, before, last);
    }
  }

  lemma {:induction false} UnstrandedOrStalled(c: Config, states: map<Entity, State>, steps: seq<Step>, m: Machine)
    requires Reaches(c, Start(states), steps, m) && m.running
    ensures NeverStrands(c, Start(states), steps, m) || Stalled(m)
    decreases |steps|
  {
    hide Next, Strands, Stalled;
    if steps != [] {
      var last, front := Last(steps), DropLast(steps);
      var before :| Reaches(c, Start(states), front, before) && StepTo(c, before, last, m);
      assert before.running by { StoppedStays(c, before, last); }
      UnstrandedOrStalled(c, states, front, before);
      if NeverStrands(c, Start(states), front, before) {
        UnstrandedKeepsTick(c, states, front, before);
        StepKeepsTickUnlessStranding(c, before, last);
      } else {
        StepKeepsStalled(c, before, last);
      }
    }
  }

  lemma StoppedStays(c: Config, m: Machine, s: Step)
    requires Enabled(m, s) && !PopsEmpty(m, s)
    ensures Next(c, m, s).running ==> m.running
  {
    hide Handle;
  }

  // Theorem: over every run, a machine that is still running has exactly the tick it needs if and
  // only if no step of the run put an event back behind an empty queue; and it is stalled if and
  // only if one did.
  lemma StallsExactlyOnRequeue(c: Config, states: map<Entity, State>, steps: seq<Step>, m: Machine)
    requires Reaches(c, Start(states), steps, m) && m.running
    ensures ExactlyOneTick(m) <==> NeverStrands(c, Start(states), steps, m)
    ensures Stalled(m) <==> !NeverStrands(c, Start(states), steps, m)
  {
    hide Reaches, NeverStrands;
    UnstrandedOrStalled(c, states, steps, m);
    if NeverStrands(c, Start(states), steps, m) {
      UnstrandedKeepsTick(c, states, steps, m);
    }
  }

  // Such a machine stays stalled: sending more posts no tick, and nothing is ever dealt with.
  lemma {:induction false} StalledForever(c: Config, start: Machine, steps: seq<Step>, m: Machine)
    requires Stalled(start) && Reaches(c, start, steps, m)
    ensures Stalled(m) && m.finished == start.finished && start.queue <= m.queue
    decreases |steps|
  {
    hide Next, Stalled;
    if steps != [] {
      var last := Last(steps);
      var before :| Reaches(c, start, DropLast(steps), before) && StepTo(c, before, last, m);
      StalledForever(c, start, DropLast(steps), before);
      StepKeepsStalled(c, before, last);
    }
  }

  // One event without a rule is enough.
  lemma OneEventStalls()
    ensures var c := Config([], false);
            var sent := Next(c, Start(map[7 := 0]), Send(Item(7, 1, 0)));
            var popped := Next(c, sent, TickStart);
            var end := Next(c, Next(c, popped, TickLook), TickApply);
            Stalled(end) && end.running
  {
  }

  // ---------------------------------------------------------------- states

  // What handling the events one after the other does to the states.
  function Replay(rules: seq<Rule>, states: map<Entity, State>, items: seq<Item>): (r: map<Entity, State>)
    decreases |items|
  {
    if items == [] then states
    else
      var last := items[|items| - 1];
      var before := Replay(rules, states, items[..|items| - 1]);
      if last.entity !in before then before
      else
        match Handle(rules, last.event, before[last.entity])
        case Moved(to) => before[last.entity := to]
        case Threw => before
        case NoRule => before
  }

  ghost predicate OnlySends(steps: seq<Step>) {
    forall i | 0 <= i < |steps| :: !steps[i].Begin? && !steps[i].Force?
  }

  ghost predicate Replayed(c: Config, states: map<Entity, State>, m: Machine) {
    m.states == Replay(c.rules, states, m.finished) &&
    (m.phase.Decided? ==> m.phase.item.entity in m.states && m.phase.source == m.states[m.phase.item.entity])
  }

  lemma ReplayOne(rules: seq<Rule>, states: map<Entity, State>, items: seq<Item>, item: Item)
    ensures var before := Replay(rules, states, items);
            Replay(rules, states, items + [item]) ==
              if item.entity !in before then before
              else
                var o := Handle(rules, item.event, before[item.entity]);
                if o.Moved? then before[item.entity := o.to] else before
  {
    hide Handle;
    assert (items + [item])[..|items|] == items;
  }

  lemma StepKeepsReplayed(c: Config, states: map<Entity, State>, m: Machine, s: Step)
    requires c.discard && Replayed(c, states, m) && Enabled(m, s) && !PopsEmpty(m, s) && !s.Begin? && !s.Force?
    ensures Replayed(c, states, Next(c, m, s))
  {
    hide Handle, Replay;
    if s.TickLook? || s.TickApply? {
      ReplayOne(c.rules, states, m.finished, m.phase.item);
    }
  }

  // Theorem (refinement): while no other thread sets states, the states are those of handling, one
  // after the other, the first of the accepted events, in the order of acceptance; once the
  // machine has nothing left to do, of all of them.
  lemma {:induction false} StatesAreReplayed(c: Config, states: map<Entity, State>, steps: seq<Step>, m: Machine)
    requires c.discard && OnlySends(steps) && Reaches(c, Start(states), steps, m)
    ensures Replayed(c, states, m) && m.finished <= m.accepted
    ensures m.running && m.pending == 0 && m.phase.Idle? ==> m.states == Replay(c.rules, states, m.accepted)
    decreases |steps|
  {
    hide Next, Replay;
    EveryDiscardingRunIsFifo(c, states, steps, m);
    if steps == [] {
      assert Replay(c.rules, states, []) == states by { ReplayNone(c.rules, states); }
    } else {
      var last := Last(steps);
      var before :| Reaches(c, Start(states), DropLast(steps), before) && StepTo(c, before, last, m);
      StatesAreReplayed(c, states, DropLast(steps), before);
      StepKeepsReplayed(c, states, before, last);
    }
    assert m.pending == 0 && m.phase.Idle? && m.running ==> m.finished == m.accepted;
  }

  lemma ReplayNone(rules: seq<Rule>, states: map<Entity, State>)
    ensures Replay(rules, states, []) == states
  {
  }

  // The states reached do not depend on the order of the rules.
  lemma {:induction false} ReplayIgnoresRuleOrder(rules: seq<Rule>, other: seq<Rule>, states: map<Entity, State>,
                                                  items: seq<Item>)
    requires multiset(rules) == multiset(other) && Unambiguous(rules)
    ensures Replay(rules, states, items) == Replay(other, states, items)
    decreases |items|
  {
    hide Handle, Unambiguous;
    if items != [] {
      var last := items[|items| - 1];
      ReplayIgnoresRuleOrder(rules, other, states, items[..|items| - 1]);
      var before := Replay(rules, states, items[..|items| - 1]);
      if last.entity in before {
        OrderIsIrrelevant(rules, other, last.event, before[last.entity]);
      }
    }
  }
}
