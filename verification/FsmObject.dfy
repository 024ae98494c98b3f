// The state machine as an object.
module FsmObject {
  import opened Base
  import opened FsmRules
  import opened FsmRuns

  class FSM {
    const rules: seq<Rule>
    const discard: bool
    var running: bool
    var queue: seq<Item>
    var states: map<Entity, State>
    // Ticks posted to the io context.
    var pending: nat
    // Transitions reported to the callback: entity, event, source and destination.
    var changes: seq<(Entity, Event, State, State)>
    ghost var accepted: seq<Item>
    ghost var finished: seq<Item>

    ghost function View(): (m: Machine)
      reads this
    {
      Machine(running, queue, states, pending, Idle, accepted, finished)
    }

    function Settings(): (c: Config) {
      Config(rules, discard)
    }

    // Rules that are accepted are kept in order.
    constructor (rules: seq<Rule>, discard: bool)
      requires AllValid(rules) && Unambiguous(rules)
      ensures View() == Start(map[]) && this.rules == rules && this.discard == discard && changes == []
    {
      this.rules, this.discard := rules, discard;
      running, queue, states, pending, changes := true, [], map[], 0, [];
      accepted, finished := [], [];
    }

    method Begin(entity: Entity, state: State) returns (ok: bool)
      modifies this`states
      ensures ok <==> entity !in old(states)
      ensures states == if ok then old(states)[entity := state] else old(states)
      ensures ok <==> Enabled(old(View()), Step.Begin(entity, state))
      ensures View() == if ok then Next(Settings(), old(View()), Step.Begin(entity, state)) else old(View())
    {
      if entity in states {
        return false;
      }
      states := states[entity := state];
      return true;
    }

    method Force(entity: Entity, state: State) returns (ok: bool)
      modifies this`states
      ensures ok <==> entity in old(states)
      ensures states == if ok then old(states)[entity := state] else old(states)
      ensures ok <==> Enabled(old(View()), Step.Force(entity, state))
      ensures View() == if ok then Next(Settings(), old(View()), Step.Force(entity, state)) else old(View())
    {
      if entity !in states {
        return false;
      }
      states := states[entity := state];
      return true;
    }

    method Send(entity: Entity, event: Event, context: nat) returns (ok: bool)
      modifies this`queue, this`pending, this`accepted
      ensures ok == running
      ensures queue == if ok then old(queue) + [Item(entity, event, context)] else old(queue)
      ensures pending == if ok && old(queue) == [] then old(pending) + 1 else old(pending)
      ensures View() == if ok then Next(Settings(), old(View()), Step.Send(Item(entity, event, context))) else old(View())
    {
      if !running {
        return false;
      }
      var wasEmpty := queue == [];
      queue := queue + [Item(entity, event, context)];
      accepted := accepted + [Item(entity, event, context)];
      if wasEmpty {
        pending := pending + 1;
      }
      return true;
    }

    method Stop()
      modifies this`running
      ensures !running
      ensures View() == Next(Settings(), old(View()), Step.Stop)
    {
      running := false;
    }

    // The io context runs a posted tick; a stopped machine ignores it. The whole tick is the three
    // steps in a row, and every transition made is reported once.
    method RunPosted() returns (threw: bool)
      requires TickIsDue(View()) && pending > 0
      modifies this`queue, this`pending, this`states, this`changes, this`finished
      ensures !old(running) ==>
                View() == Next(Settings(), old(View()), TickDropped) && changes == old(changes) && !threw
      ensures old(running) ==>
                var popped := Next(Settings(), old(View()), TickStart);
                var looked := Next(Settings(), popped, TickLook);
                View() == (if looked.phase.Idle? then looked else Next(Settings(), looked, TickApply)) &&
                changes == old(changes) + Reported(rules, looked) &&
                (threw <==> looked.phase.Decided? && Handle(rules, looked.phase.item.event, looked.phase.source).Threw?)
      // as the rules were built
      ensures old(running) && Unambiguous(rules) && old(queue)[0].entity in old(states) ==>
                var item := old(queue)[0];
                var source := old(states)[item.entity];
                forall to | SomeRuleLeads(rules, item.event, source, to) ::
                  && states == old(states)[item.entity := to] && queue == old(queue)[1..]
                  && changes == old(changes) + [(item.entity, item.event, source, to)]
      ensures old(running) && Unambiguous(rules) && old(queue)[0].entity in old(states) ==>
                var item := old(queue)[0];
                NoRuleApplies(rules, item.event, old(states)[item.entity]) ==>
                  && states == old(states) && changes == old(changes)
                  && queue == old(queue)[1..] + (if discard then [] else [item])
      ensures old(running) && old(queue)[0].entity !in old(states) ==>
                states == old(states) && changes == old(changes) && queue == old(queue)[1..]
    {
      hide Handle, Unambiguous, SomeRuleLeads, NoRuleApplies;
      pending := pending - 1;
      if !running {
        return false;
      }
      var item := queue[0];
      queue := queue[1..];
      if queue != [] {
        pending := pending + 1;
      }
      if item.entity !in states {
        finished := finished + [item];
        return false;
      }
      threw := ApplyRule(item, states[item.entity]);
    }

    // The rule for the event and the state read before.
    method ApplyRule(item: Item, source: State) returns (threw: bool)
      modifies this`queue, this`states, this`changes, this`finished
      ensures var decided := old(View()).(phase := Decided(item, source));
              && View() == Next(Settings(), decided, TickApply) && changes == old(changes) + Reported(rules, decided)
              && (threw <==> Handle(rules, item.event, source).Threw?)
      ensures Unambiguous(rules) ==>
                forall to | SomeRuleLeads(rules, item.event, source, to) ::
                  && states == old(states)[item.entity := to] && queue == old(queue)
                  && changes == old(changes) + [(item.entity, item.event, source, to)]
      ensures Unambiguous(rules) && NoRuleApplies(rules, item.event, source) ==>
                && states == old(states) && changes == old(changes)
                && queue == old(queue) + (if discard then [] else [item])
    {
      hide Handle, Unambiguous, SomeRuleLeads, NoRuleApplies;
      var found := HandleEvent(rules, item.event, source);
      threw := found.Threw?;
      if found.Moved? {
        states := states[item.entity := found.to];
        changes := changes + [(item.entity, item.event, source, found.to)];
      }
      if found.NoRule? && !discard {
        queue := queue + [item];
      } else {
        finished := finished + [item];
      }
    }
  }

  // The change that a tick reports.
  function Reported(rules: seq<Rule>, m: Machine): (r: seq<(Entity, Event, State, State)>) {
    if !m.phase.Decided? then []
    else
      var o := Handle(rules, m.phase.item.event, m.phase.source);
      if o.Moved? then [(m.phase.item.entity, m.phase.item.event, m.phase.source, o.to)] else []
  }

  // The factory: a machine for the rules, or none when they are ambiguous.
  method CreateFsm(rules: seq<Rule>, discard: bool) returns (fsm: FSM?)
    requires AllValid(rules)
    ensures fsm == null <==> !Unambiguous(rules)
    ensures fsm != null ==> fresh(fsm) && fsm.View() == Start(map[]) && fsm.Settings() == Config(rules, discard)
  {
    hide Unambiguous;
    var ok := ValidateTransitionRules(rules);
    if !ok {
      return null;
    }
    fsm := new FSM(rules, discard);
  }

  // A machine with one rule built with From and To: sending the event moves the entity, and reports
  // the move.
  method OneTransition(event: Event, from: State, to: State, entity: Entity, context: nat, discard: bool)
    returns (fsm: FSM)
    ensures fsm.states == map[entity := to] && fsm.changes == [(entity, event, from, to)]
    ensures fsm.queue == [] && fsm.pending == 0
  {
    var transition := new Transition(event);
    var ok := transition.From(from);
    ok := transition.To(to);
    var rules := [transition.rule];
    assert Leads(rules[0], event, from, to);
    assert SomeRuleLeads(rules, event, from, to);
    fsm := new FSM(rules, discard);
    ok := fsm.Begin(entity, from);
    ok := fsm.Send(entity, event, context);
    var threw := fsm.RunPosted();
  }
}
