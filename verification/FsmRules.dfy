// Transition rules of a state machine: how they are built, when a list of them is accepted, and
// which rule handles an event.
module FsmRules {
  import opened Base

  type State = nat
  type Event = nat

  datatype Rule = Rule(event: Event, fromAny: bool, transitions: map<State, State>, intermediary: set<State>) {
    // Every rule that the builder makes.
    ghost predicate Valid() {
      fromAny ==> transitions == map[]
    }

    predicate Applies(state: State) {
      fromAny || state in transitions
    }
  }

  // What looking up a rule yields; a rule from any state must have been given one destination.
  datatype Outcome = NoRule | Moved(to: State) | Threw

  function Dispatch(rule: Rule, state: State): (r: Outcome) {
    if rule.fromAny then
      if |rule.intermediary| != 1 then Threw else Moved(Only(rule.intermediary))
    else if state in rule.transitions then Moved(rule.transitions[state])
    else NoRule
  }

  function Only(s: set<State>): (x: State)
    requires |s| == 1
    ensures s == {x}
  {
    SingletonIsUnique(s);
    var x :| x in s;
    x
  }

  lemma SingletonIsUnique(s: set<State>)
    requires |s| == 1
    ensures exists x :: x in s
    ensures forall x, y | x in s && y in s :: x == y
    ensures forall x | x in s :: s == {x}
  {
    var x :| x in s;
    assert |s - {x}| == 0;
    assert s == {x};
  }

  // The first rule for the event that says something about the state.
  function Handle(rules: seq<Rule>, event: Event, state: State): (r: Outcome) {
    if rules == [] then NoRule
    else if rules[0].event == event && Dispatch(rules[0], state) != NoRule then Dispatch(rules[0], state)
    else Handle(rules[1..], event, state)
  }

  // ---------------------------------------------------------------- building rules

  ghost function Members(states: seq<State>): (r: set<State>) {
    set s | s in states
  }

  // The states that come before every one that is taken already.
  ghost function BelowConflict(states: set<State>, taken: set<State>): (r: set<State>) {
    set s | s in states && forall u | u in states && u in taken :: s < u
  }

  // A set is visited from its smallest element on.
  function Smallest(states: set<State>): (s: State)
    requires states != {}
    ensures s in states && forall u | u in states :: s <= u
  {
    ghost var x :| x in states;
    SmallestExists(states, x);
    var s :| s in states && forall u | u in states :: s <= u;
    s
  }

  lemma {:induction false} SmallestExists(states: set<State>, x: State)
    requires x in states
    ensures exists s :: s in states && forall u | u in states :: s <= u
    decreases x
  {
    if u :| u in states && u < x {
      SmallestExists(states, u);
    }
  }

  ghost function AllTo(from: set<State>, to: State): (r: map<State, State>) {
    map s | s in from :: to
  }

  class Transition {
    var rule: Rule

    constructor (event: Event)
      ensures rule == Rule(event, false, map[], {})
    {
      rule := Rule(event, false, map[], {});
    }

    // `ok` is false where the source throws.
    method From(state: State) returns (ok: bool)
      requires rule.Valid()
      modifies this
      ensures rule.Valid()
      ensures ok <==> !old(rule).fromAny && old(rule).intermediary == {}
      ensures rule == if ok then old(rule).(intermediary := {state}) else old(rule)
    {
      if rule.fromAny || rule.intermediary != {} {
        return false;
      }
      rule := rule.(intermediary := rule.intermediary + {state});
      return true;
    }

    method FromMany(states: seq<State>) returns (ok: bool)
      requires rule.Valid()
      modifies this
      ensures rule.Valid()
      ensures ok <==> !old(rule).fromAny && old(rule).intermediary == {}
      ensures rule == if ok then old(rule).(intermediary := Members(states)) else old(rule)
    {
      if rule.fromAny || rule.intermediary != {} {
        return false;
      }
      for i := 0 to |states|
        invariant rule == old(rule).(intermediary := Members(states[..i]))
      {
        rule := rule.(intermediary := rule.intermediary + {states[i]});
        assert states[..i + 1] == states[..i] + [states[i]];
      }
      assert states[..|states|] == states;
      return true;
    }

    method FromAny() returns (ok: bool)
      requires rule.Valid()
      modifies this
      ensures rule.Valid()
      ensures ok <==> old(rule).transitions == map[]
      ensures rule == if ok then old(rule).(fromAny := true) else old(rule)
    {
      if rule.transitions != map[] {
        return false;
      }
      rule := rule.(fromAny := true);
      return true;
    }

    // The source states waiting for a destination get it; from any state, the destination itself
    // is what is kept.
    method To(state: State) returns (ok: bool)
      requires rule.Valid()
      modifies this
      ensures rule.Valid()
      ensures ok <==> if old(rule).fromAny then old(rule).intermediary == {}
                      else old(rule).intermediary != {} && old(rule).intermediary !! old(rule).transitions.Keys
      ensures ok && old(rule).fromAny ==> rule == old(rule).(intermediary := {state})
      ensures ok && !old(rule).fromAny ==>
                rule == old(rule).(transitions := old(rule).transitions + AllTo(old(rule).intermediary, state),
                                   intermediary := {})
      // a refusal half way leaves the source states below the first conflict written
      ensures !ok && old(rule).fromAny ==> rule == old(rule)
      ensures !ok && !old(rule).fromAny ==>
                rule == old(rule).(transitions := old(rule).transitions +
                                     AllTo(BelowConflict(old(rule).intermediary, old(rule).transitions.Keys), state))
    {
      if rule.fromAny {
        if rule.intermediary != {} {
          return false;
        }
        rule := rule.(intermediary := {state});
        return true;
      }
      if rule.intermediary == {} {
        assert rule.transitions + AllTo({}, state) == rule.transitions;
        return false;
      }
      var left := rule.intermediary;
      ghost var was := rule;
      assert was.transitions + AllTo({}, state) == was.transitions;
      while left != {}
        invariant left <= was.intermediary
        invariant forall s, u | s in was.intermediary - left && u in left :: s < u
        invariant rule == was.(transitions := was.transitions + AllTo(was.intermediary - left, state))
        invariant (was.intermediary - left) !! was.transitions.Keys
      {
        var s := Smallest(left);
        ghost var done := was.intermediary - left;
        if s in rule.transitions {
          assert done == BelowConflict(was.intermediary, was.transitions.Keys);
          return false;
        }
        rule := rule.(transitions := rule.transitions[s := state]);
        left := left - {s};
        assert was.intermediary - left == done + {s};
      }
      assert was.intermediary - left == was.intermediary;
      rule := rule.(intermediary := {});
      return true;
    }

    method ToSameState() returns (ok: bool)
      requires rule.Valid()
      modifies this
      ensures rule.Valid()
      ensures ok <==> |old(rule).intermediary| == 1 && !old(rule).fromAny &&
                      old(rule).intermediary !! old(rule).transitions.Keys
      ensures ok ==> var s := Only(old(rule).intermediary);
                     rule == old(rule).(transitions := old(rule).transitions[s := s], intermediary := {})
    {
      if |rule.intermediary| != 1 {
        return false;
      }
      var s := Only(rule.intermediary);
      ghost var was := rule;
      ok := To(s);
      assert was.transitions + AllTo({s}, s) == was.transitions[s := s];
    }
  }

  // ---------------------------------------------------------------- accepting rules

  ghost predicate Conflict(a: Rule, b: Rule) {
    a.event == b.event && (a.fromAny || b.fromAny || !(a.transitions.Keys !! b.transitions.Keys))
  }

  ghost predicate Unambiguous(rules: seq<Rule>) {
    forall i, j | 0 <= i < j < |rules| :: !Conflict(rules[i], rules[j])
  }

  ghost predicate AllValid(rules: seq<Rule>) {
    forall i | 0 <= i < |rules| :: rules[i].Valid()
  }

  // What the checks of a rule against the rules before it rest on.
  ghost predicate Recorded(rules: seq<Rule>, fromAny: set<Event>, unique: map<Event, set<State>>) {
    && (forall e :: e in fromAny <==> exists i :: 0 <= i < |rules| && rules[i].event == e && rules[i].fromAny)
    && (forall e :: e in unique <==> exists i :: 0 <= i < |rules| && rules[i].event == e && !rules[i].fromAny)
    && (forall e, s :: e in unique && s in unique[e] <==>
                         exists i :: 0 <= i < |rules| && rules[i].event == e && !rules[i].fromAny && s in rules[i].transitions)
  }

  // Theorem: a list of rules is accepted if and only if no two rules for one event conflict.
  method ValidateTransitionRules(rules: seq<Rule>) returns (ok: bool)
    requires AllValid(rules)
    ensures ok <==> Unambiguous(rules)
  {
    hide Recorded, Conflict;
    var fromAny: set<Event> := {};
    var unique: map<Event, set<State>> := map[];
    NothingRecorded();
    assert rules[..0] == [];
    for n := 0 to |rules|
      invariant Recorded(rules[..n], fromAny, unique) && Unambiguous(rules[..n])
    {
      var rule := rules[n];
      var conflict := Clashes(rule, fromAny, unique);
      ClashIsConflict(rules[..n], rule, fromAny, unique);
      if conflict {
        ghost var i :| 0 <= i < n && Conflict(rules[..n][i], rule);
        assert Conflict(rules[i], rules[n]);
        return false;
      }
      assert rules[..n + 1] == rules[..n] + [rule];
      RecordOne(rules[..n], rule, fromAny, unique);
      if rule.fromAny {
        fromAny := fromAny + {rule.event};
      } else {
        unique := unique[rule.event := (if rule.event in unique then unique[rule.event] else {}) + rule.transitions.Keys];
      }
    }
    assert rules[..|rules|] == rules;
    return true;
  }

  method Clashes(rule: Rule, fromAny: set<Event>, unique: map<Event, set<State>>) returns (r: bool)
    ensures r <==> rule.event in fromAny || (rule.fromAny && rule.event in unique) ||
                   (rule.event in unique && !(rule.transitions.Keys !! unique[rule.event]))
  {
    if rule.event in fromAny {
      return true;
    }
    if rule.fromAny && rule.event in unique {
      return true;
    }
    var left := rule.transitions.Keys;
    while left != {}
      invariant left <= rule.transitions.Keys
      invariant rule.event in unique ==> (rule.transitions.Keys - left) !! unique[rule.event]
    {
      var s :| s in left;
      if rule.event in unique && s in unique[rule.event] {
        return true;
      }
      left := left - {s};
    }
    assert rule.transitions.Keys - left == rule.transitions.Keys;
    return false;
  }

  lemma NothingRecorded()
    ensures Recorded([], {}, map[])
  {
  }

  lemma ClashIsConflict(rules: seq<Rule>, rule: Rule, fromAny: set<Event>, unique: map<Event, set<State>>)
    requires Recorded(rules, fromAny, unique) && AllValid(rules) && rule.Valid()
    ensures (rule.event in fromAny || (rule.fromAny && rule.event in unique) ||
             (rule.event in unique && !(rule.transitions.Keys !! unique[rule.event])))
            <==> exists i :: 0 <= i < |rules| && Conflict(rules[i], rule)
  {
    if i :| 0 <= i < |rules| && Conflict(rules[i], rule) {
      if !rules[i].fromAny && !rule.fromAny {
        var s :| s in rules[i].transitions.Keys && s in rule.transitions.Keys;
        assert s in unique[rule.event];
      }
    }
    if rule.event in fromAny {
      var i :| 0 <= i < |rules| && rules[i].event == rule.event && rules[i].fromAny;
      assert Conflict(rules[i], rule);
    } else if rule.fromAny && rule.event in unique {
      var i :| 0 <= i < |rules| && rules[i].event == rule.event && !rules[i].fromAny;
      assert Conflict(rules[i], rule);
    } else if rule.event in unique && !(rule.transitions.Keys !! unique[rule.event]) {
      var s :| s in rule.transitions.Keys && s in unique[rule.event];
      var i :| 0 <= i < |rules| && rules[i].event == rule.event && !rules[i].fromAny && s in rules[i].transitions;
      assert Conflict(rules[i], rule);
    }
  }

  lemma RecordOne(rules: seq<Rule>, rule: Rule, fromAny: set<Event>, unique: map<Event, set<State>>)
    requires Recorded(rules, fromAny, unique)
    ensures rule.fromAny ==> Recorded(rules + [rule], fromAny + {rule.event}, unique)
    ensures !rule.fromAny ==>
              Recorded(rules + [rule], fromAny,
                       unique[rule.event := (if rule.event in unique then unique[rule.event] else {}) + rule.transitions.Keys])
  {
    var more := rules + [rule];
    assert more[|rules|] == rule;
    assert forall i | 0 <= i < |rules| :: more[i] == rules[i];
  }

  // ---------------------------------------------------------------- one rule at most

  // Theorem: of an accepted list, at most one rule for an event says something about a state.
  lemma AtMostOneRule(rules: seq<Rule>, i: nat, j: nat, state: State)
    requires Unambiguous(rules) && i < |rules| && j < |rules| && rules[i].event == rules[j].event
    ensures i != j ==> !rules[i].Applies(state) || !rules[j].Applies(state)
  {
    assert i < j ==> !Conflict(rules[i], rules[j]);
    assert j < i ==> !Conflict(rules[j], rules[i]);
  }

  lemma DispatchApplies(rule: Rule, state: State)
    ensures Dispatch(rule, state) != NoRule <==> rule.Applies(state)
  {
  }

  // The rule that handles an event is the one that applies, wherever it stands.
  lemma {:induction false} HandledByTheOne(rules: seq<Rule>, i: nat, state: State)
    requires Unambiguous(rules) && i < |rules| && rules[i].Applies(state)
    ensures Handle(rules, rules[i].event, state) == Dispatch(rules[i], state)
    decreases i
  {
    hide Conflict, Dispatch;
    DispatchApplies(rules[i], state);
    if i > 0 {
      DispatchApplies(rules[0], state);
      if rules[0].event == rules[i].event {
        AtMostOneRule(rules, 0, i, state);
      }
      assert Unambiguous(rules[1..]) by {
        forall a, b | 0 <= a < b < |rules[1..]| ensures !Conflict(rules[1..][a], rules[1..][b]) {
          assert !Conflict(rules[a + 1], rules[b + 1]);
        }
      }
      HandledByTheOne(rules[1..], i - 1, state);
    }
  }

  lemma {:induction false} HandledByNone(rules: seq<Rule>, event: Event, state: State)
    requires forall i | 0 <= i < |rules| :: rules[i].event != event || !rules[i].Applies(state)
    ensures Handle(rules, event, state) == NoRule
  {
    hide Dispatch;
    if rules != [] {
      DispatchApplies(rules[0], state);
      assert forall i | 0 <= i < |rules[1..]| :: rules[1..][i] == rules[i + 1];
      HandledByNone(rules[1..], event, state);
    }
  }

  // The rule was built to take the state to `to` on the event.
  ghost predicate Leads(rule: Rule, event: Event, state: State, to: State) {
    rule.event == event &&
    if rule.fromAny then rule.intermediary == {to}
    else state in rule.transitions && rule.transitions[state] == to
  }

  ghost predicate SomeRuleLeads(rules: seq<Rule>, event: Event, state: State, to: State) {
    exists i :: 0 <= i < |rules| && Leads(rules[i], event, state, to)
  }

  ghost predicate NoRuleApplies(rules: seq<Rule>, event: Event, state: State) {
    forall i | 0 <= i < |rules| && rules[i].event == event :: !rules[i].fromAny && state !in rules[i].transitions
  }

  // Theorem: with accepted rules, an event takes a state to another if and only if a rule was built
  // to do so, and is without a rule if and only if no rule for the event applies.
  lemma HandledAsBuilt(rules: seq<Rule>, event: Event, state: State)
    requires Unambiguous(rules)
    ensures forall to :: Handle(rules, event, state) == Moved(to) <==> SomeRuleLeads(rules, event, state, to)
    ensures Handle(rules, event, state) == NoRule <==> NoRuleApplies(rules, event, state)
  {
    hide Handle, Unambiguous;
    if i :| 0 <= i < |rules| && rules[i].event == event && rules[i].Applies(state) {
      HandledByTheOne(rules, i, state);
      forall to
        ensures Handle(rules, event, state) == Moved(to) <==> SomeRuleLeads(rules, event, state, to)
      {
        LeadsAlone(rules, i, state, to);
      }
    } else {
      HandledByNone(rules, event, state);
    }
  }

  lemma LeadsAlone(rules: seq<Rule>, i: nat, state: State, to: State)
    requires Unambiguous(rules) && i < |rules| && rules[i].Applies(state)
    ensures SomeRuleLeads(rules, rules[i].event, state, to) <==> Dispatch(rules[i], state) == Moved(to)
  {
    hide Unambiguous;
    if rules[i].fromAny && rules[i].intermediary == {to} {
      assert |rules[i].intermediary| == 1;
    }
    if j :| 0 <= j < |rules| && Leads(rules[j], rules[i].event, state, to) {
      AtMostOneRule(rules, i, j, state);
    }
    if Dispatch(rules[i], state) == Moved(to) {
      assert Leads(rules[i], rules[i].event, state, to);
    }
  }

  lemma IndexOf(rules: seq<Rule>, rule: Rule) returns (i: nat)
    requires rule in multiset(rules)
    ensures i < |rules| && rules[i] == rule
  {
    assert rule in rules;
    i :| 0 <= i < |rules| && rules[i] == rule;
  }

  // Theorem: the outcome of an event does not depend on the order of the rules.
  lemma OrderIsIrrelevant(rules: seq<Rule>, other: seq<Rule>, event: Event, state: State)
    requires multiset(rules) == multiset(other) && Unambiguous(rules)
    ensures Handle(rules, event, state) == Handle(other, event, state)
  {
    hide Handle, Unambiguous;
    OrderKeepsUnambiguous(rules, other);
    if i :| 0 <= i < |rules| && rules[i].event == event && rules[i].Applies(state) {
      HandledByTheOne(rules, i, state);
      assert rules[i] in multiset(rules);
      var j := IndexOf(other, rules[i]);
      HandledByTheOne(other, j, state);
    } else {
      HandledByNone(rules, event, state);
      forall j | 0 <= j < |other| ensures other[j].event != event || !other[j].Applies(state) {
        assert other[j] in multiset(other);
        var i := IndexOf(rules, other[j]);
      }
      HandledByNone(other, event, state);
    }
  }

  lemma SecondPlace(rules: seq<Rule>, i: nat) returns (j: nat)
    requires i < |rules| && multiset(rules)[rules[i]] >= 2
    ensures j < |rules| && j != i && rules[j] == rules[i]
  {
    var rest := rules[..i] + rules[i + 1..];
    assert rules == rules[..i] + [rules[i]] + rules[i + 1..];
    assert multiset(rules) == multiset(rest) + multiset{rules[i]};
    var k := IndexOf(rest, rules[i]);
    j := if k < i then k else k + 1;
  }

  // Whether a list is accepted does not depend on the order either.
  lemma OrderKeepsUnambiguous(rules: seq<Rule>, other: seq<Rule>)
    requires multiset(rules) == multiset(other) && Unambiguous(rules)
    ensures Unambiguous(other)
  {
    hide Conflict;
    forall a, b | 0 <= a < b < |other| ensures !Conflict(other[a], other[b]) {
      assert other[a] in multiset(other) && other[b] in multiset(other);
      var i := IndexOf(rules, other[a]);
      var j := IndexOf(rules, other[b]);
      if other[a] == other[b] {
        TwoPlaces(other, a, b);
        j := SecondPlace(rules, i);
      }
      ConflictIsSymmetric(rules[i], rules[j]);
      assert i < j ==> !Conflict(rules[i], rules[j]);
      assert j < i ==> !Conflict(rules[j], rules[i]);
    }
  }

  lemma ConflictIsSymmetric(a: Rule, b: Rule)
    ensures Conflict(a, b) == Conflict(b, a)
  {
  }

  // Tries the rules one after the other.
  method HandleEvent(rules: seq<Rule>, event: Event, state: State) returns (r: Outcome)
    ensures r == Handle(rules, event, state)
    ensures Unambiguous(rules) ==> forall to :: r == Moved(to) <==> SomeRuleLeads(rules, event, state, to)
    ensures Unambiguous(rules) ==> (r == NoRule <==> NoRuleApplies(rules, event, state))
  {
    hide Dispatch, Conflict, SomeRuleLeads, NoRuleApplies;
    if Unambiguous(rules) {
      HandledAsBuilt(rules, event, state);
    }
    for i := 0 to |rules|
      invariant Handle(rules, event, state) == Handle(rules[i..], event, state)
    {
      assert rules[i..][0] == rules[i] && rules[i..][1..] == rules[i + 1..];
      if rules[i].event == event {
        var found := Dispatch(rules[i], state);
        if found != NoRule {
          return found;
        }
      }
    }
    return NoRule;
  }
}
