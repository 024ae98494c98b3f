// Waiting for n results from any threads: every slot callback stores its result and counts down an
// atomic counter; an error claims the counter at once.
module AsyncAll {
  import opened Base

  type Value = nat
  type Error = nat
  type Answer = Result<seq<Option<Value>>, Error>

  // Where the callback of one slot stands, step by step.
  datatype Phase = Waiting | Written | FiringAll | FiringError(error: Error) | Done

  datatype Wait = Wait(
    counter: int, values: seq<Option<Value>>, phases: seq<Phase>,
    // history: what each slot was given, and the calls of the final callback
    given: seq<Option<Result<Value, Error>>>, fired: seq<Answer>)

  function Start(n: nat): (w: Wait) {
    Wait(n, seq(n, _ => None), seq(n, _ => Waiting), seq(n, _ => None), [])
  }

  // ---------------------------------------------------------------- steps

  // The atomic steps of slot `i`: an error exchanges the counter for -1; a value is stored, then
  // the counter is decremented; whoever finds the counter ready calls the final callback.
  datatype Step = Fail(i: nat, error: Error) | Store(i: nat, value: Value) | Decrement(i: nat) | Fire(i: nat)

  predicate Enabled(w: Wait, s: Step) {
    s.i < |w.phases| &&
    match s
    case Fail(i, _) => w.phases[i].Waiting?
    case Store(i, _) => w.phases[i].Waiting?
    case Decrement(i) => w.phases[i].Written?
    case Fire(i) => w.phases[i].FiringAll? || w.phases[i].FiringError?
  }

  ghost predicate Sized(w: Wait) {
    |w.values| == |w.phases| == |w.given|
  }

  function Next(w: Wait, s: Step): (r: Wait)
    requires Enabled(w, s) && |w.values| == |w.phases| == |w.given|
    ensures Sized(r) && |r.phases| == |w.phases|
  {
    match s
    case Fail(i, e) =>
      w.(counter := -1, phases := w.phases[i := if w.counter > 0 then FiringError(e) else Done],
         given := w.given[i := Some(Err(e))])
    case Store(i, v) =>
      w.(values := w.values[i := Some(v)], phases := w.phases[i := Written], given := w.given[i := Some(Ok(v))])
    case Decrement(i) =>
      w.(counter := w.counter - 1, phases := w.phases[i := if w.counter == 1 then FiringAll else Done])
    case Fire(i) =>
      w.(phases := w.phases[i := Done],
         fired := w.fired + [if w.phases[i].FiringError? then Err(w.phases[i].error) else Ok(w.values)])
  }

  // Every interleaving: steps that are not possible when they come are left out.
  function Run(n: nat, steps: seq<Step>): (w: Wait)
    ensures Sized(w) && |w.phases| == n
    decreases |steps|
  {
    if steps == [] then Start(n)
    else
      var before := Run(n, steps[..|steps| - 1]);
      var s := steps[|steps| - 1];
      if Enabled(before, s) then Next(before, s) else before
  }

  // ---------------------------------------------------------------- counting slots

  predicate IsFiring(p: Phase) {
    p.FiringAll? || p.FiringError?
  }

  predicate IsPending(p: Phase) {
    p.Waiting? || p.Written?
  }

  ghost function Firing(phases: seq<Phase>): (k: nat)
    ensures k == 0 <==> forall i | 0 <= i < |phases| :: !IsFiring(phases[i])
  {
    if phases == [] then 0
    else
      assert forall i | 0 < i < |phases| :: phases[1..][i - 1] == phases[i];
      (if IsFiring(phases[0]) then 1 else 0) + Firing(phases[1..])
  }

  ghost function Pending(phases: seq<Phase>): (k: nat)
    ensures k == 0 <==> forall i | 0 <= i < |phases| :: !IsPending(phases[i])
  {
    if phases == [] then 0
    else
      assert forall i | 0 < i < |phases| :: phases[1..][i - 1] == phases[i];
      (if IsPending(phases[0]) then 1 else 0) + Pending(phases[1..])
  }

  lemma {:induction false} FiringUpdate(phases: seq<Phase>, i: nat, p: Phase)
    requires i < |phases|
    ensures Firing(phases[i := p]) ==
            Firing(phases) - (if IsFiring(phases[i]) then 1 else 0) + (if IsFiring(p) then 1 else 0)
  {
    if i > 0 {
      assert phases[i := p][1..] == phases[1..][i - 1 := p];
      FiringUpdate(phases[1..], i - 1, p);
    } else {
      assert phases[i := p][1..] == phases[1..];
    }
  }

  lemma {:induction false} PendingUpdate(phases: seq<Phase>, i: nat, p: Phase)
    requires i < |phases|
    ensures Pending(phases[i := p]) ==
            Pending(phases) - (if IsPending(phases[i]) then 1 else 0) + (if IsPending(p) then 1 else 0)
  {
    if i > 0 {
      assert phases[i := p][1..] == phases[1..][i - 1 := p];
      PendingUpdate(phases[1..], i - 1, p);
    } else {
      assert phases[i := p][1..] == phases[1..];
    }
  }

  lemma {:induction false} AllPending(n: nat)
    ensures Pending(seq(n, _ => Waiting)) == n && Firing(seq(n, _ => Waiting)) == 0
  {
    if n > 0 {
      var phases: seq<Phase> := seq(n, _ => Waiting);
      assert phases[1..] == seq(n - 1, _ => Waiting);
      AllPending(n - 1);
    }
  }

  // ---------------------------------------------------------------- the invariant

  predicate Failed(w: Wait) {
    exists i :: 0 <= i < |w.given| && w.given[i].Some? && w.given[i].value.Err?
  }

  ghost predicate WasGiven(w: Wait, e: Error) {
    exists i :: 0 <= i < |w.given| && w.given[i] == Some(Err(e))
  }

  // What each slot has stored is what it was given.
  ghost predicate Kept(w: Wait) {
    Sized(w) &&
    forall i | 0 <= i < |w.phases| ::
      && (w.phases[i].Waiting? <==> w.given[i].None?)
      && (w.phases[i].Written? || w.phases[i].FiringAll? ==> w.given[i].Some? && w.given[i].value.Ok?)
      && (w.phases[i].FiringError? ==> w.given[i] == Some(Err(w.phases[i].error)))
      && (w.given[i].Some? && w.given[i].value.Ok? ==> w.values[i] == Some(w.given[i].value.value))
  }

  // Every slot was given a value, and the values are those.
  ghost predicate Complete(w: Wait, values: seq<Option<Value>>) {
    |values| == |w.given| &&
    forall i | 0 <= i < |w.given| :: w.given[i].Some? && w.given[i].value.Ok? && values[i] == Some(w.given[i].value.value)
  }

  // While nothing failed the counter is the number of slots still to count down; after a failure
  // it is negative. The final callback was called or is about to be called once, when and only
  // when the counter came to its end.
  ghost predicate Counted(w: Wait) {
    && (!Failed(w) ==> w.counter == Pending(w.phases))
    && (Failed(w) ==> Pending(w.phases) - |w.phases| <= w.counter < 0)
    && |w.fired| + Firing(w.phases) == (if w.counter <= 0 then 1 else 0)
    && (forall k | 0 <= k < |w.fired| ::
          match w.fired[k]
          case Ok(values) => Complete(w, values)
          case Err(e) => WasGiven(w, e))
    && (forall i | 0 <= i < |w.phases| :: w.phases[i].FiringAll? ==> !Failed(w) && w.counter == 0)
  }

  lemma StepKeepsKept(w: Wait, s: Step)
    requires Kept(w) && Enabled(w, s)
    ensures Kept(Next(w, s))
  {
  }

  lemma StepKeepsFailed(w: Wait, s: Step)
    requires Kept(w) && Enabled(w, s)
    ensures Failed(Next(w, s)) <==> Failed(w) || s.Fail?
    ensures forall e: Error | WasGiven(w, e) :: WasGiven(Next(w, s), e)
    ensures s.Fail? ==> WasGiven(Next(w, s), s.error)
  {
    var r := Next(w, s);
    assert r.given[s.i] == r.given[s.i];
    assert forall i | 0 <= i < |w.given| && i != s.i :: r.given[i] == w.given[i];
    if Failed(w) {
      var i :| 0 <= i < |w.given| && w.given[i].Some? && w.given[i].value.Err?;
      assert r.given[i] == w.given[i];
    }
    forall e: Error | WasGiven(w, e) ensures WasGiven(r, e) {
      var i :| 0 <= i < |w.given| && w.given[i] == Some(Err(e));
      assert r.given[i] == w.given[i];
    }
  }

  // With nothing pending and nothing failed, the values are complete.
  lemma NothingPendingIsComplete(w: Wait)
    requires Kept(w) && !Failed(w) && Pending(w.phases) == 0
    ensures Complete(w, w.values)
  {
    forall i | 0 <= i < |w.given| ensures w.given[i].Some? && w.given[i].value.Ok? && w.values[i] == Some(w.given[i].value.value) {
      assert !IsPending(w.phases[i]);
    }
  }

  // A complete wait has no slot left that could take a step other than firing.
  lemma CompleteIsFinal(w: Wait, s: Step, values: seq<Option<Value>>)
    requires Kept(w) && Enabled(w, s) && Complete(w, values)
    ensures Complete(Next(w, s), values)
  {
    assert w.given[s.i].Some?;
  }

  lemma StepKeepsFired(w: Wait, s: Step)
    requires Kept(w) && Counted(w) && Enabled(w, s)
    ensures forall k | 0 <= k < |Next(w, s).fired| ::
              match Next(w, s).fired[k]
              case Ok(values) => Complete(Next(w, s), values)
              case Err(e) => WasGiven(Next(w, s), e)
  {
    hide Complete, WasGiven, Pending, Firing, Failed;
    var r := Next(w, s);
    StepKeepsFailed(w, s);
    forall k | 0 <= k < |r.fired|
      ensures match r.fired[k] case Ok(values) => Complete(r, values) case Err(e) => WasGiven(r, e)
    {
      if k < |w.fired| {
        assert r.fired[k] == w.fired[k];
        if w.fired[k].Ok? {
          CompleteIsFinal(w, s, w.fired[k].value);
        }
      } else if w.phases[s.i].FiringAll? {
        NothingPendingIsComplete(w);
        CompleteIsFinal(w, s, w.values);
      } else {
        ErrorWasGiven(w, s.i);
      }
    }
  }

  lemma ErrorWasGiven(w: Wait, i: nat)
    requires Kept(w) && i < |w.phases| && w.phases[i].FiringError?
    ensures WasGiven(w, w.phases[i].error)
  {
  }

  lemma StepKeepsCounter(w: Wait, s: Step)
    requires Kept(w) && Counted(w) && Enabled(w, s)
    ensures var r := Next(w, s);
            && (!Failed(r) ==> r.counter == Pending(r.phases))
            && (Failed(r) ==> Pending(r.phases) - |r.phases| <= r.counter < 0)
            && |r.fired| + Firing(r.phases) == (if r.counter <= 0 then 1 else 0)
            && (forall i | 0 <= i < |r.phases| :: r.phases[i].FiringAll? ==> !Failed(r) && r.counter == 0)
  {
    hide Complete, WasGiven, Failed, Pending, Firing;
    var r := Next(w, s);
    StepKeepsFailed(w, s);
    PendingUpdate(w.phases, s.i, r.phases[s.i]);
    FiringUpdate(w.phases, s.i, r.phases[s.i]);
    PendingAtMostAll(w.phases);
    if IsPending(w.phases[s.i]) {
      PendingIsCounted(w.phases, s.i);
    }
  }

  lemma PendingIsCounted(phases: seq<Phase>, i: nat)
    requires i < |phases| && IsPending(phases[i])
    ensures Pending(phases) > 0
  {
  }

  lemma {:induction false} PendingAtMostAll(phases: seq<Phase>)
    ensures Pending(phases) <= |phases|
  {
    if phases != [] {
      PendingAtMostAll(phases[1..]);
    }
  }

  lemma StartIsCounted(n: nat)
    requires n > 0
    ensures Kept(Start(n)) && Counted(Start(n))
  {
    AllPending(n);
  }

  lemma {:induction false} EveryRunIsCounted(n: nat, steps: seq<Step>)
    requires n > 0
    ensures Kept(Run(n, steps)) && Counted(Run(n, steps))
    decreases |steps|
  {
    hide Kept, Next, Counted;
    if steps == [] {
      StartIsCounted(n);
    } else {
      var before, s := Run(n, steps[..|steps| - 1]), steps[|steps| - 1];
      EveryRunIsCounted(n, steps[..|steps| - 1]);
      if Enabled(before, s) {
        StepKeepsKept(before, s);
        StepKeepsCounted(before, s);
      }
    }
  }

  lemma StepKeepsCounted(w: Wait, s: Step)
    requires Kept(w) && Counted(w) && Enabled(w, s)
    ensures Counted(Next(w, s))
  {
    hide Complete, WasGiven, Failed, Pending, Firing, Kept, Next;
    StepKeepsCounter(w, s);
    StepKeepsFired(w, s);
  }

  // ---------------------------------------------------------------- the theorem

  // Theorem: in every interleaving the final callback is called at most once. It reports values
  // only if every slot was given one, and then value i is at index i; it reports an error only if
  // that error was given to a slot. When every slot has run, it was called, and reports values if
  // and only if no slot failed. The counter stays between -n and n.
  lemma FiresOnce(n: nat, steps: seq<Step>)
    requires n > 0
    ensures var w := Run(n, steps);
            && |w.fired| <= 1 && w.counter <= n && w.counter + n >= 0
            && (forall k | 0 <= k < |w.fired| ::
                  match w.fired[k]
                  case Ok(values) => Complete(w, values)
                  case Err(e) => WasGiven(w, e))
            && ((forall i | 0 <= i < n :: w.phases[i].Done?) ==>
                  |w.fired| == 1 && (w.fired[0].Ok? <==> !Failed(w)))
  {
    hide Run, Complete, WasGiven;
    EveryRunIsCounted(n, steps);
    var w := Run(n, steps);
    PendingAtMostAll(w.phases);
    if forall i | 0 <= i < n :: w.phases[i].Done? {
      assert Firing(w.phases) == 0 && Pending(w.phases) == 0;
      assert |w.fired| == 1;
      FiredTellsFailure(w);
    }
  }

  lemma FiredTellsFailure(w: Wait)
    requires |w.fired| == 1
    requires match w.fired[0]
             case Ok(values) => Complete(w, values)
             case Err(e) => WasGiven(w, e)
    ensures w.fired[0].Ok? <==> !Failed(w)
  {
  }

  // ---------------------------------------------------------------- the object

  class AsyncAllObject {
    var counter: int
    var values: seq<Option<Value>>
    var fired: seq<Answer>
    ghost var phases: seq<Phase>
    ghost var given: seq<Option<Result<Value, Error>>>

    ghost function View(): (w: Wait)
      reads this
    {
      Wait(counter, values, phases, given, fired)
    }

    constructor (n: nat)
      requires n != 0
      ensures View() == Start(n)
    {
      counter, values, fired := n, seq(n, _ => None), [];
      phases, given := seq(n, _ => Waiting), seq(n, _ => None);
    }

    // The whole callback of slot `i`, its steps in a row.
    method On(i: nat, result: Result<Value, Error>)
      requires Sized(View()) && i < |phases| && phases[i].Waiting?
      modifies this
      ensures View() == WholeCallback(old(View()), i, result)
    {
      if result.Err? {
        var was := counter;
        counter := -1;
        given := given[i := Some(result)];
        phases := phases[i := Done];
        if was > 0 {
          fired := fired + [Err(result.error)];
        }
      } else {
        values := values[i := Some(result.value)];
        given := given[i := Some(result)];
        counter := counter - 1;
        phases := phases[i := Done];
        if counter == 0 {
          fired := fired + [Ok(values)];
        }
      }
    }
  }

  ghost function FireIfDue(w: Wait, i: nat): (r: Wait)
    requires Sized(w) && i < |w.phases|
  {
    if Enabled(w, Fire(i)) then Next(w, Fire(i)) else w
  }

  ghost function WholeCallback(w: Wait, i: nat, result: Result<Value, Error>): (r: Wait)
    requires Sized(w) && i < |w.phases| && w.phases[i].Waiting?
  {
    match result
    case Err(e) => FireIfDue(Next(w, Fail(i, e)), i)
    case Ok(v) => FireIfDue(Next(Next(w, Store(i, v)), Decrement(i)), i)
  }
}
