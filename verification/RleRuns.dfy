// Sets of 64-bit numbers as run lengths. A std::set is given by its elements in order.
module RleRuns {
  import opened Base

  ghost predicate Ascending(data: seq<U64>) {
    |data| < TWO_64 && forall i, j | 0 <= i < j < |data| :: data[i] < data[j]
  }

  ghost function Elements(data: seq<U64>): (s: set<U64>) {
    set x | x in data
  }

  // The numbers value, value + 1, ... of a run, in 64-bit arithmetic.
  ghost function Span(value: U64, run: U64): (s: set<U64>) {
    set x: int | 0 <= x < TWO_64 && InSpan(x, value, run)
  }

  predicate InSpan(x: int, value: int, run: int) {
    value <= x < value + run || x + TWO_64 < value + run
  }

  function Sum(runs: seq<U64>): (n: nat) {
    if runs == [] then 0 else Sum(runs[..|runs| - 1]) + runs[|runs| - 1]
  }

  // Whether the run that comes after `count` others holds present numbers.
  predicate Present(first: bool, count: nat) {
    if count % 2 == 0 then first else !first
  }

  // The set that alternating runs stand for, from number 0 on; `first` tells whether the
  // numbers of the first run are present.
  ghost function FromRuns(runs: seq<U64>, first: bool): (s: set<U64>) {
    if runs == [] then {}
    else
      var front := runs[..|runs| - 1];
      FromRuns(front, first) +
      if Present(first, |front|) then Span(Sum(front) % TWO_64, runs[|front|]) else {}
  }

  // Runs of absent and present numbers in turn, only the first of which may be empty.
  ghost predicate Canonical(runs: seq<U64>) {
    && |runs| % 2 == 0
    && Sum(runs) <= TWO_64
    && forall i | 1 <= i < |runs| :: runs[i] > 0
  }

  function Last(data: seq<U64>): (n: int)
    requires data != []
  {
    data[|data| - 1]
  }

  // The run lengths of a set, extended by one element at a time.
  function Runs(data: seq<U64>): (runs: seq<U64>)
    requires Ascending(data)
    ensures |runs| % 2 == 0 && (data != [] ==> |runs| >= 2 && Sum(runs) == Last(data) + 1)
    ensures data == [] ==> runs == []
    ensures data != [] ==> 0 < Last(runs) <= |data|
  {
    if data == [] then []
    else if |data| == 1 then
      assert Sum([data[0], 1][..1]) == Sum([data[0]][..0]) + data[0];
      [data[0], 1]
    else
      var front, last := data[..|data| - 1], data[|data| - 1];
      var runs, diff := Runs(front), last - Last(front);
      if diff == 1 then
        var n := Last(runs) + 1;
        SumLast(runs, n);
        runs[|runs| - 1 := n]
      else
        SumTwo(runs, diff - 1, 1);
        runs + [diff - 1, 1]
  }

  lemma SumLast(runs: seq<U64>, n: U64)
    requires runs != []
    ensures Sum(runs[|runs| - 1 := n]) == Sum(runs) - runs[|runs| - 1] + n
    ensures runs[|runs| - 1] <= Sum(runs)
  {
    assert runs[|runs| - 1 := n][..|runs| - 1] == runs[..|runs| - 1];
  }

  lemma SumTwo(runs: seq<U64>, a: U64, b: U64)
    ensures Sum(runs + [a, b]) == Sum(runs) + a + b
  {
    assert (runs + [a, b])[..|runs| + 1] == runs + [a];
    assert (runs + [a])[..|runs|] == runs;
  }

  // ---------------------------------------------------------------- runs mean the set

  lemma FromRunsPush(runs: seq<U64>, run: U64, first: bool)
    ensures FromRuns(runs + [run], first) ==
            FromRuns(runs, first) +
            if Present(first, |runs|) then Span(Sum(runs) % TWO_64, run) else {}
    ensures Sum(runs + [run]) == Sum(runs) + run
  {
    assert (runs + [run])[..|runs|] == runs;
  }

  // An empty first run may be left out.
  lemma {:induction false} EmptyFirstRun(runs: seq<U64>, first: bool)
    ensures Sum([0] + runs) == Sum(runs)
    ensures FromRuns([0] + runs, first) == FromRuns(runs, !first)
    decreases |runs|
  {
    hide FromRuns, Sum, Span;
    if runs == [] {
      FromRunsPush([], 0, first);
      NoRuns();
      SpanOfNone();
      assert [] + [0] == [0] + runs;
    } else {
      var front, run := runs[..|runs| - 1], runs[|runs| - 1];
      EmptyFirstRun(front, first);
      FromRunsPush(front, run, !first);
      var longer := [0] + front;
      FromRunsPush(longer, run, first);
      assert front + [run] == runs;
      assert longer + [run] == [0] + runs;
      assert Present(first, |longer|) == Present(!first, |front|);
    }
  }

  lemma SpanOfNone()
    ensures Span(0, 0) == {}
  {
  }

  lemma LastRunGrows(runs: seq<U64>, x: U64)
    requires |runs| >= 2 && |runs| % 2 == 0 && Sum(runs) == x && Last(runs) + 1 < TWO_64
    ensures FromRuns(runs[|runs| - 1 := Last(runs) + 1], false) == FromRuns(runs, false) + {x}
  {
    hide FromRuns, Sum;
    var odd, n := runs[..|runs| - 1], Last(runs);
    FromRunsPush(odd, n, false);
    FromRunsPush(odd, n + 1, false);
    assert odd + [n] == runs;
    assert odd + [n + 1] == runs[|runs| - 1 := n + 1];
    assert Span(Sum(odd), n + 1) == Span(Sum(odd), n) + {x};
  }

  lemma NewRunStarts(runs: seq<U64>, x: U64)
    requires |runs| % 2 == 0 && Sum(runs) < x
    ensures FromRuns(runs + [x - Sum(runs), 1], false) == FromRuns(runs, false) + {x}
  {
    hide FromRuns, Sum, Span;
    var gap := x - Sum(runs);
    var odd := runs + [gap];
    FromRunsPush(runs, gap, false);
    FromRunsPush(odd, 1, false);
    assert odd + [1] == runs + [gap, 1];
    assert FromRuns(odd, false) == FromRuns(runs, false);
    assert Sum(odd) % TWO_64 == x;
    SpanOfOne(x);
  }

  // Theorem: the run lengths of a set stand for exactly that set.
  lemma {:induction false} RunsMeanTheSet(data: seq<U64>)
    requires Ascending(data)
    ensures FromRuns(Runs(data), false) == Elements(data)
  {
    hide FromRuns, Sum, Span;
    if data == [] {
      assert FromRuns([], false) == {} by { NoRuns(); }
    } else if |data| == 1 {
      FromRunsPush([], data[0], false);
      FromRunsPush([data[0]], 1, false);
      NoRuns();
      assert [] + [data[0]] == [data[0]] && [data[0]] + [1] == [data[0], 1];
      assert Span(data[0], 1) == {data[0]} by { SpanOfOne(data[0]); }
    } else {
      var front, last := data[..|data| - 1], data[|data| - 1];
      RunsMeanTheSet(front);
      assert Elements(data) == Elements(front) + {last};
      if last == Last(front) + 1 {
        LastRunGrows(Runs(front), last);
      } else {
        NewRunStarts(Runs(front), last);
      }
    }
  }

  lemma NoRuns()
    ensures forall first: bool :: FromRuns([], first) == {}
    ensures Sum([]) == 0
  {
  }

  lemma SpanOfOne(x: U64)
    ensures Span(x, 1) == {x}
  {
  }

  // The run lengths of a set are canonical and start with its first element.
  lemma {:induction false} RunsAreCanonical(data: seq<U64>)
    requires Ascending(data)
    ensures Canonical(Runs(data))
    ensures data != [] ==> Runs(data)[0] == data[0]
  {
    if |data| > 1 {
      RunsAreCanonical(data[..|data| - 1]);
    }
  }

  // ---------------------------------------------------------------- the set fixes its runs

  ghost predicate Increasing(data: seq<U64>) {
    forall i, j | 0 <= i < j < |data| :: data[i] < data[j]
  }

  ghost function Range(value: nat, run: nat): (s: seq<U64>)
    requires value + run <= TWO_64
    ensures |s| == run && forall i | 0 <= i < run :: s[i] == value + i
  {
    seq(run, i requires 0 <= i < run => value + i)
  }

  lemma SumFrontTwo(runs: seq<U64>)
    requires |runs| >= 2
    ensures Sum(runs[..|runs| - 1]) == Sum(runs[..|runs| - 2]) + runs[|runs| - 2]
    ensures Sum(runs) == Sum(runs[..|runs| - 1]) + Last(runs)
  {
    var odd := runs[..|runs| - 1];
    assert odd[..|odd| - 1] == runs[..|runs| - 2];
  }

  lemma CanonicalFront(runs: seq<U64>)
    requires Canonical(runs) && runs != []
    ensures |runs| >= 2 && Canonical(runs[..|runs| - 2]) && Last(runs) > 0
    ensures Sum(runs[..|runs| - 1]) == Sum(runs[..|runs| - 2]) + runs[|runs| - 2]
    ensures Sum(runs) == Sum(runs[..|runs| - 1]) + Last(runs)
  {
    hide Sum;
    SumFrontTwo(runs);
  }

  // The numbers that canonical runs stand for, in order.
  ghost function Listing(runs: seq<U64>): (data: seq<U64>)
    requires Canonical(runs)
    decreases |runs|
  {
    if runs == [] then []
    else
      CanonicalFront(runs);
      Listing(runs[..|runs| - 2]) + Range(Sum(runs[..|runs| - 1]), Last(runs))
  }

  lemma {:induction false} ListingIsTheSet(runs: seq<U64>)
    requires Canonical(runs)
    ensures Increasing(Listing(runs))
    ensures Elements(Listing(runs)) == FromRuns(runs, false)
    ensures runs == [] <==> Listing(runs) == []
    ensures runs != [] ==> Last(Listing(runs)) + 1 == Sum(runs)
    decreases |runs|
  {
    hide FromRuns, Sum;
    NoRuns();
    if runs != [] {
      CanonicalFront(runs);
      var even := runs[..|runs| - 2];
      var gap, run := runs[|runs| - 2], Last(runs);
      ListingIsTheSet(even);
      ListingGrows(Listing(even), even, gap, run);
      assert even + [gap] + [run] == runs;
    }
  }

  // A list of present numbers continued by one more run.
  lemma ListingGrows(list: seq<U64>, even: seq<U64>, gap: U64, run: U64)
    requires |even| % 2 == 0 && Sum(even) + gap + run <= TWO_64 && run > 0
    requires Increasing(list) && Elements(list) == FromRuns(even, false)
    requires list != [] ==> Last(list) < Sum(even)
    ensures var data := list + Range(Sum(even) + gap, run);
            Increasing(data) && Elements(data) == FromRuns(even + [gap] + [run], false)
  {
    hide FromRuns, Sum, Span, Elements, Increasing;
    var value := Sum(even) + gap;
    FromRunsPush(even, gap, false);
    FromRunsPush(even + [gap], run, false);
    RangeIsSpan(value, run);
    ElementsOfBoth(list, Range(value, run));
    BothIncrease(list, value, run);
  }

  lemma ElementsOfBoth(a: seq<U64>, b: seq<U64>)
    ensures Elements(a + b) == Elements(a) + Elements(b)
  {
  }

  lemma BothIncrease(list: seq<U64>, value: nat, run: nat)
    requires Increasing(list) && value + run <= TWO_64 && (list != [] ==> Last(list) < value)
    ensures Increasing(list + Range(value, run))
  {
    var data := list + Range(value, run);
    forall i, j | 0 <= i < j < |data| ensures data[i] < data[j] {
      if i < |list| <= j {
        assert list[i] <= Last(list);
      }
    }
  }

  lemma RangeIsSpan(value: U64, run: U64)
    requires value + run <= TWO_64
    ensures Elements(Range(value, run)) == Span(value, run)
  {
    var range := Range(value, run);
    forall x | x in Span(value, run)
      ensures x in range
    {
      assert range[x - value] == x;
    }
  }

  // Increasing sequences of the same numbers are equal.
  lemma {:induction false} IncreasingIsUnique(a: seq<U64>, b: seq<U64>)
    requires Increasing(a) && Increasing(b) && Elements(a) == Elements(b)
    ensures a == b
    decreases |a|
  {
    assert a != [] ==> a[0] in Elements(b);
    assert b != [] ==> b[0] in Elements(a);
    if a != [] && b != [] {
      var x, y := Last(a), Last(b);
      assert x in Elements(b) && y in Elements(a);
      assert x == y;
      var c, d := a[..|a| - 1], b[..|b| - 1];
      assert Elements(c) == Elements(a) - {x};
      assert Elements(d) == Elements(b) - {x};
      IncreasingIsUnique(c, d);
      assert a == c + [x] && b == d + [x];
    }
  }

  lemma RunsPush(data: seq<U64>, x: U64)
    requires Ascending(data) && Ascending(data + [x]) && data != []
    ensures var runs := Runs(data);
            Last(data) < x &&
            if x == Last(data) + 1
            then Last(runs) + 1 < TWO_64 && Runs(data + [x]) == runs[|runs| - 1 := Last(runs) + 1]
            else Runs(data + [x]) == runs + [x - Last(data) - 1, 1]
  {
    hide Sum, Ascending;
    var all := data + [x];
    assert all[..|all| - 1] == data;
    LastIsBelow(data, x);
  }

  lemma LastIsBelow(data: seq<U64>, x: U64)
    requires Ascending(data + [x]) && data != []
    ensures Last(data) < x && |data| + 1 < TWO_64
  {
    assert (data + [x])[|data| - 1] < (data + [x])[|data|];
  }

  // Numbers that continue the last run only lengthen it.
  lemma {:induction false} RunsOfRange(data: seq<U64>, n: nat)
    requires Ascending(data) && data != [] && Last(data) + 1 + n <= TWO_64 && |data| + n < TWO_64
    ensures Ascending(data + Range(Last(data) + 1, n))
    ensures Last(Runs(data)) + n < TWO_64
    ensures var runs := Runs(data);
            Runs(data + Range(Last(data) + 1, n)) == runs[|runs| - 1 := Last(runs) + n]
  {
    hide Sum, Runs, Ascending;
    var runs, x := Runs(data), Last(data) + 1;
    AscendingRange(data, x, n);
    if n == 0 {
      assert data + Range(x, 0) == data;
    } else {
      RunsOfRange(data, n - 1);
      var more, all := data + Range(x, n - 1), data + Range(x, n);
      assert all == more + [x + n - 1];
      RunsPush(more, x + n - 1);
      assert Runs(more) == runs[|runs| - 1 := Last(runs) + n - 1];
    }
  }

  lemma AscendingRange(data: seq<U64>, x: nat, n: nat)
    requires Ascending(data) && (data != [] ==> Last(data) < x) && x + n <= TWO_64 && |data| + n < TWO_64
    ensures Ascending(data + Range(x, n))
  {
    var all := data + Range(x, n);
    forall i, j | 0 <= i < j < |all| ensures all[i] < all[j] {
      if i < |data| <= j {
        assert data[i] <= Last(data);
      }
    }
  }

  lemma RunsOfFirst(data: seq<U64>, x: U64)
    requires Ascending(data) && Ascending(data + [x])
    requires data != [] ==> x > Last(data) + 1
    ensures Runs(data + [x]) == Runs(data) + [if data == [] then x else x - Last(data) - 1, 1]
  {
    if data != [] {
      RunsPush(data, x);
    } else {
      assert data + [x] == [x];
    }
  }

  lemma RunsOfNextRun(list: seq<U64>, gap: U64, run: U64)
    requires Ascending(list) && run > 0 && |list| + run < TWO_64
    requires list != [] ==> gap > 0
    requires var value := if list == [] then 0 else Last(list) + 1; value + gap + run <= TWO_64
    ensures var value := if list == [] then 0 else Last(list) + 1;
            var data := list + Range(value + gap, run);
            Ascending(data) && Runs(data) == Runs(list) + [gap] + [run]
  {
    hide Sum, Runs, Ascending;
    var first := (if list == [] then 0 else Last(list) + 1) + gap;
    var begun := list + [first];
    assert Range(first, 1) == [first];
    AscendingRange(list, first, 1);
    RunsOfFirst(list, first);
    RunsOfRange(begun, run - 1);
    assert begun + Range(first + 1, run - 1) == list + Range(first, run);
    var runs := Runs(list) + [gap, 1];
    assert runs[|runs| - 1 := run] == Runs(list) + [gap] + [run];
  }

  lemma {:induction false} RunsOfListing(runs: seq<U64>)
    requires Canonical(runs) && |Listing(runs)| < TWO_64
    ensures Ascending(Listing(runs)) && Runs(Listing(runs)) == runs
    decreases |runs|
  {
    hide FromRuns, Sum, Runs, Elements;
    ListingIsTheSet(runs);
    if runs == [] {
      assert Runs([]) == [];
    } else {
      CanonicalFront(runs);
      var even := runs[..|runs| - 2];
      RunsOfListing(even);
      ListingIsTheSet(even);
      NoRuns();
      RunsOfNextRun(Listing(even), runs[|runs| - 2], Last(runs));
      assert even + [runs[|runs| - 2]] + [Last(runs)] == runs;
    }
  }

  // Theorem: every canonical list of runs is the run lengths of the set it stands for, so the
  // two conversions undo each other in both directions.
  lemma RunsAreUnique(data: seq<U64>, runs: seq<U64>)
    requires Ascending(data) && Canonical(runs) && Elements(data) == FromRuns(runs, false)
    ensures Runs(data) == runs
  {
    ListingIsTheSet(runs);
    IncreasingIsUnique(data, Listing(runs));
    RunsOfListing(runs);
  }
}
