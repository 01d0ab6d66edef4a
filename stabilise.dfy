/** The two progressive-scrolling loops that wait for a dynamic page to stop growing.
    The page is an oracle of two functions of the attempt number: `length(a)` is
    `len(page.content())` after the scroll of attempt `a`, and `fails(a)` says that one of
    that attempt's page calls raised instead. */
module Stabilise {
  import opened Outcome

  /** How a scrolling loop ended: at the attempt whose sample made it stable, after its last
      attempt, or at the attempt whose page call raised (which aborts the whole tool). */
  datatype LoopEnd = Stabilised(attempt: nat) | Exhausted | Raised(attempt: nat)

  /** The attempt at which the loop ended early, or the cap when it ran out of attempts. */
  function EndAttempt(end: LoopEnd, cap: nat): nat {
    if end.Exhausted? then cap else end.attempt
  }

  /** Number of attempts the loop started, for a cap of `cap` attempts. */
  function Started(end: LoopEnd, cap: nat): nat {
    match end
    case Stabilised(a) => a + 1
    case Exhausted => cap
    case Raised(a) => a + 1
  }

  /** The sample before attempt `a`; 0 before the first one. */
  function Prev(length: nat -> nat, a: nat): nat {
    if a == 0 then 0 else length(a - 1)
  }

  predicate Unchanged(length: nat -> nat, a: nat) {
    length(a) == Prev(length, a)
  }

  // ---------------------------------------------------------------- counter variant

  const CounterCap: nat := 50

  /** The four scroll positions of the counter loop. */
  datatype ScrollTarget = Bottom | Top | Middle | ThreeQuarters

  /** The scroll position of attempt `attempt`: bottom, top, middle, three quarters, and again. */
  function TargetOf(attempt: nat): ScrollTarget {
    if attempt >= 4 then TargetOf(attempt - 4)
    else if attempt == 0 then Bottom
    else if attempt == 1 then Top
    else if attempt == 2 then Middle
    else ThreeQuarters
  }

  /** The position is chosen by `attempt % 4`, as the if/elif chain of the loop does. */
  lemma {:induction false} TargetByRemainder(attempt: nat)
    ensures attempt % 4 == 0 ==> TargetOf(attempt) == Bottom
    ensures attempt % 4 == 1 ==> TargetOf(attempt) == Top
    ensures attempt % 4 == 2 ==> TargetOf(attempt) == Middle
    ensures attempt % 4 == 3 ==> TargetOf(attempt) == ThreeQuarters
  {
    if attempt >= 4 {
      TargetByRemainder(attempt - 4);
      assert attempt % 4 == (attempt - 4) % 4;
    }
  }

  /** The scroll targets of attempts `0 .. n - 1`. */
  function TargetTrace(n: nat): (t: seq<ScrollTarget>)
    ensures |t| == n
  {
    if n == 0 then [] else TargetTrace(n - 1) + [TargetOf(n - 1)]
  }

  /** Attempt `i` of the trace scrolled to the position of attempt `i`. */
  lemma {:induction false} TargetTraceAt(n: nat, i: nat)
    requires i < n
    ensures TargetTrace(n)[i] == TargetOf(i)
  {
    if i < n - 1 {
      TargetTraceAt(n - 1, i);
    }
  }

  /** The number of unchanged samples in a row just before attempt `a`. */
  function Run(length: nat -> nat, a: nat): nat {
    if a == 0 then 0 else if Unchanged(length, a - 1) then Run(length, a - 1) + 1 else 0
  }

  /** The counter loop stops at attempt `a`: its sample and the two before it all equal the
      sample before those (0 before the first attempt). */
  predicate CounterStops(length: nat -> nat, a: nat) {
    a >= 2 && Unchanged(length, a) && Unchanged(length, a - 1) && Unchanged(length, a - 2)
  }

  /** How the counter loop ends when it reaches attempt `a` without having ended. */
  function CounterEnd(length: nat -> nat, fails: nat -> bool, a: nat): LoopEnd
    decreases CounterCap - a
  {
    if a >= CounterCap then Exhausted
    else if fails(a) then Raised(a)
    else if CounterStops(length, a) then Stabilised(a)
    else CounterEnd(length, fails, a + 1)
  }

  /** One attempt of the counter loop that does not raise: the next `previous` is this
      sample, the run grows on an unchanged sample and restarts otherwise, and the loop stops
      exactly when an unchanged sample extends a run of two. */
  lemma CounterStep(length: nat -> nat, fails: nat -> bool, a: nat)
    requires a < CounterCap && !fails(a)
    ensures Prev(length, a + 1) == length(a)
    ensures Run(length, a + 1) == if length(a) == Prev(length, a) then Run(length, a) + 1 else 0
    ensures CounterStops(length, a) <==> length(a) == Prev(length, a) && Run(length, a) + 1 >= 3
    ensures CounterEnd(length, fails, a) == if CounterStops(length, a) then Stabilised(a) else CounterEnd(length, fails, a + 1)
  {
  }

  /** An attempt whose page call raises ends either loop there. */
  lemma EndAtRaise(length: nat -> nat, fails: nat -> bool, a: nat)
    requires fails(a)
    ensures a < CounterCap ==> CounterEnd(length, fails, a) == Raised(a)
    ensures a < WindowCap ==> WindowEnd(length, fails, a) == Raised(a)
  {
  }

  /** The comparison an attempt of the counter loop makes once its sample is in: grow the
      run on an unchanged sample and stop when it reaches 3, otherwise restart the run and
      remember the new length. */
  method CounterCompare(length: nat -> nat, fails: nat -> bool, attempt: nat, currentLength: nat,
                        previousContentLength: nat, stableCount: nat)
    returns (stop: bool, previous': nat, stable': nat)
    requires attempt < CounterCap && !fails(attempt) && currentLength == length(attempt)
    requires previousContentLength == Prev(length, attempt) && stableCount == Run(length, attempt)
    ensures stop == CounterStops(length, attempt)
    ensures !stop ==> previous' == Prev(length, attempt + 1) && stable' == Run(length, attempt + 1)
  {
    CounterStep(length, fails, attempt);
    stop, previous', stable' := false, previousContentLength, stableCount;
    if currentLength == previousContentLength {
      stable' := stableCount + 1;
      if stable' >= 3 {
        stop := true;
      }
    } else {
      stable' := 0;
      previous' := currentLength;
    }
  }

  lemma TargetTraceLength(n: nat, targets: seq<ScrollTarget>)
    requires targets == TargetTrace(n)
    ensures |targets| == n && targets == TargetTrace(|targets|)
  {
  }

  /** The loop of main.py:816-850, with the scroll targets it used. */
  method CounterScroll(length: nat -> nat, fails: nat -> bool) returns (end: LoopEnd, targets: seq<ScrollTarget>)
    ensures end == CounterEnd(length, fails, 0)
    ensures |targets| == Started(end, CounterCap) && targets == TargetTrace(|targets|)
  {
    var previousContentLength := 0;
    var stableCount := 0;
    targets := [];
    var attempt := 0;
    while attempt < CounterCap
      invariant 0 <= attempt <= CounterCap
      invariant previousContentLength == Prev(length, attempt)
      invariant stableCount == Run(length, attempt)
      invariant CounterEnd(length, fails, 0) == CounterEnd(length, fails, attempt)
      invariant targets == TargetTrace(attempt)
    {
      targets := targets + [TargetOf(attempt)];
      TargetTraceLength(attempt + 1, targets);
      if fails(attempt) {
        EndAtRaise(length, fails, attempt);
        return Raised(attempt), targets;
      }
      var currentLength := length(attempt);
      var stop;
      stop, previousContentLength, stableCount :=
        CounterCompare(length, fails, attempt, currentLength, previousContentLength, stableCount);
      CounterStep(length, fails, attempt);
      if stop {
        return Stabilised(attempt), targets;
      }
      attempt := attempt + 1;
    }
    TargetTraceLength(attempt, targets);
    return Exhausted, targets;
  }

  /** The counter loop ends at the first attempt that raises or stops it, and otherwise after
      50 attempts; a stop needs three unchanged samples, so it comes at attempt 2 or later. */
  lemma {:induction false} CounterEndIsEvent(length: nat -> nat, fails: nat -> bool, k: nat)
    requires k <= CounterCap
    ensures var end := CounterEnd(length, fails, k);
      k <= EndAttempt(end, CounterCap) <= CounterCap
      && (end.Stabilised? ==> end.attempt < CounterCap && end.attempt >= 2 && CounterStops(length, end.attempt) && !fails(end.attempt))
      && (end.Raised? ==> end.attempt < CounterCap && fails(end.attempt))
    decreases CounterCap - k
  {
    if k < CounterCap && !fails(k) && !CounterStops(length, k) {
      CounterEndIsEvent(length, fails, k + 1);
    }
  }

  /** No attempt before the one the loop ended at raises or stops it. */
  lemma {:induction false} CounterEndIsFirst(length: nat -> nat, fails: nat -> bool, k: nat, j: nat)
    requires k <= j < EndAttempt(CounterEnd(length, fails, k), CounterCap)
    ensures !fails(j) && !CounterStops(length, j)
    decreases CounterCap - k
  {
    if k < j {
      CounterEndIsFirst(length, fails, k + 1, j);
    }
  }

  /** A page whose length changes at every attempt after the first never stabilises: the loop
      runs all 50 attempts. */
  lemma {:induction false} ChangingPageRunsFifty(length: nat -> nat, fails: nat -> bool, k: nat)
    requires k <= CounterCap
    requires forall i :: k <= i < CounterCap ==> !fails(i)
    requires forall i :: 1 <= i < CounterCap ==> length(i) != length(i - 1)
    ensures CounterEnd(length, fails, k) == Exhausted
    decreases CounterCap - k
  {
    if k < CounterCap {
      ChangingPageRunsFifty(length, fails, k + 1);
    }
  }

  /** A page that changes at each of its first `n` attempts and then keeps the length it had
      at attempt `n - 1` stabilises at attempt `n + 2`, after `n + 3` scrolls. */
  lemma PlateauStopsAfterThree(length: nat -> nat, fails: nat -> bool, n: nat)
    requires 1 <= n && n + 2 < CounterCap
    requires forall i :: 0 <= i <= n + 2 ==> !fails(i)
    requires forall i :: 0 <= i < n ==> !Unchanged(length, i)
    requires forall i :: n <= i <= n + 2 ==> length(i) == length(n - 1)
    ensures CounterEnd(length, fails, 0) == Stabilised(n + 2)
  {
    PlateauFrom(length, fails, n, 0);
  }

  lemma {:induction false} PlateauFrom(length: nat -> nat, fails: nat -> bool, n: nat, k: nat)
    requires 1 <= n && n + 2 < CounterCap && k <= n + 2
    requires forall i :: 0 <= i <= n + 2 ==> !fails(i)
    requires forall i :: 0 <= i < n ==> !Unchanged(length, i)
    requires forall i :: n <= i <= n + 2 ==> length(i) == length(n - 1)
    ensures CounterEnd(length, fails, k) == Stabilised(n + 2)
    decreases n + 2 - k
  {
    assert Unchanged(length, n) && Unchanged(length, n + 1) && Unchanged(length, n + 2);
    if k < n + 2 {
      assert !CounterStops(length, k) by {
        if k >= 2 {
          if k < n {
            assert !Unchanged(length, k);
          } else if k - 1 < n {
            assert !Unchanged(length, k - 1);
          } else {
            assert !Unchanged(length, k - 2);
          }
        }
      }
      PlateauFrom(length, fails, n, k + 1);
    }
  }

  // ---------------------------------------------------------------- sliding-window variant

  const WindowCap: nat := 100
  const WindowSize: nat := 5

  /** The interactions the window loop rotates through: five scroll positions, four key
      presses and a click on the body. */
  datatype Interaction =
    | ScrollBottom | ScrollTop | ScrollHalf | ScrollQuarter | ScrollThreeQuarters
    | PressSpace | PressPageDown | PressEnd | PressHome
    | ClickBody

  const Interactions: seq<Interaction> := [
    ScrollBottom, ScrollTop, ScrollHalf, ScrollQuarter, ScrollThreeQuarters,
    PressSpace, PressPageDown, PressEnd, PressHome,
    ClickBody
  ]

  /** The samples of attempts `0 .. n - 1`, in order. */
  function Samples(length: nat -> nat, n: nat): (h: seq<nat>)
    ensures |h| == n
  {
    if n == 0 then [] else Samples(length, n - 1) + [length(n - 1)]
  }

  /** Entry `i` of the history is the sample of attempt `i`. */
  lemma {:induction false} SamplesAt(length: nat -> nat, n: nat, i: nat)
    requires i < n
    ensures Samples(length, n)[i] == length(i)
  {
    if i < n - 1 {
      SamplesAt(length, n - 1, i);
    }
  }

  /** The window loop stops at attempt `a`: the last five samples, `a - 4 .. a`, are equal. */
  predicate WindowStops(length: nat -> nat, a: nat) {
    a >= 4 && length(a - 3) == length(a - 4) && length(a - 2) == length(a - 4)
    && length(a - 1) == length(a - 4) && length(a) == length(a - 4)
  }

  function WindowEnd(length: nat -> nat, fails: nat -> bool, a: nat): LoopEnd
    decreases WindowCap - a
  {
    if a >= WindowCap then Exhausted
    else if fails(a) then Raised(a)
    else if WindowStops(length, a) then Stabilised(a)
    else WindowEnd(length, fails, a + 1)
  }

  /** `all(length == recent[0] for length in recent)`. */
  predicate AllEqual(recent: seq<nat>) {
    forall j :: 0 <= j < |recent| ==> recent[j] == recent[0]
  }

  /** The interaction of attempt `i`: the list is walked round and round. */
  function InteractionOf(i: nat): Interaction {
    if i >= |Interactions| then InteractionOf(i - |Interactions|) else Interactions[i]
  }

  /** Attempt `i` performs `scroll_actions[i % len(scroll_actions)]`. */
  lemma {:induction false} InteractionByRemainder(i: nat)
    ensures InteractionOf(i) == Interactions[i % 10]
  {
    if i >= 10 {
      InteractionByRemainder(i - 10);
      RemainderStep(i);
    }
  }

  lemma RemainderStep(i: nat)
    requires i >= 10
    ensures (i - 10) % 10 == i % 10
  {
  }

  /** The interactions of attempts `0 .. n - 1`, each with whether it raised. */
  function ActionTrace(actionRaises: nat -> bool, n: nat): (t: seq<(Interaction, bool)>)
    ensures |t| == n
  {
    if n == 0 then []
    else ActionTrace(actionRaises, n - 1) + [(InteractionOf(n - 1), actionRaises(n - 1))]
  }

  /** Attempt `i` performs interaction `i % 10`, so the ten interactions rotate, and one that
      raised is recorded and passed over. */
  lemma {:induction false} ActionTraceAt(actionRaises: nat -> bool, n: nat, i: nat)
    requires i < n
    ensures ActionTrace(actionRaises, n)[i] == (Interactions[i % 10], actionRaises(i))
  {
    InteractionByRemainder(i);
    if i < n - 1 {
      ActionTraceAt(actionRaises, n - 1, i);
    }
  }

  /** The five-entry test of the window loop on the history after attempt `a`. */
  predicate Settled(history: seq<nat>) {
    |history| >= WindowSize && AllEqual(history[|history| - WindowSize..])
  }

  /** One attempt of the window loop that does not raise, after its sample was appended to the
      history: the loop stops exactly when the last five entries of the history are equal. */
  lemma WindowStep(length: nat -> nat, fails: nat -> bool, a: nat, history: seq<nat>)
    requires a < WindowCap && !fails(a)
    requires history == Samples(length, a) + [length(a)]
    ensures history == Samples(length, a + 1)
    ensures WindowStops(length, a) == Settled(history)
    ensures WindowEnd(length, fails, a) == if Settled(history) then Stabilised(a) else WindowEnd(length, fails, a + 1)
  {
    assert history == Samples(length, a + 1);
    if a >= 4 {
      var recent := history[a - 4..];
      forall k | 0 <= k < WindowSize ensures recent[k] == length(a - 4 + k) {
        SamplesAt(length, a + 1, a - 4 + k);
      }
      assert AllEqual(recent)
        <==> recent[1] == recent[0] && recent[2] == recent[0] && recent[3] == recent[0] && recent[4] == recent[0];
    }
  }

  /** One attempt of the loop of main.py:1025-1068: perform and record the interaction, then
      sample the page and test the last five samples. `None` means the loop goes on; otherwise
      the loop ends here, as `WindowEnd` says it does. */
  method WindowAttempt(length: nat -> nat, fails: nat -> bool, actionRaises: nat -> bool, attempt: nat,
                       history: seq<nat>, actions: seq<(Interaction, bool)>)
    returns (stop: Option<LoopEnd>, history': seq<nat>, actions': seq<(Interaction, bool)>)
    requires attempt < WindowCap
    requires history == Samples(length, attempt) && actions == ActionTrace(actionRaises, attempt)
    ensures actions' == ActionTrace(actionRaises, attempt + 1)
    ensures stop.Some? ==>
      !stop.value.Exhausted? && stop.value.attempt == attempt && stop.value == WindowEnd(length, fails, attempt)
    ensures stop.None? ==> WindowEnd(length, fails, attempt) == WindowEnd(length, fails, attempt + 1)
    ensures history' == if stop.Some? && stop.value.Raised? then history else Samples(length, attempt + 1)
  {
    var action := InteractionOf(attempt);
    var failed := actionRaises(attempt);
    actions' := actions + [(action, failed)];
    if fails(attempt) {
      EndAtRaise(length, fails, attempt);
      return Some(Raised(attempt)), history, actions';
    }
    var currentLength := length(attempt);
    history' := history + [currentLength];
    WindowStep(length, fails, attempt, history');
    if Settled(history') {
      return Some(Stabilised(attempt)), history', actions';
    }
    stop := None;
  }

  /** The loop of main.py:1025-1068. `actionRaises(a)` says whether the interaction of attempt
      `a` raised; the `try`/`except Exception: pass` swallows it. The trace pairs each started
      attempt's interaction index with that flag. */
  method WindowScroll(length: nat -> nat, fails: nat -> bool, actionRaises: nat -> bool)
    returns (end: LoopEnd, history: seq<nat>, actions: seq<(Interaction, bool)>)
    ensures end == WindowEnd(length, fails, 0)
    ensures |actions| == Started(end, WindowCap) && actions == ActionTrace(actionRaises, |actions|)
    ensures |history| == (if end.Raised? then end.attempt else Started(end, WindowCap))
    ensures history == Samples(length, |history|)
  {
    history := [];
    actions := [];
    var attempt := 0;
    while attempt < WindowCap
      invariant 0 <= attempt <= WindowCap
      invariant history == Samples(length, attempt)
      invariant WindowEnd(length, fails, 0) == WindowEnd(length, fails, attempt)
      invariant actions == ActionTrace(actionRaises, attempt)
    {
      var stop;
      stop, history, actions := WindowAttempt(length, fails, actionRaises, attempt, history, actions);
      if stop.Some? {
        return stop.value, history, actions;
      }
      attempt := attempt + 1;
    }
    return Exhausted, history, actions;
  }

  /** The window loop ends at the first attempt that raises or whose last five samples are
      equal, and otherwise after 100 attempts; a stop needs five samples, so it comes at
      attempt 4 or later. */
  lemma {:induction false} WindowEndIsEvent(length: nat -> nat, fails: nat -> bool, k: nat)
    requires k <= WindowCap
    ensures var end := WindowEnd(length, fails, k);
      k <= EndAttempt(end, WindowCap) <= WindowCap
      && (end.Stabilised? ==> end.attempt < WindowCap && end.attempt >= 4 && WindowStops(length, end.attempt) && !fails(end.attempt))
      && (end.Raised? ==> end.attempt < WindowCap && fails(end.attempt))
    decreases WindowCap - k
  {
    if k < WindowCap && !fails(k) && !WindowStops(length, k) {
      WindowEndIsEvent(length, fails, k + 1);
    }
  }

  /** No attempt before the one the loop ended at raises or stops it. */
  lemma {:induction false} WindowEndIsFirst(length: nat -> nat, fails: nat -> bool, k: nat, j: nat)
    requires k <= j < EndAttempt(WindowEnd(length, fails, k), WindowCap)
    ensures !fails(j) && !WindowStops(length, j)
    decreases WindowCap - k
  {
    if k < j {
      WindowEndIsFirst(length, fails, k + 1, j);
    }
  }

  /** A page whose length changes at every attempt after the first keeps the window loop
      going for all 100 attempts. */
  lemma {:induction false} ChangingPageRunsHundred(length: nat -> nat, fails: nat -> bool, k: nat)
    requires k <= WindowCap
    requires forall i :: k <= i < WindowCap ==> !fails(i)
    requires forall i :: 1 <= i < WindowCap ==> length(i) != length(i - 1)
    ensures WindowEnd(length, fails, k) == Exhausted
    decreases WindowCap - k
  {
    if k < WindowCap {
      ChangingPageRunsHundred(length, fails, k + 1);
    }
  }

  /** Five equal samples in a row end with three unchanged samples in a row. */
  lemma WindowStopIsCounterStop(length: nat -> nat, a: nat)
    requires WindowStops(length, a)
    ensures CounterStops(length, a)
  {
    assert length(a - 3) == length(a - 4);
  }

  /** On a page that does not raise, the counter loop stops no later than the window loop
      would have (whenever that is within the counter loop's 50 attempts). */
  lemma {:induction false} CounterNoLaterThanWindow(length: nat -> nat, fails: nat -> bool, k: nat)
    requires k <= CounterCap
    requires forall i :: k <= i < CounterCap ==> !fails(i)
    requires WindowEnd(length, fails, k).Stabilised? && WindowEnd(length, fails, k).attempt < CounterCap
    ensures CounterEnd(length, fails, k).Stabilised?
    ensures CounterEnd(length, fails, k).attempt <= WindowEnd(length, fails, k).attempt
    decreases CounterCap - k
  {
    WindowEndIsEvent(length, fails, k);
    if !CounterStops(length, k) {
      if WindowStops(length, k) {
        WindowStopIsCounterStop(length, k);
      }
      assert WindowEnd(length, fails, k) == WindowEnd(length, fails, k + 1);
      CounterNoLaterThanWindow(length, fails, k + 1);
    }
  }
}
