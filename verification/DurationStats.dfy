// The lock-free duration statistics of a handler: any number of goroutines record at once.
module DurationStats {

  // Go's uint64 arithmetic wraps around.
  const WORD: nat := 0x1_0000_0000_0000_0000

  type uint64 = n: int | 0 <= n < WORD

  function Wrap(n: nat): uint64 {
    n % WORD
  }

  function Add(a: uint64, b: uint64): uint64 {
    Wrap(a + b)
  }

  class Recorder {
    var count: uint64
    var sum: uint64
    var max: uint64

    constructor ()
      ensures count == 0 && sum == 0 && max == 0
    {
      count, sum, max := 0, 0, 0;
    }

    method CompareAndSwap(expected: uint64, next: uint64) returns (swapped: bool)
      modifies this`max
      ensures swapped == (old(max) == expected)
      ensures max == if swapped then next else old(max)
    {
      swapped := max == expected;
      if swapped {
        max := next;
      }
    }

    // One call that nobody interrupts.
    method Record(duration: uint64)
      modifies this
      ensures count == Add(old(count), 1) && sum == Add(old(sum), duration)
      ensures max == if duration <= old(max) then old(max) else duration
    {
      count := Add(count, 1);
      sum := Add(sum, duration);
      var returned := false;
      while !returned
        invariant count == Add(old(count), 1) && sum == Add(old(sum), duration)
        invariant max == if returned && duration > old(max) then duration else old(max)
        decreases !returned
      {
        var current := max;
        if duration <= current {
          returned := true;
        } else {
          returned := CompareAndSwap(current, duration);
        }
      }
    }
  }

  // ---------------------------------------------------------------- concurrent calls

  // Where a call stands; Swap holds the maximum it loaded and how many raises there had been by then.
  datatype Position = AddCount | AddSum | Load | Swap(current: uint64, raisesSeen: nat) | Returned

  // failures counts the compare-and-swaps that the call has lost.
  datatype Call = Call(duration: uint64, at: Position, failures: nat)

  // raises counts the compare-and-swaps that succeeded.
  datatype Stats = Stats(count: uint64, sum: uint64, max: uint64, calls: seq<Call>, raises: nat)

  predicate Enabled(s: Stats, i: nat) {
    i < |s.calls| && s.calls[i].at != Returned
  }

  function Moved(s: Stats, i: nat, at: Position): seq<Call>
    requires i < |s.calls|
  {
    s.calls[i := s.calls[i].(at := at)]
  }

  // The next atomic operation of call i.
  function Apply(s: Stats, i: nat): Stats
    requires Enabled(s, i)
  {
    var c := s.calls[i];
    match c.at
    case AddCount => s.(count := Add(s.count, 1), calls := Moved(s, i, AddSum))
    case AddSum => s.(sum := Add(s.sum, c.duration), calls := Moved(s, i, Load))
    case Load =>
      s.(calls := Moved(s, i, if c.duration <= s.max then Returned else Swap(s.max, s.raises)))
    case Swap(current, _) =>
      if s.max == current then
        s.(max := c.duration, raises := s.raises + 1, calls := Moved(s, i, Returned))
      else
        s.(calls := s.calls[i := c.(at := Load, failures := c.failures + 1)])
  }

  predicate Runs(s: Stats, steps: seq<nat>)
    decreases |steps|
  {
    steps == [] || (Enabled(s, steps[0]) && Runs(Apply(s, steps[0]), steps[1..]))
  }

  function After(s: Stats, steps: seq<nat>): Stats
    requires Runs(s, steps)
    decreases |steps|
  {
    if steps == [] then s else After(Apply(s, steps[0]), steps[1..])
  }

  predicate Fresh(c: Call) {
    c.at == AddCount && c.failures == 0
  }

  predicate Start(s: Stats) {
    s.raises == 0 && forall c :: c in s.calls ==> Fresh(c)
  }

  predicate AllReturned(s: Stats) {
    forall c :: c in s.calls ==> c.at == Returned
  }

  // ---------------------------------------------------------------- totals over the calls

  function Total(calls: seq<Call>, f: Call -> nat): nat {
    if calls == [] then 0 else f(calls[0]) + Total(calls[1..], f)
  }

  lemma {:induction false} TotalUpdate(calls: seq<Call>, i: nat, c: Call, f: Call -> nat)
    requires i < |calls|
    ensures Total(calls[i := c], f) == Total(calls, f) - f(calls[i]) + f(c)
  {
    if i == 0 {
      assert calls[i := c][1..] == calls[1..];
    } else {
      assert calls[i := c][1..] == calls[1..][i - 1 := c];
      TotalUpdate(calls[1..], i - 1, c, f);
    }
  }

  lemma {:induction false} TotalBound(calls: seq<Call>, f: Call -> nat, bound: nat)
    requires forall c :: c in calls ==> f(c) <= bound
    ensures Total(calls, f) <= |calls| * bound
  {
    if calls != [] {
      TotalBound(calls[1..], f, bound);
      assert |calls| * bound == bound + |calls[1..]| * bound;
    }
  }

  // A call that has not returned leaves one out of the number of those that have.
  lemma {:induction false} SomeoneIsMissing(calls: seq<Call>, i: nat)
    requires i < |calls| && calls[i].at != Returned
    ensures Total(calls, HasReturned) < |calls|
  {
    TotalBound(calls[1..], HasReturned, 1);
    if i > 0 {
      SomeoneIsMissing(calls[1..], i - 1);
    }
  }

  function HasCounted(c: Call): nat {
    if c.at == AddCount then 0 else 1
  }

  function HasSummed(c: Call): nat {
    if c.at == AddCount || c.at == AddSum then 0 else c.duration
  }

  function HasReturned(c: Call): nat {
    if c.at == Returned then 1 else 0
  }

  function Duration(c: Call): nat {
    c.duration
  }

  // Atomic operations a call has made, at most.
  function Work(c: Call): nat {
    match c.at
    case AddCount => 0
    case AddSum => 1
    case Load => 2 + 2 * c.failures
    case Swap(_, _) => 3 + 2 * c.failures
    case Returned => 4 + 2 * c.failures
  }

  // ---------------------------------------------------------------- the invariant

  // What a call knows of the maximum. A raise is strict, so a maximum still equal to the one that was
  // loaded means that there was no raise since.
  predicate CallInv(s: Stats, c: Call) {
    match c.at
    case AddCount => c.failures == 0
    case AddSum => c.failures == 0
    case Load => c.failures <= s.raises
    case Swap(current, raisesSeen) =>
      && current < c.duration
      && current <= s.max
      && c.failures <= raisesSeen <= s.raises
      && (current == s.max <==> raisesSeen == s.raises)
    case Returned => c.duration <= s.max && c.failures < |s.calls|
  }

  predicate MaxIsRecorded(s: Stats, max0: uint64) {
    s.max == max0 || exists i :: 0 <= i < |s.calls| && s.calls[i].at == Returned && s.calls[i].duration == s.max
  }

  ghost predicate Inv(s: Stats, start: Stats) {
    && |s.calls| == |start.calls|
    && (forall i :: 0 <= i < |s.calls| ==> s.calls[i].duration == start.calls[i].duration)
    && s.count == Wrap(start.count + Total(s.calls, HasCounted))
    && s.sum == Wrap(start.sum + Total(s.calls, HasSummed))
    && s.raises <= Total(s.calls, HasReturned)
    && start.max <= s.max && MaxIsRecorded(s, start.max)
    && (forall c :: c in s.calls ==> CallInv(s, c))
  }

  lemma {:induction false} StartTotals(calls: seq<Call>)
    requires forall c :: c in calls ==> Fresh(c)
    ensures Total(calls, HasCounted) == Total(calls, HasSummed) == Total(calls, HasReturned) == Total(calls, Work) == 0
  {
    if calls != [] {
      assert Fresh(calls[0]);
      StartTotals(calls[1..]);
    }
  }

  lemma StartInv(s: Stats)
    requires Start(s)
    ensures Inv(s, s)
  {
    StartTotals(s.calls);
  }

  lemma AddWraps(start: nat, total: nat, more: nat)
    ensures Wrap(Wrap(start + total) + more) == Wrap(start + (total + more))
  {
  }

  lemma TotalsAfter(s: Stats, i: nat)
    requires Enabled(s, i)
    ensures var after := Apply(s, i);
            && Total(after.calls, HasCounted)
               == Total(s.calls, HasCounted) + (if s.calls[i].at == AddCount then 1 else 0)
            && Total(after.calls, HasSummed)
               == Total(s.calls, HasSummed) + (if s.calls[i].at == AddSum then s.calls[i].duration else 0)
            && Total(after.calls, HasReturned)
               == Total(s.calls, HasReturned) + (if after.calls[i].at == Returned then 1 else 0)
  {
    var c := Apply(s, i).calls[i];
    assert Apply(s, i).calls == s.calls[i := c];
    TotalUpdate(s.calls, i, c, HasCounted);
    TotalUpdate(s.calls, i, c, HasSummed);
    TotalUpdate(s.calls, i, c, HasReturned);
  }

  // A step of call i leaves what any call k knows true.
  lemma StepKeepsCall(s: Stats, i: nat, k: nat)
    requires Enabled(s, i) && k < |s.calls| && CallInv(s, s.calls[i]) && CallInv(s, s.calls[k])
    requires s.raises < |s.calls|
    ensures CallInv(Apply(s, i), Apply(s, i).calls[k])
  {
  }

  lemma StepKeepsCallInv(s: Stats, start: Stats, i: nat)
    requires Inv(s, start) && Enabled(s, i)
    ensures forall c :: c in Apply(s, i).calls ==> CallInv(Apply(s, i), c)
  {
    SomeoneIsMissing(s.calls, i);
    forall k | 0 <= k < |s.calls|
      ensures CallInv(Apply(s, i), Apply(s, i).calls[k])
    {
      StepKeepsCall(s, i, k);
    }
  }

  lemma StepKeepsMax(s: Stats, start: Stats, i: nat)
    requires Inv(s, start) && Enabled(s, i)
    ensures s.max <= Apply(s, i).max && MaxIsRecorded(Apply(s, i), start.max)
    ensures s.raises <= Apply(s, i).raises
    ensures s.max < Apply(s, i).max <==> Apply(s, i).raises == s.raises + 1
  {
    var after := Apply(s, i);
    assert CallInv(s, s.calls[i]);
    if after.max != s.max {
      assert after.calls[i].at == Returned && after.calls[i].duration == after.max;
    } else if s.max != start.max {
      var k :| 0 <= k < |s.calls| && s.calls[k].at == Returned && s.calls[k].duration == s.max;
      assert after.calls[k] == s.calls[k];
    }
  }

  lemma StepKeepsInv(s: Stats, start: Stats, i: nat)
    requires Inv(s, start) && Enabled(s, i)
    ensures Inv(Apply(s, i), start)
  {
    hide Wrap;
    TotalsAfter(s, i);
    StepKeepsMax(s, start, i);
    StepKeepsCallInv(s, start, i);
    AddWraps(start.count, Total(s.calls, HasCounted), 1);
    AddWraps(start.sum, Total(s.calls, HasSummed), s.calls[i].duration);
  }

  lemma {:induction false} RunKeepsInv(s: Stats, start: Stats, steps: seq<nat>)
    requires Inv(s, start) && Runs(s, steps)
    ensures Inv(After(s, steps), start) && s.max <= After(s, steps).max && s.raises <= After(s, steps).raises
    decreases |steps|
  {
    if steps != [] {
      StepKeepsInv(s, start, steps[0]);
      StepKeepsMax(s, start, steps[0]);
      RunKeepsInv(Apply(s, steps[0]), start, steps[1..]);
    }
  }

  // ---------------------------------------------------------------- the theorems

  function Largest(calls: seq<Call>, floor: nat): (m: nat)
    ensures m >= floor && forall c :: c in calls ==> c.duration <= m
    ensures m == floor || exists c :: c in calls && c.duration == m
  {
    if calls == [] then floor
    else
      var m := Largest(calls[1..], floor);
      assert forall c :: c in calls[1..] ==> c in calls;
      assert calls[0] in calls;
      if calls[0].duration > m then calls[0].duration else m
  }

  lemma {:induction false} AllReturnedTotals(calls: seq<Call>, start: seq<Call>)
    requires |calls| == |start| && forall i :: 0 <= i < |calls| ==> calls[i].duration == start[i].duration
    requires forall c :: c in calls ==> c.at == Returned
    ensures Total(calls, HasCounted) == |start| && Total(calls, HasSummed) == Total(start, Duration)
  {
    if calls != [] {
      AllReturnedTotals(calls[1..], start[1..]);
    }
  }

  lemma LargestIsRecorded(end: Stats, start: Stats)
    requires |end.calls| == |start.calls| && AllReturned(end)
    requires forall i :: 0 <= i < |end.calls| ==> end.calls[i].duration == start.calls[i].duration
    requires start.max <= end.max && MaxIsRecorded(end, start.max)
    requires forall c :: c in end.calls ==> CallInv(end, c)
    ensures end.max == Largest(start.calls, start.max)
  {
    var largest := Largest(start.calls, start.max);
    if end.max != start.max {
      var i :| 0 <= i < |end.calls| && end.calls[i].at == Returned && end.calls[i].duration == end.max;
      assert start.calls[i] in start.calls && start.calls[i].duration == end.max;
    }
    if largest != start.max {
      var c :| c in start.calls && c.duration == largest;
      var i :| 0 <= i < |start.calls| && start.calls[i] == c;
      assert end.calls[i] in end.calls && CallInv(end, end.calls[i]);
    }
  }

  lemma InvAtTheEnd(end: Stats, start: Stats)
    requires Inv(end, start) && AllReturned(end)
    ensures end.count == Wrap(start.count + |start.calls|)
    ensures end.sum == Wrap(start.sum + Total(start.calls, Duration))
    ensures end.max == Largest(start.calls, start.max)
  {
    hide Wrap, CallInv, MaxIsRecorded, Largest, Total;
    AllReturnedTotals(end.calls, start.calls);
    LargestIsRecorded(end, start);
  }

  // However the calls interleave: once all have returned, the count, the sum (modulo 2^64) and the
  // maximum are those of the recorded durations.
  lemma NothingIsLost(start: Stats, steps: seq<nat>)
    requires Start(start) && Runs(start, steps) && AllReturned(After(start, steps))
    ensures var end := After(start, steps);
            && end.count == Wrap(start.count + |start.calls|)
            && end.sum == Wrap(start.sum + Total(start.calls, Duration))
            && end.max == Largest(start.calls, start.max)
  {
    hide Total, Largest, CallInv;
    StartInv(start);
    RunKeepsInv(start, start, steps);
    InvAtTheEnd(After(start, steps), start);
  }

  // The maximum never decreases, and a call that loses a compare-and-swap lost it to a strict raise
  // made after its load.
  lemma LostSwapsArePaidFor(start: Stats, steps: seq<nat>, i: nat, more: seq<nat>)
    requires Start(start) && Runs(start, steps) && Enabled(After(start, steps), i)
    requires After(start, steps).calls[i].at == Load
    requires var loaded := Apply(After(start, steps), i);
             Runs(loaded, more) && i !in more && Enabled(After(loaded, more), i)
    ensures var loaded := Apply(After(start, steps), i);
            var before := After(loaded, more);
            && loaded.max <= before.max
            && (Apply(before, i).calls[i].failures > before.calls[i].failures <==> before.raises > loaded.raises)
            && (before.raises > loaded.raises <==> before.max > loaded.max)
  {
    StartInv(start);
    RunKeepsInv(start, start, steps);
    var loaded := Apply(After(start, steps), i);
    StepKeepsInv(After(start, steps), start, i);
    if loaded.calls[i].at.Swap? {
      Untouched(loaded, more, i);
      RunKeepsInv(loaded, start, more);
      assert CallInv(After(loaded, more), After(loaded, more).calls[i]);
    } else {
      Untouched(loaded, more, i);
    }
  }

  lemma {:induction false} Untouched(s: Stats, steps: seq<nat>, i: nat)
    requires Runs(s, steps) && i !in steps && i < |s.calls|
    ensures |After(s, steps).calls| == |s.calls| && After(s, steps).calls[i] == s.calls[i]
    decreases |steps|
  {
    if steps != [] {
      Untouched(Apply(s, steps[0]), steps[1..], i);
    }
  }

  // There are at most as many raises as returned calls, so a call loses fewer swaps than there are calls.
  lemma RetriesAreBounded(start: Stats, steps: seq<nat>, i: nat)
    requires Start(start) && Runs(start, steps) && i < |start.calls|
    ensures var end := After(start, steps);
            && i < |end.calls|
            && end.calls[i].failures <= |start.calls| - 1
            && end.raises <= Total(end.calls, HasReturned)
  {
    StartInv(start);
    RunKeepsInv(start, start, steps);
    var end := After(start, steps);
    assert CallInv(end, end.calls[i]);
    if end.calls[i].at != Returned {
      SomeoneIsMissing(end.calls, i);
    }
  }

  lemma {:induction false} StepsAreWork(s: Stats, steps: seq<nat>)
    requires Runs(s, steps)
    ensures |steps| + Total(s.calls, Work) <= Total(After(s, steps).calls, Work)
    decreases |steps|
  {
    if steps != [] {
      var i, next := steps[0], Apply(s, steps[0]);
      assert next.calls == s.calls[i := next.calls[i]];
      TotalUpdate(s.calls, i, next.calls[i], Work);
      StepsAreWork(next, steps[1..]);
    }
  }

  // Every run of n calls ends, after at most n * (2n + 2) atomic operations; one that cannot go on
  // has seen every call return.
  lemma RunsAreFinite(start: Stats, steps: seq<nat>)
    requires Start(start) && Runs(start, steps)
    ensures |steps| <= |start.calls| * (2 * |start.calls| + 2)
    ensures (forall i: nat :: !Enabled(After(start, steps), i)) <==> AllReturned(After(start, steps))
  {
    StartTotals(start.calls);
    StepsAreWork(start, steps);
    StartInv(start);
    RunKeepsInv(start, start, steps);
    var end := After(start, steps);
    forall c | c in end.calls
      ensures Work(c) <= 2 * |start.calls| + 2
    {
      var i :| 0 <= i < |end.calls| && end.calls[i] == c;
      RetriesAreBounded(start, steps, i);
    }
    TotalBound(end.calls, Work, 2 * |start.calls| + 2);
    if forall i: nat :: !Enabled(end, i) {
      forall c | c in end.calls
        ensures c.at == Returned
      {
        var i: nat :| i < |end.calls| && end.calls[i] == c;
        assert !Enabled(end, i);
      }
    }
  }
}
