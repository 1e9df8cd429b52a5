/** throttle: a wrapper that runs the wrapped function only when at least
    `wait` milliseconds have passed since it last ran. The clock reading
    `Date.now()` is an argument of each call. */
module Throttling {
  /** Whether a call at time `now` runs the function, given the time it last ran. */
  function Fires(lastTime: int, wait: int, now: int): (r: bool)
    ensures r && wait >= 0 ==> lastTime <= now
    ensures now < lastTime + wait ==> !r
  {
    now - lastTime >= wait
  }

  /** The `lastTime` after a call at `now`. */
  function Step(lastTime: int, wait: int, now: int): (r: int)
    ensures Fires(lastTime, wait, now) ==> r == now
    ensures !Fires(lastTime, wait, now) ==> r == lastTime
    ensures wait >= 0 ==> lastTime <= r
  {
    if Fires(lastTime, wait, now) then now else lastTime
  }

  /** Replaying the calls at `times` from `lastTime`: the times at which the
      function ran, in order. */
  function Fired(lastTime: int, wait: int, times: seq<int>): (r: seq<int>)
    ensures |r| <= |times|
    ensures forall i :: 0 <= i < |r| ==> r[i] in times
    decreases |times|
  {
    if times == [] then []
    else if Fires(lastTime, wait, times[0]) then [times[0]] + Fired(times[0], wait, times[1..])
    else Fired(lastTime, wait, times[1..])
  }

  /** The last time the function ran after replaying `times`. */
  function LastAfter(lastTime: int, wait: int, times: seq<int>): (r: int)
    ensures r == lastTime || r in times
    ensures wait >= 0 ==> lastTime <= r
    decreases |times|
  {
    if times == [] then lastTime else LastAfter(Step(lastTime, wait, times[0]), wait, times[1..])
  }

  /** Every run after the first is at least `wait` after the previous run,
      and the first is at least `wait` after `lastTime`. */
  lemma {:induction false} FiredSpaced(lastTime: int, wait: int, times: seq<int>)
    ensures var r := Fired(lastTime, wait, times);
      (r != [] ==> r[0] - lastTime >= wait)
      && forall i :: 0 < i < |r| ==> r[i] - r[i - 1] >= wait
    decreases |times|
  {
    if times != [] {
      FiredSpaced(Step(lastTime, wait, times[0]), wait, times[1..]);
    }
  }

  /** The clock value kept after replaying `times` is the last run, or the
      starting value when nothing ran. */
  lemma {:induction false} LastAfterIsLastRun(lastTime: int, wait: int, times: seq<int>)
    ensures var r := Fired(lastTime, wait, times);
      LastAfter(lastTime, wait, times) == if r == [] then lastTime else r[|r| - 1]
    decreases |times|
  {
    if times != [] {
      LastAfterIsLastRun(Step(lastTime, wait, times[0]), wait, times[1..]);
    }
  }

  /** Calls within `wait` of a run are all dropped. */
  lemma {:induction false} QuietWindowDrops(lastTime: int, wait: int, times: seq<int>)
    requires forall i :: 0 <= i < |times| ==> times[i] - lastTime < wait
    ensures Fired(lastTime, wait, times) == []
    ensures LastAfter(lastTime, wait, times) == lastTime
    decreases |times|
  {
    if times != [] {
      QuietWindowDrops(lastTime, wait, times[1..]);
    }
  }

  /** The throttled function: `lastTime` starts at 0, and `executed` records
      the arguments of every call that ran the wrapped function. */
  class Throttle<A> {
    const wait: int
    var lastTime: int
    var executed: seq<A>

    constructor(wait: int)
      ensures this.wait == wait && lastTime == 0 && executed == []
    {
      this.wait := wait;
      lastTime := 0;
      executed := [];
    }

    /** One call of the throttled function at time `now`. */
    method Call(now: int, args: A) returns (fired: bool)
      modifies this
      ensures fired <==> Fires(old(lastTime), wait, now)
      ensures lastTime == Step(old(lastTime), wait, now)
      ensures executed == if fired then old(executed) + [args] else old(executed)
    {
      fired := now - lastTime >= wait;
      if fired {
        lastTime := now;
        executed := executed + [args];
      }
    }
  }

  /** Calling a throttle whose wrapped function records the clock reading at
      each of `times` in turn: it runs exactly at Fired's times, so its runs
      are at least `wait` apart, and the kept lastTime is LastAfter's. */
  method Replay(t: Throttle<int>, times: seq<int>) returns (fired: seq<int>)
    modifies t
    ensures fired == Fired(old(t.lastTime), t.wait, times)
    ensures t.lastTime == LastAfter(old(t.lastTime), t.wait, times)
    ensures t.executed == old(t.executed) + fired
    ensures fired != [] ==> fired[0] - old(t.lastTime) >= t.wait
    ensures forall j :: 0 < j < |fired| ==> fired[j] - fired[j - 1] >= t.wait
  {
    fired := [];
    var i := 0;
    while i < |times|
      invariant 0 <= i <= |times|
      invariant Fired(old(t.lastTime), t.wait, times) == fired + Fired(t.lastTime, t.wait, times[i..])
      invariant LastAfter(old(t.lastTime), t.wait, times) == LastAfter(t.lastTime, t.wait, times[i..])
      invariant t.executed == old(t.executed) + fired
    {
      assert times[i..][1..] == times[i + 1..];
      var ran := t.Call(times[i], times[i]);
      if ran {
        fired := fired + [times[i]];
      }
      i := i + 1;
    }
    assert times[i..] == [];
    FiredSpaced(old(t.lastTime), t.wait, times);
  }

  /** Two calls less than `wait` apart run the function once: the library's
      test calls a throttled function with a 100 ms wait twice in a row. */
  method TwoQuickCalls<A>(wait: int, t1: int, t2: int, a1: A, a2: A) returns (t: Throttle<A>)
    requires t1 >= wait && t1 <= t2 < t1 + wait
    ensures t.executed == [a1]
  {
    t := new Throttle(wait);
    var f1 := t.Call(t1, a1);
    var f2 := t.Call(t2, a2);
  }
}
