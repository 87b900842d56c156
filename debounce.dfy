/**
 * `debounce(func, wait)` of src/main.js: every call clears the pending
 * timeout and schedules `func` again `wait` milliseconds later, so a burst
 * of calls runs `func` once, `wait` after the last of them.
 *
 * The closure's `timeout` variable is an optional deadline.  Host timers
 * are explicit `Elapse(t)` events: the host runs a pending timeout whose
 * deadline is at or before t.
 */
module Debounce {
  import opened Wrappers

  /** The delay src/main.js gives its repair callback. */
  const RepairWait: nat := 50

  datatype Event = Call(at: int) | Elapse(at: int)

  /** One event: the new `timeout`, and whether `func` ran. */
  function Step(timeout: Option<int>, e: Event, wait: nat): (Option<int>, bool)
  {
    match e
    case Call(t) => (Some(t + wait), false)
    case Elapse(t) => if timeout.Some? && timeout.value <= t then (None, true) else (timeout, false)
  }

  /** The final `timeout` after evs, and how many times `func` ran. */
  function Run(timeout: Option<int>, evs: seq<Event>, wait: nat): (Option<int>, nat)
    decreases |evs|
  {
    if evs == [] then (timeout, 0)
    else
      var (t, ran) := Step(timeout, evs[0], wait);
      var (t', n) := Run(t, evs[1..], wait);
      (t', n + if ran then 1 else 0)
  }

  lemma {:induction false} RunSplit(timeout: Option<int>, a: seq<Event>, b: seq<Event>, wait: nat)
    ensures var (t, n) := Run(timeout, a, wait);
            var (t', m) := Run(t, b, wait);
            Run(timeout, a + b, wait) == (t', n + m)
    decreases |a|
  {
    if a == [] {
      assert a + b == b;
    } else {
      assert (a + b)[1..] == a[1..] + b;
      RunSplit(Step(timeout, a[0], wait).0, a[1..], b, wait);
    }
  }

  /** Every event comes before the latest call's deadline; `last` is the latest call before evs. */
  predicate Burst(last: int, evs: seq<Event>, wait: nat)
    decreases |evs|
  {
    evs == [] ||
    (last <= evs[0].at < last + wait &&
     Burst(if evs[0].Call? then evs[0].at else last, evs[1..], wait))
  }

  /** The time of the last call of a burst that follows a call at `last`. */
  function LastCall(last: int, evs: seq<Event>): (l: int)
    decreases |evs|
  {
    if evs == [] then last
    else LastCall(if evs[0].Call? then evs[0].at else last, evs[1..])
  }

  /** Inside a burst `func` never runs, and the deadline follows the latest call. */
  lemma {:induction false} BurstDefers(last: int, evs: seq<Event>, wait: nat)
    requires Burst(last, evs, wait)
    ensures Run(Some(last + wait), evs, wait) == (Some(LastCall(last, evs) + wait), 0)
    decreases |evs|
  {
    if evs != [] {
      BurstDefers(if evs[0].Call? then evs[0].at else last, evs[1..], wait);
    }
  }

  /**
   * A call at `first`, a burst of events, then the host's timer at time t:
   * `func` has run exactly once if t is at least `wait` after the last call,
   * and not at all otherwise, whatever timeout was pending before.
   */
  lemma BurstRunsOnce(pending: Option<int>, first: int, evs: seq<Event>, t: int, wait: nat)
    requires Burst(first, evs, wait)
    ensures var l := LastCall(first, evs);
            Run(pending, [Call(first)] + evs + [Elapse(t)], wait) ==
              if l + wait <= t then (None, 1) else (Some(l + wait), 0)
  {
    BurstDefers(first, evs, wait);
    RunSplit(pending, [Call(first)], evs, wait);
    RunSplit(pending, [Call(first)] + evs, [Elapse(t)], wait);
  }
}
