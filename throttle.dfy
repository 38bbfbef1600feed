/**
 * SaimonApp.throttle: a wrapper that runs the wrapped function on a call
 * only when no earlier run is still inside its interval. The interval's end
 * is the timer callback that clears `inThrottle`; the clock itself is not
 * modelled, only the moment the timer fires.
 */
module Throttling {

  datatype ThrottleEvent = Call | TimerFired

  /** One event: the new `inThrottle` and whether the wrapped function ran. */
  function ThrottleStep(inThrottle: bool, e: ThrottleEvent): (r: (bool, bool))
    ensures r.1 <==> e == Call && !inThrottle
    ensures r.0 <==> e == Call
  {
    match e
    case Call => if !inThrottle then (true, true) else (true, false)
    case TimerFired => (false, false)
  }

  /** `inThrottle` after a run of events. */
  function ThrottledAfter(inThrottle: bool, events: seq<ThrottleEvent>): bool
    decreases |events|
  {
    if events == [] then inThrottle
    else ThrottledAfter(ThrottleStep(inThrottle, events[0]).0, events[1..])
  }

  /** How many times the wrapped function ran during a run of events. */
  function Runs(inThrottle: bool, events: seq<ThrottleEvent>): nat
    decreases |events|
  {
    if events == [] then 0
    else
      var (next, ran) := ThrottleStep(inThrottle, events[0]);
      (if ran then 1 else 0) + Runs(next, events[1..])
  }

  /** How many times the timer fired during a run of events. */
  function Fired(events: seq<ThrottleEvent>): nat
    decreases |events|
  {
    if events == [] then 0 else (if events[0] == TimerFired then 1 else 0) + Fired(events[1..])
  }

  /** Runs never outpace the timer: every run after the first needs a timer
      firing since the run before it. Stated with the slack each state leaves
      (one free run when not throttled). */
  lemma {:induction false} RunsBoundedByFirings(inThrottle: bool, events: seq<ThrottleEvent>)
    ensures Runs(inThrottle, events) + (if ThrottledAfter(inThrottle, events) then 0 else 1)
      <= Fired(events) + (if inThrottle then 0 else 1)
    decreases |events|
  {
    if events != [] {
      RunsBoundedByFirings(ThrottleStep(inThrottle, events[0]).0, events[1..]);
    }
  }

  /** Without a timer firing, at most one call in any run of calls goes
      through, and none does if a run is already in its interval. */
  lemma AtMostOneRunPerInterval(inThrottle: bool, events: seq<ThrottleEvent>)
    requires forall i :: 0 <= i < |events| ==> events[i] == Call
    ensures Runs(inThrottle, events) <= (if inThrottle then 0 else 1)
  {
    RunsBoundedByFirings(inThrottle, events);
    NoFirings(events);
  }

  /** A run of calls has no timer firing in it. */
  lemma {:induction false} NoFirings(events: seq<ThrottleEvent>)
    requires forall i :: 0 <= i < |events| ==> events[i] == Call
    ensures Fired(events) == 0
    decreases |events|
  {
    if events != [] {
      NoFirings(events[1..]);
    }
  }

  /** The wrapper returned by throttle(func, limit), with a counter of the
      runs of func and a flag for the pending reset timer. */
  class Throttle {
    var inThrottle: bool
    var timerPending: bool
    var runs: nat

    ghost predicate Valid()
      reads this
    {
      timerPending == inThrottle
    }

    /** `let inThrottle;` starts out undefined, which counts as false. */
    constructor ()
      ensures Valid() && !inThrottle && runs == 0
    {
      inThrottle := false;
      timerPending := false;
      runs := 0;
    }

    /** A call of the wrapper. */
    method Invoke() returns (ran: bool)
      requires Valid()
      modifies this
      ensures Valid()
      ensures (inThrottle, ran) == ThrottleStep(old(inThrottle), Call)
      ensures runs == old(runs) + (if ran then 1 else 0)
    {
      ran := false;
      if !inThrottle {
        runs := runs + 1;
        ran := true;
        inThrottle := true;
        timerPending := true;
      }
    }

    /** The timer set by the last run fires and ends its interval. */
    method TimerFires()
      requires Valid() && timerPending
      modifies this
      ensures Valid()
      ensures inThrottle == ThrottleStep(old(inThrottle), TimerFired).0
      ensures runs == old(runs)
    {
      inThrottle := false;
      timerPending := false;
    }
  }
}
