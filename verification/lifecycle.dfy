/** The process phase: one atomic that only moves forward, and the write-once deadline beside it. */
module Lifecycles {

  datatype Option<+T> = None | Some(value: T)

  /** Ordered by discriminant: Starting, Serving, Draining, Stopping, Closing. */
  type Phase = x: int | 0 <= x <= 4

  const STARTING: Phase := 0
  const SERVING: Phase := 1
  const DRAINING: Phase := 2
  const STOPPING: Phase := 3
  const CLOSING: Phase := 4

  function MaxPhase(a: Phase, b: Phase): Phase {
    if a < b then b else a
  }

  class Lifecycle {
    var phase: Phase
    var deadline: Option<int>

    constructor ()
      ensures phase == STARTING && !IsReady() && !IsDraining() && deadline == None
    {
      phase := STARTING;
      deadline := None;
    }

    /** One caller by itself; the weak exchange may fail `spurious` times for no reason before it works. */
    method Enter(next: Phase, spurious: nat) returns (advanced: bool)
      modifies this`phase
      ensures phase == MaxPhase(old(phase), next)
      ensures advanced <==> phase != old(phase)
      ensures next >= DRAINING || old(IsDraining()) ==> IsDraining() && !IsReady()
      ensures next == SERVING && !old(IsDraining()) ==> IsReady()
    {
      var current, left := phase, spurious;
      while true
        invariant phase == old(phase) == current
        decreases left
      {
        if current >= next { return false; }
        if phase == current && left == 0 {
          phase := next;
          return true;
        }
        current, left := phase, left - 1;
      }
    }

    predicate IsReady()
      reads this
    {
      phase == SERVING
    }

    predicate IsDraining()
      reads this
    {
      phase >= DRAINING
    }

    /** The first caller wins, whatever later ones ask for. */
    method ArmDeadline(at: int)
      modifies this`deadline
      ensures deadline == if old(deadline).None? then Some(at) else old(deadline)
    {
      if deadline.None? { deadline := Some(at); }
    }

    /** Saturates at zero. */
    function DeadlineIn(now: int): (left: Option<nat>)
      reads this
      ensures left.Some? <==> deadline.Some?
      ensures left.Some? ==> (left.value == 0 <==> now >= deadline.value)
      ensures left.Some? && left.value > 0 ==> now + left.value == deadline.value
    {
      match deadline
      case None => None
      case Some(at) => Some(if at < now then 0 else at - now)
    }
  }
}
