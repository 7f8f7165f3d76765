/** How many ticks a sequence needs, and how much time its delays take. */
module ExecutorProgress {
  import opened Bytes
  import opened MicroOps
  import opened ExecutorSpec

  function DelaysFrom(steps: seq<Op>, i: nat): nat
    requires i <= |steps|
    decreases |steps| - i
  {
    if i == |steps| then 0
    else (if steps[i].DelayMs? then 1 else 0) + DelaysFrom(steps, i + 1)
  }

  lemma {:induction false} FewerDelaysLater(steps: seq<Op>, i: nat, j: nat)
    requires i <= j <= |steps|
    ensures DelaysFrom(steps, j) <= DelaysFrom(steps, i)
    decreases j - i
  {
    if i < j {
      FewerDelaysLater(steps, i + 1, j);
    }
  }

  /** A tick that waits for a pending delay or finds the CAN bus busy. */
  predicate Stalls(c: Core, w: World, m: Machine, now: uint32)
    requires WellFormed(c)
  {
    IsRunning(c) && c.active.Sequence? && (Resting(c, now) || ExitOf(c, w, m).Stalled?)
  }

  /** An upper bound on the unstalled ticks a running, non-looping sequence still needs. */
  function Budget(c: Core): nat
    requires WellFormed(c)
  {
    if IsRunning(c) && c.active.Sequence? then 1 + DelaysFrom(c.active.steps, Resumed(c).index) else 0
  }

  lemma {:induction false} StopsAtDelay(steps: seq<Op>, i: nat, w: World, m: Machine)
    requires i <= |steps| && Advance(steps, i, w, m).Sleeping?
    ensures steps[Advance(steps, i, w, m).at].DelayMs?
    decreases |steps| - i
  {
    var op := steps[i];
    if op.DelayMs? {
    } else if op.IfCondition? {
      StopsAtDelay(steps, NextAfterIf(op, i, w), w, m);
    } else {
      StopsAtDelay(steps, i + 1, m(op, w).1, m);
    }
  }

  /** Every unstalled tick of a non-looping sequence uses up budget; no tick adds any. */
  lemma TickSpendsBudget(c: Core, w: World, m: Machine, at: Moment)
    requires WellFormed(c) && IsRunning(c) && c.active.Sequence? && !c.loop
    ensures var c' := Tick(c, w, m, at.now, at.begin).0;
            && Budget(c') + (if Stalls(c, w, m, at.now) then 0 else 1) <= Budget(c)
            && (IsRunning(c') ==> c'.active == c.active && !c'.loop)
  {
    if Advances(c, at.now) {
      var steps, i := c.active.steps, Resumed(c).index;
      var x := ExitOf(c, w, m);
      if x.Stalled? {
        FewerDelaysLater(steps, i, x.at);
      } else if x.Sleeping? {
        StopsAtDelay(steps, i, w, m);
        FewerDelaysLater(steps, i, x.at);
      }
    }
  }

  /** The length of the delay a tick starts, if it starts one. */
  function DelayStarted(c: Core, w: World, m: Machine, now: uint32): nat
    requires WellFormed(c)
  {
    if Advances(c, now) && ExitOf(c, w, m).Sleeping? then ExitOf(c, w, m).ms else 0
  }

  /** A real, never wrapping clock; the firmware sees it modulo 2^32. */
  datatype Instant = Instant(now: nat, begin: nat)

  function Seen(t: Instant): Moment {
    Moment(t.now % TWO_32, t.begin % TWO_32)
  }

  /** A delay is over exactly when its milliseconds have passed since it was started, on a real clock
      that has not gone all the way round meanwhile; a delay of 0 never holds a tick up. */
  lemma DelayEndsOnTime(c: Core, since: nat, now: nat)
    requires c.phase == WaitingDelay && c.active.Sequence? && c.delayStart == since % TWO_32
    requires since <= now < since + TWO_32
    ensures Resting(c, now % TWO_32) <==> now < since + c.delayDuration
  {
    ClockDifference(since, now);
  }

  /** `total` is the length of all delays started since the real time `first`, and `since`
      the real time at which a pending delay was started: the delays that are over
      fit into the time that has passed. */
  ghost predicate Accounted(c: Core, total: nat, since: nat, first: nat, t: nat) {
    && first <= t
    && if c.phase == WaitingDelay && c.active.Sequence?
       then && first <= since <= t && c.delayStart == since % TWO_32
            && c.delayDuration <= total && total - c.delayDuration <= since - first
       else total <= t - first
  }

  /** Over any tick, delays take at least as long as they say, even when the 32-bit clock
      wraps in between. */
  lemma TickAccounts(c: Core, w: World, m: Machine, total: nat, since: nat, first: nat, t: nat, at: Instant)
    requires WellFormed(c) && Accounted(c, total, since, first, t) && t <= at.now <= at.begin
    ensures var s := Seen(at);
            var d := DelayStarted(c, w, m, s.now);
            var started := Advances(c, s.now) && ExitOf(c, w, m).Sleeping?;
            Accounted(Tick(c, w, m, s.now, s.begin).0, total + d,
                      if started then at.begin else since, first, at.begin)
  {
    if c.phase == WaitingDelay && c.active.Sequence? {
      ClockDifference(since, at.now);
    }
  }
}
