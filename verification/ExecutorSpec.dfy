/** The two interpreters of a micro sequence, as functions: the blocking one runs a
    sequence to its end, the resumable one advances it by one tick. */
module ExecutorSpec {
  import opened Bytes
  import opened Interface
  import opened MicroOps

  const MAX_STEPS := 30

  datatype Phase = Idle | Running | WaitingDelay | Completed | Failed
  datatype Program = NoSequence | Sequence(steps: seq<Op>)

  /** The fields of an executor. */
  datatype Core = Core(
    active: Program, index: nat, loop: bool, phase: Phase,
    delayStart: uint32, delayDuration: uint32)

  const STOPPED := Core(NoSequence, 0, false, Idle, 0, 0)

  predicate IsRunning(c: Core) {
    c.phase == Running || c.phase == WaitingDelay
  }

  ghost predicate WellFormed(c: Core) {
    c.active.Sequence? ==>
      c.index <= |c.active.steps| && (c.phase == WaitingDelay ==> c.index < |c.active.steps|)
  }

  function Start(c: Core, steps: seq<Op>, loop: bool): (bool, Core) {
    if IsRunning(c) || |steps| == 0 || |steps| > MAX_STEPS then (false, c)
    else (true, Core(Sequence(steps), 0, loop, Running, 0, 0))
  }

  /** A stopped executor starts every sequence of 1 to 30 steps, at its first one, and no other. */
  lemma StartsOneToThirtySteps(c: Core, steps: seq<Op>, loop: bool)
    ensures var (ok, c') := Start(c, steps, loop);
            && (ok <==> c.phase != Running && c.phase != WaitingDelay && 1 <= |steps| <= 30)
            && (if ok then c'.active == Sequence(steps) && c'.index == 0 && c'.loop == loop && c'.phase == Running else c' == c)
  {
  }

  function NextAfterIf(op: Op, i: nat, w: World): nat
    requires op.IfCondition?
  {
    if Holds(op, w.vars) then i + 1 else i + op.bodyCount + 1
  }

  /** The blocking interpreter, from step `i` on. */
  function RunImmediate(steps: seq<Op>, i: nat, w: World, m: Machine): (bool, World)
    requires i <= |steps|
    decreases |steps| - i
  {
    if i == |steps| then (true, w)
    else
      var op := steps[i];
      if op.DelayMs? then
        RunImmediate(steps, i + 1, w.(pauses := w.pauses + [op.ms]), m)
      else if op.IfCondition? then
        if !ConditionAllowed(op, |w.vars|) || i + op.bodyCount >= |steps| then (false, w)
        else RunImmediate(steps, NextAfterIf(op, i, w), w, m)
      else
        var (status, w') := m(op, w);
        if status == Ok then RunImmediate(steps, i + 1, w', m) else (false, w')
  }

  lemma RunOverIf(steps: seq<Op>, i: nat, w: World, m: Machine)
    requires i < |steps| && steps[i].IfCondition? && i + steps[i].bodyCount < |steps|
    ensures RunImmediate(steps, i, w, m) ==
      if ConditionAllowed(steps[i], |w.vars|)
      then RunImmediate(steps, NextAfterIf(steps[i], i, w), w, m) else (false, w)
  {
  }

  lemma RunOverStep(steps: seq<Op>, i: nat, w: World, m: Machine)
    requires i < |steps| && !steps[i].IfCondition? && !steps[i].DelayMs?
    ensures RunImmediate(steps, i, w, m) ==
      if m(steps[i], w).0 == Ok then RunImmediate(steps, i + 1, m(steps[i], w).1, m)
      else (false, m(steps[i], w).1)
  {
  }

  /** Why the resumable interpreter gave control back, and where. */
  datatype Exit =
    | Finished(w: World)
    | Sleeping(at: nat, ms: uint32, w: World)
    | Stalled(at: nat, w: World)
    | Aborted(at: nat, w: World)
    | Moved(move: Move, w: World)

  function MoveOf(op: Op): Move
    requires IsMove(op)
  {
    if op.MoveToError? then ToError else ToEmergency
  }

  function Advance(steps: seq<Op>, i: nat, w: World, m: Machine): (x: Exit)
    requires i <= |steps|
    ensures x.Sleeping? || x.Stalled? || x.Aborted? ==> i <= x.at < |steps|
    decreases |steps| - i
  {
    if i == |steps| then Finished(w)
    else
      var op := steps[i];
      if op.DelayMs? then
        Sleeping(i, op.ms, w.(pauses := w.pauses + [op.ms]))
      else if op.IfCondition? then
        if !ConditionAllowed(op, |w.vars|) || i + op.bodyCount >= |steps| then Aborted(i, w)
        else Advance(steps, NextAfterIf(op, i, w), w, m)
      else
        var (status, w') := m(op, w);
        if status == Busy then Stalled(i, w')
        else if status != Ok then Aborted(i, w')
        else if IsMove(op) then Moved(MoveOf(op), w')
        else Advance(steps, i + 1, w', m)
  }

  lemma AdvanceOverStep(steps: seq<Op>, i: nat, w: World, m: Machine)
    requires i < |steps| && !steps[i].DelayMs? && !steps[i].IfCondition? && !IsMove(steps[i])
    requires m(steps[i], w).0 == Ok
    ensures Advance(steps, i, w, m)
         == Advance(steps, i + 1, m(steps[i], w).1, m)
  {
  }

  lemma AdvanceOverIf(steps: seq<Op>, i: nat, w: World, m: Machine)
    requires i < |steps| && steps[i].IfCondition? && i + steps[i].bodyCount < |steps|
    requires ConditionAllowed(steps[i], |w.vars|)
    ensures Advance(steps, i, w, m) == Advance(steps, NextAfterIf(steps[i], i, w), w, m)
  {
  }

  /** The 32-bit tick comparison of a pending delay. */
  predicate DelayDue(c: Core, now: uint32) {
    c.delayDuration == 0 || (now - c.delayStart) % TWO_32 >= c.delayDuration
  }

  /** Whether a tick leaves the executor where it is because of a pending delay. */
  predicate Resting(c: Core, now: uint32) {
    c.phase == WaitingDelay && c.active.Sequence? && !DelayDue(c, now)
  }

  /** The fields once a pending delay is over: past the delay step, running again. */
  function Resumed(c: Core): Core {
    if c.phase == WaitingDelay then c.(delayDuration := 0, index := c.index + 1, phase := Running) else c
  }

  /** The fields after the tick's loop gave control back. */
  function Settle(c: Core, x: Exit, begin: uint32): Core {
    match x
    case Finished(_) =>
      if c.loop then c.(index := 0, phase := Running) else c.(active := NoSequence, index := 0, phase := Idle)
    case Sleeping(at, ms, _) => c.(index := at, phase := WaitingDelay, delayStart := begin, delayDuration := ms)
    case Stalled(at, _) => c.(index := at)
    case Aborted(at, _) => c.(active := NoSequence, index := at, phase := Failed)
    case Moved(_, _) => STOPPED
  }

  /** Whether a tick gets to run steps of the sequence. */
  predicate Advances(c: Core, now: uint32) {
    IsRunning(c) && c.active.Sequence? && !Resting(c, now)
  }

  function ExitOf(c: Core, w: World, m: Machine): Exit
    requires WellFormed(c) && c.active.Sequence?
  {
    Advance(c.active.steps, Resumed(c).index, w, m)
  }

  /** One tick. `now` is the clock when a pending delay is checked, `begin` the clock
      when a new delay starts. */
  function Tick(c: Core, w: World, m: Machine, now: uint32, begin: uint32): (r: (Core, World))
    requires WellFormed(c)
    ensures WellFormed(r.0)
  {
    if Advances(c, now) then
      var x := ExitOf(c, w, m);
      (Settle(Resumed(c), x, begin), x.w)
    else if IsRunning(c) && c.active.NoSequence? then (c.(phase := Failed), w)
    else (c, w)
  }

  /** The controller move a tick ends with, if any. */
  datatype MoveRequest = NoMove | Requested(move: Move)

  function TickMove(c: Core, w: World, m: Machine, now: uint32): MoveRequest
    requires WellFormed(c)
  {
    if Advances(c, now) && ExitOf(c, w, m).Moved? then Requested(ExitOf(c, w, m).move) else NoMove
  }

  /** The two clock readings a tick may take. */
  datatype Moment = Moment(now: uint32, begin: uint32)

  function RunTicks(c: Core, w: World, m: Machine, clock: seq<Moment>): (r: (Core, World))
    requires WellFormed(c)
    ensures WellFormed(r.0)
  {
    if clock == [] then (c, w)
    else
      var n := |clock| - 1;
      var (c', w') := RunTicks(c, w, m, clock[..n]);
      Tick(c', w', m, clock[n].now, clock[n].begin)
  }
}
