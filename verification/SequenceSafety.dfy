/** What no sequence can do, whatever its steps are: the driver calls that any run makes. */
module SequenceSafety {
  import opened Interface
  import opened MicroOps
  import opened ExecutorSpec
  import opened OperationMeanings

  /** Safety pins are not written as plain pins, converters get values in their range, and a bus
      transfer has 1 to 8 bytes; CAN and the safety line are used only when they are there. */
  predicate Legal(call: Call, wiring: Wiring) {
    match call
    case WritePin(port, pin, _) => (port, pin) !in wiring.safetyPins
    case ReadPin(_, _) => true
    case ReadAdcRaw(inst, _) => 1 <= inst <= 2
    case ReadAdcMillivolts(inst, _) => 1 <= inst <= 2
    case SetDac(value) => value <= 4095
    case SetPwm(frequency, duty) => frequency > 0 && duty <= 100
    case Send(link, data) => 1 <= |data| <= 8 && (link.Can? ==> wiring.can)
    case Fetch(link, length) => 1 <= length <= 8 && (link.Can? ==> wiring.can)
    case DriveSafety(_) => wiring.safety
  }

  /** From `w` to `w'` the calls made are legal, the table of slots has kept its size, and nothing
      that was recorded is gone. */
  ghost predicate Follows(w: World, w': World, wiring: Wiring) {
    && |w'.vars| == |w.vars|
    && w.log <= w'.log && w.pauses <= w'.pauses && w.moves <= w'.moves
    && (forall k :: |w.log| <= k < |w'.log| ==> Legal(w'.log[k].call, wiring))
    && (!wiring.controller ==> w'.moves == w.moves)
  }

  lemma FollowsOn(a: World, b: World, c: World, wiring: Wiring)
    requires Follows(a, b, wiring) && Follows(b, c, wiring)
    ensures Follows(a, c, wiring)
  {
    forall k | |a.log| <= k < |c.log| ensures Legal(c.log[k].call, wiring) {
      if k < |b.log| {
        assert c.log[k] == b.log[k];
      }
    }
  }

  lemma StepFollows(op: Op, w: World, o: Oracle, wiring: Wiring)
    ensures Follows(w, Board(o, wiring)(op, w).1, wiring)
  {
    if op.Transmit? || op.Receive? {
      BusStepFollows(op, w, o, wiring);
    } else if op.DacWrite? || op.PwmSet? || op.AdcRead? {
      ConverterStepFollows(op, w, o, wiring);
    } else if op.GpioWrite? || op.GpioRead? || op.TriggerSafety? {
      PinStepFollows(op, w, o, wiring);
    } else {
      QuietStepFollows(op, w, o, wiring);
    }
  }

  lemma BusStepFollows(op: Op, w: World, o: Oracle, wiring: Wiring)
    requires op.Transmit? || op.Receive?
    ensures Follows(w, Board(o, wiring)(op, w).1, wiring)
  {
    match op
    case Transmit(link, length, useVar, i, data) => TransmitSends(link, length, useVar, i, data, w, o, wiring);
    case Receive(link, length, i) => ReceiveStores(link, length, i, w, o, wiring);
  }

  lemma ConverterStepFollows(op: Op, w: World, o: Oracle, wiring: Wiring)
    requires op.DacWrite? || op.PwmSet? || op.AdcRead?
    ensures Follows(w, Board(o, wiring)(op, w).1, wiring)
  {
    match op
    case DacWrite(inst, useVar, i, literal) => DacWriteSets(inst, useVar, i, literal, w, o, wiring);
    case PwmSet(frequency, useVar, i, duty) => PwmSetSets(frequency, useVar, i, duty, w, o, wiring);
    case AdcRead(inst, channel, i, storeRaw) => AdcReadStores(inst, channel, i, storeRaw, w, o, wiring);
  }

  lemma PinStepFollows(op: Op, w: World, o: Oracle, wiring: Wiring)
    requires op.GpioWrite? || op.GpioRead? || op.TriggerSafety?
    ensures Follows(w, Board(o, wiring)(op, w).1, wiring)
  {
    match op
    case GpioWrite(port, pin, value) => GpioWriteDrives(port, pin, value, w, o, wiring);
    case GpioRead(port, pin, i) => GpioReadStores(port, pin, i, w, o, wiring);
    case TriggerSafety(value) => TriggerSafetyDrives(value, w, o, wiring);
  }

  /** The operations that call no driver. */
  lemma QuietStepFollows(op: Op, w: World, o: Oracle, wiring: Wiring)
    requires !op.Transmit? && !op.Receive? && !op.DacWrite? && !op.PwmSet? && !op.AdcRead?
    requires !op.GpioWrite? && !op.GpioRead? && !op.TriggerSafety?
    ensures Follows(w, Board(o, wiring)(op, w).1, wiring)
  {
    match op
    case VarSet(i, value) => VarSetStores(i, value, w, o, wiring);
    case VarMul(dest, src, numerator, d) => VarMulScales(dest, src, numerator, d, w, o, wiring);
    case VarAdd(dest, src, addend) => VarAddAdds(dest, src, addend, w, o, wiring);
    case VarBytesAssign(dest, src, index, count) => VarBytesAssignReplaces(dest, src, index, count, w, o, wiring);
    case MoveToError => MoveAsksController(op, w, o, wiring);
    case MoveToEmergency => MoveAsksController(op, w, o, wiring);
    case _ => OtherStepsDoNothing(op, w, o, wiring);
  }

  lemma {:induction false} AdvanceFollows(steps: seq<Op>, i: nat, w: World, o: Oracle, wiring: Wiring)
    requires i <= |steps|
    ensures Follows(w, Advance(steps, i, w, Board(o, wiring)).w, wiring)
    decreases |steps| - i
  {
    var m := Board(o, wiring);
    if i < |steps| && !steps[i].DelayMs? {
      var op := steps[i];
      if op.IfCondition? {
        if ConditionAllowed(op, |w.vars|) && i + op.bodyCount < |steps| {
          AdvanceFollows(steps, NextAfterIf(op, i, w), w, o, wiring);
        }
      } else {
        StepFollows(op, w, o, wiring);
        if m(op, w).0 == Ok && !IsMove(op) {
          AdvanceOverStep(steps, i, w, m);
          AdvanceFollows(steps, i + 1, m(op, w).1, o, wiring);
          FollowsOn(w, m(op, w).1, Advance(steps, i, w, m).w, wiring);
        }
      }
    }
  }

  lemma {:induction false} ImmediateFollows(steps: seq<Op>, i: nat, w: World, o: Oracle, wiring: Wiring)
    requires i <= |steps|
    ensures Follows(w, RunImmediate(steps, i, w, Board(o, wiring)).1, wiring)
    decreases |steps| - i
  {
    var m := Board(o, wiring);
    if i < |steps| {
      var op := steps[i];
      if op.DelayMs? {
        var w' := w.(pauses := w.pauses + [op.ms]);
        ImmediateFollows(steps, i + 1, w', o, wiring);
        FollowsOn(w, w', RunImmediate(steps, i, w, m).1, wiring);
      } else if op.IfCondition? {
        if ConditionAllowed(op, |w.vars|) && i + op.bodyCount < |steps| {
          ImmediateFollows(steps, NextAfterIf(op, i, w), w, o, wiring);
        }
      } else {
        StepFollows(op, w, o, wiring);
        RunOverStep(steps, i, w, m);
        if m(op, w).0 == Ok {
          ImmediateFollows(steps, i + 1, m(op, w).1, o, wiring);
          FollowsOn(w, m(op, w).1, RunImmediate(steps, i, w, m).1, wiring);
        }
      }
    }
  }

  /** Any executor, after any ticks. */
  lemma {:induction false} TicksMakeLegalCalls(c: Core, w: World, o: Oracle, wiring: Wiring, clock: seq<Moment>)
    requires WellFormed(c)
    ensures Follows(w, RunTicks(c, w, Board(o, wiring), clock).1, wiring)
  {
    if clock != [] {
      var n, m := |clock| - 1, Board(o, wiring);
      var (c', w') := RunTicks(c, w, m, clock[..n]);
      TicksMakeLegalCalls(c, w, o, wiring, clock[..n]);
      if Advances(c', clock[n].now) {
        AdvanceFollows(c'.active.steps, Resumed(c').index, w', o, wiring);
      }
      FollowsOn(w, w', Tick(c', w', m, clock[n].now, clock[n].begin).1, wiring);
    }
  }
}
