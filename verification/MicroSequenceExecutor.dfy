/** The executor object: it owns the position in the running sequence and works on the
    shared variable store and peripherals. */
module MicroSequenceExecutor {
  import opened BitOps
  import opened Bytes
  import opened Interface
  import opened Guards
  import opened MicroOps
  import opened MicroVarStore
  import opened ExecutorSpec

  /** The peripheral drivers, seen as the calls made so far and an oracle of answers. */
  class Peripherals {
    const oracle: Oracle
    var log: seq<Event>
    var pauses: seq<uint32>
    var moves: seq<Move>

    constructor (oracle: Oracle)
      ensures this.oracle == oracle && log == [] && pauses == [] && moves == []
    {
      this.oracle := oracle;
      log, pauses, moves := [], [], [];
    }

    /** One driver call and its answer. */
    method Ask(call: Call) returns (a: Answer)
      modifies this
      ensures a == oracle(|old(log)|) && log == old(log) + [Event(call, a)]
      ensures moves == old(moves) && pauses == old(pauses)
    {
      a := oracle(|log|);
      log := log + [Event(call, a)];
    }

    method MoveController(move: Move)
      modifies this
      ensures moves == old(moves) + [move] && log == old(log) && pauses == old(pauses)
    {
      moves := moves + [move];
    }

    method Delay(ms: uint32)
      modifies this
      ensures pauses == old(pauses) + [ms] && log == old(log) && moves == old(moves)
    {
      pauses := pauses + [ms];
    }
  }

  /** One round of the loop: byte `i` of `src` masked and shifted into byte `index + i` of `acc`. */
  function Round(acc: nat, src: nat, index: nat, i: nat): nat
    requires index + i < COMM_DATA_LENGTH
  {
    var srcByte := And(Shr(src, 8 * i), 0xFF);
    ShiftedByteFits(0xFF, index + i, COMM_DATA_LENGTH);
    var mask := Not(Shl(0xFF, 8 * (index + i)), COMM_DATA_LENGTH);
    Or(And(acc, mask), Shl(srcByte, 8 * (index + i)))
  }

  /** It extends the replaced part by one byte. */
  lemma AssignOneByte(acc: nat, dest: nat, src: nat, index: nat, i: nat)
    requires index + i < COMM_DATA_LENGTH && acc < Pow256(COMM_DATA_LENGTH)
    requires ToLE(acc, COMM_DATA_LENGTH) == Splice(ToLE(dest, COMM_DATA_LENGTH), index, ToLE(src, COMM_DATA_LENGTH)[..i])
    ensures Round(acc, src, index, i) < Pow256(COMM_DATA_LENGTH)
    ensures ToLE(Round(acc, src, index, i), COMM_DATA_LENGTH)
         == Splice(ToLE(dest, COMM_DATA_LENGTH), index, ToLE(src, COMM_DATA_LENGTH)[..i + 1])
  {
    MaskedShiftIsByteAt(src, i);
    MaskedOrIsSetByte(acc, index + i, ByteAt(src, i), COMM_DATA_LENGTH);
    SpliceOneByte(acc, dest, src, index, i, COMM_DATA_LENGTH);
  }

  lemma SpliceOneByte(acc: nat, dest: nat, src: nat, index: nat, i: nat, n: nat)
    requires index + i < n && i < n && acc < Pow256(n)
    requires ToLE(acc, n) == Splice(ToLE(dest, n), index, ToLE(src, n)[..i])
    ensures SetByte(acc, index + i, ByteAt(src, i)) < Pow256(n)
    ensures ToLE(SetByte(acc, index + i, ByteAt(src, i)), n) == Splice(ToLE(dest, n), index, ToLE(src, n)[..i + 1])
  {
    ByteAtIsByte(src, i, n);
    SetByteReplacesOne(acc, index + i, ByteAt(src, i), n);
    SetByteStaysSmall(acc, index + i, ByteAt(src, i), n);
  }

  /** Bytes [index, index + count) of `dest` become the low `count` bytes of `src`,
      one masked and shifted byte at a time. */
  method AssignBytes(dest: int64, src: int64, index: nat, count: nat) returns (result: int64)
    requires index + count <= COMM_DATA_LENGTH
    ensures SlotBytes(result) == Splice(SlotBytes(dest), index, SlotBytes(src)[..count])
    ensures result == BytesAssigned(dest, src, index, count)
  {
    var acc: nat := Unsigned(dest);
    Pow256Of8();
    for i := 0 to count
      invariant acc < Pow256(COMM_DATA_LENGTH)
      invariant ToLE(acc, COMM_DATA_LENGTH) == Splice(SlotBytes(dest), index, SlotBytes(src)[..i])
    {
      AssignOneByte(acc, Unsigned(dest), Unsigned(src), index, i);
      acc := Round(acc, Unsigned(src), index, i);
    }
    NumberOfBytes(acc, COMM_DATA_LENGTH);
    result := Signed(acc);
  }

  class Executor {
    const store: VarStore?
    const bus: Peripherals
    const wiring: Wiring

    var active: Program
    var stepIndex: nat
    var loopOnComplete: bool
    var phase: Phase
    var delayStart: uint32
    var delayDuration: uint32

    /** How steps act on the surroundings: as on a board with this bus and wiring. */
    ghost const machine: Machine

    constructor (store: VarStore?, bus: Peripherals, wiring: Wiring)
      ensures this.store == store && this.bus == bus && this.wiring == wiring
      ensures Fields() == STOPPED
      ensures machine == Board(bus.oracle, wiring) && Linked()
    {
      this.store, this.bus, this.wiring := store, bus, wiring;
      machine := Board(bus.oracle, wiring);
      active, stepIndex, loopOnComplete, phase := NoSequence, 0, false, Idle;
      delayStart, delayDuration := 0, 0;
    }

    /** `machine` is the board's. `Open(k)` is always true; it keeps the definition of `Board`
        out of proofs that do not ask for it. */
    ghost predicate Linked() {
      forall k: nat :: Open(k) ==> machine == Board(bus.oracle, wiring)
    }

    function Fields(): Core
      reads this
    {
      Core(active, stepIndex, loopOnComplete, phase, delayStart, delayDuration)
    }

    ghost function Shared(): set<object> {
      {bus} + if store == null then {} else {store.vars}
    }

    function Slots(): seq<int64>
      reads Shared()
    {
      if store == null then [] else store.vars[..]
    }

    function Surroundings(): World
      reads Shared()
    {
      World(Slots(), bus.log, bus.pauses, bus.moves)
    }

    /** A driver that succeeds has done its work; any other answer is a failure. */
    function Verdict(a: Answer): Status {
      if a.status == Ok then Ok else Error
    }

    /** What an operation has done to the surroundings that were `before`. */
    ghost predicate Did(op: Op, status: Status, before: World)
      reads Shared()
    {
      (status, Surroundings()) == Execute(op, before, bus.oracle, wiring)
    }

    method ExecuteGpioWrite(op: Op) returns (status: Status)
      requires op.GpioWrite?
      modifies Shared()
      ensures Did(op, status, old(Surroundings()))
    {
      NothingLogged();
      if (op.port, op.pin) in wiring.safetyPins {
        return Error;
      }
      var a := bus.Ask(WritePin(op.port, op.pin, op.value != 0));
      status := Verdict(a);
    }

    method ExecuteGpioRead(op: Op) returns (status: Status)
      requires op.GpioRead?
      modifies Shared()
      ensures Did(op, status, old(Surroundings()))
    {
      NothingLogged();
      if store == null || op.varIndex >= store.vars.Length {
        return Error;
      }
      var a := bus.Ask(ReadPin(op.port, op.pin));
      if a.status != Ok {
        return Error;
      }
      store.Set(op.varIndex, if a.value != 0 then 1 else 0);
      status := Ok;
    }

    method ExecuteAdcRead(op: Op) returns (status: Status)
      requires op.AdcRead?
      modifies Shared()
      ensures Did(op, status, old(Surroundings()))
    {
      NothingLogged();
      if store == null || op.varIndex >= store.vars.Length || op.instance == 0 || op.instance > 2 {
        return Error;
      }
      var a := bus.Ask(ReadAdcRaw(op.instance, op.channel));
      if a.status != Ok {
        return Error;
      }
      var value := Signed(a.value % 0x1_0000);
      if op.storeRaw == 0 {
        var b := bus.Ask(ReadAdcMillivolts(op.instance, op.channel));
        value := if b.status == Ok then Signed(b.value) else value;
        ghost var first, second := Event(ReadAdcRaw(op.instance, op.channel), a), Event(ReadAdcMillivolts(op.instance, op.channel), b);
        assert old(bus.log) + [first, second] == old(bus.log) + [first] + [second];
      }
      store.Set(op.varIndex, value);
      status := Ok;
    }

    method ExecuteDacWrite(op: Op) returns (status: Status)
      requires op.DacWrite?
      modifies Shared()
      ensures Did(op, status, old(Surroundings()))
    {
      NothingLogged();
      if op.instance != 1 {
        return Error;
      }
      var value: nat := op.literal;
      if op.useVar != 0 {
        if store == null || op.varIndex >= store.vars.Length {
          return Error;
        }
        var slot := store.Read(op.varIndex);
        value := Unsigned(slot) % 0x1000;
      } else if value > 0xFFF {
        value := 0xFFF;
      }
      var a := bus.Ask(SetDac(value));
      status := Verdict(a);
    }

    method ExecutePwmSet(op: Op) returns (status: Status)
      requires op.PwmSet?
      modifies Shared()
      ensures Did(op, status, old(Surroundings()))
    {
      NothingLogged();
      if op.frequency == 0 {
        return Error;
      }
      var duty: nat := op.duty;
      if op.useVar != 0 {
        if store == null || op.varIndex >= store.vars.Length {
          return Error;
        }
        var slot := store.Read(op.varIndex);
        duty := Unsigned(slot) % 0x1_0000;
      }
      if duty > 100 {
        duty := 100;
      }
      var a := bus.Ask(SetPwm(op.frequency, duty));
      status := Verdict(a);
    }

    /** The bytes to send from a slot, if there is such a slot. */
    method LoadTxBytes(varIndex: byte, length: byte) returns (tx: TxData)
      requires 1 <= length <= COMM_DATA_LENGTH
      ensures tx == if varIndex >= |Slots()| then NoBytes else SomeBytes(ToLE(Unsigned(Slots()[varIndex]), length))
    {
      if store == null || varIndex >= store.vars.Length {
        return NoBytes;
      }
      var packed := store.Read(varIndex);
      tx := SomeBytes(ToLE(Unsigned(packed), length));
    }

    /** A CAN frame is cut to 8 bytes, and the driver's own status is handed on. */
    method ExecuteCanTransmit(op: Op) returns (status: Status)
      requires op.Transmit? && op.link.Can?
      modifies Shared()
      ensures Did(op, status, old(Surroundings()))
    {
      NothingLogged();
      if !wiring.can {
        return Error;
      }
      var dlc := if op.length > COMM_DATA_LENGTH then COMM_DATA_LENGTH else op.length;
      if dlc == 0 {
        return Error;
      }
      var tx := SomeBytes(op.data[..dlc]);
      if op.useVar != 0 {
        tx := LoadTxBytes(op.varIndex, dlc);
        if tx.NoBytes? {
          return Error;
        }
      }
      var a := bus.Ask(Send(op.link, tx.bytes));
      status := a.status;
    }

    /** UART, SPI and I2C. */
    method ExecuteBusTransmit(op: Op) returns (status: Status)
      requires op.Transmit? && !op.link.Can?
      modifies Shared()
      ensures Did(op, status, old(Surroundings()))
    {
      NothingLogged();
      if op.length == 0 || op.length > COMM_DATA_LENGTH {
        return Error;
      }
      var tx := SomeBytes(op.data[..op.length]);
      if op.useVar != 0 {
        tx := LoadTxBytes(op.varIndex, op.length);
        if tx.NoBytes? {
          return Error;
        }
      }
      var a := bus.Ask(Send(op.link, tx.bytes));
      status := Verdict(a);
    }

    method ExecuteReceive(op: Op) returns (status: Status)
      requires op.Receive?
      modifies Shared()
      ensures Did(op, status, old(Surroundings()))
    {
      NothingLogged();
      if op.link.Can? && !wiring.can {
        return Error;
      }
      if store == null || op.length == 0 || op.length > COMM_DATA_LENGTH || op.varIndex >= store.vars.Length {
        return Error;
      }
      var a := bus.Ask(Fetch(op.link, op.length));
      if a.status != Ok {
        return Error;
      }
      store.Set(op.varIndex, FromSlotBytes(Received(op.link, a.data, op.length)));
      status := Ok;
    }

    method ExecuteVarSet(op: Op) returns (status: Status)
      requires op.VarSet?
      modifies Shared()
      ensures Did(op, status, old(Surroundings()))
    {
      NothingLogged();
      if store == null || op.varIndex >= store.vars.Length {
        return Error;
      }
      store.Set(op.varIndex, op.slotValue);
      status := Ok;
    }

    method ExecuteVarMul(op: Op) returns (status: Status)
      requires op.VarMul?
      modifies Shared()
      ensures Did(op, status, old(Surroundings()))
    {
      NothingLogged();
      if store == null || op.dest >= store.vars.Length || op.src >= store.vars.Length || op.denominator == 0 {
        return Error;
      }
      var src := store.Read(op.src);
      store.Set(op.dest, Signed(TruncDiv(Signed(src * op.numerator), op.denominator)));
      status := Ok;
    }

    method ExecuteVarAdd(op: Op) returns (status: Status)
      requires op.VarAdd?
      modifies Shared()
      ensures Did(op, status, old(Surroundings()))
    {
      NothingLogged();
      if store == null || op.dest >= store.vars.Length || op.src >= store.vars.Length {
        return Error;
      }
      var src := store.Read(op.src);
      store.Set(op.dest, Signed(src + op.addend));
      status := Ok;
    }

    method ExecuteVarBytesAssign(op: Op) returns (status: Status)
      requires op.VarBytesAssign?
      modifies Shared()
      ensures Did(op, status, old(Surroundings()))
    {
      NothingLogged();
      if store == null || !BytesAssignAllowed(op, store.vars.Length) {
        return Error;
      }
      var dest := store.Read(op.dest);
      var src := store.Read(op.src);
      var result := AssignBytes(dest, src, op.byteIndex, op.byteCount);
      store.Set(op.dest, result);
      status := Ok;
    }

    method ExecuteMove(op: Op) returns (status: Status)
      requires IsMove(op)
      modifies Shared()
      ensures Did(op, status, old(Surroundings()))
    {
      NothingLogged();
      if !wiring.controller {
        return Error;
      }
      bus.MoveController(MoveOf(op));
      status := Ok;
    }

    method ExecuteTriggerSafety(op: Op) returns (status: Status)
      requires op.TriggerSafety?
      modifies Shared()
      ensures Did(op, status, old(Surroundings()))
    {
      NothingLogged();
      if !wiring.safety {
        return Error;
      }
      var a := bus.Ask(DriveSafety(op.value != 0));
      status := Ok;
    }

    lemma NothingLogged()
      ensures bus.log + [] == bus.log && bus.moves + [] == bus.moves
    {
    }

    method Dispatch(op: Op) returns (status: Status)
      modifies Shared()
      ensures Did(op, status, old(Surroundings()))
    {
      NothingLogged();
      match op
      case Nop => status := Ok;
      case GpioWrite(_, _, _) => status := ExecuteGpioWrite(op);
      case GpioRead(_, _, _) => status := ExecuteGpioRead(op);
      case AdcRead(_, _, _, _) => status := ExecuteAdcRead(op);
      case DacWrite(_, _, _, _) => status := ExecuteDacWrite(op);
      case PwmSet(_, _, _, _) => status := ExecutePwmSet(op);
      case Transmit(link, _, _, _, _) =>
        if link.Can? {
          status := ExecuteCanTransmit(op);
        } else {
          status := ExecuteBusTransmit(op);
        }
      case Receive(_, _, _) => status := ExecuteReceive(op);
      case VarSet(_, _) => status := ExecuteVarSet(op);
      case VarMul(_, _, _, _) => status := ExecuteVarMul(op);
      case VarAdd(_, _, _) => status := ExecuteVarAdd(op);
      case VarBytesAssign(_, _, _, _) => status := ExecuteVarBytesAssign(op);
      case MoveToError => status := ExecuteMove(op);
      case MoveToEmergency => status := ExecuteMove(op);
      case TriggerSafety(_) => status := ExecuteTriggerSafety(op);
      case _ => status := Error;
    }

    /** Executes one step; the result and the new surroundings are those of the board. */
    method ExecuteStep(op: Op) returns (status: Status)
      requires Linked()
      modifies Shared()
      ensures (status, Surroundings()) == machine(op, old(Surroundings()))
    {
      assert Open(0);
      status := Dispatch(op);
    }

    method EvaluateCondition(op: Op) returns (holds: bool)
      requires op.IfCondition? && ConditionAllowed(op, |Slots()|)
      ensures holds == Holds(op, Slots())
    {
      var first := store.Read(op.first);
      var second := store.Read(op.second);
      match op.compare
      case EQ => holds := first == second;
      case NE => holds := first != second;
      case GT => holds := first > second;
      case GE => holds := first >= second;
      case LT => holds := first < second;
      case LE => holds := first <= second;
    }

    /** The blocking interpreter. */
    method RunStepsImmediate(steps: seq<Op>) returns (ok: bool)
      requires Linked()
      modifies Shared()
      ensures (ok, Surroundings()) == RunImmediate(steps, 0, old(Surroundings()), machine)
    {
      var i := 0;
      ghost var whole := RunImmediate(steps, 0, Surroundings(), machine);
      while i < |steps|
        invariant i <= |steps| && whole == RunImmediate(steps, i, Surroundings(), machine)
        decreases |steps| - i
      {
        var op := steps[i];
        ghost var before := Surroundings();
        if op.DelayMs? {
          bus.Delay(op.ms);
          i := i + 1;
          continue;
        }
        if op.IfCondition? {
          if !ConditionAllowed(op, |Slots()|) || i + op.bodyCount >= |steps| {
            return false;
          }
          RunOverIf(steps, i, before, machine);
          var holds := EvaluateCondition(op);
          i := if holds then i + 1 else i + op.bodyCount + 1;
          continue;
        }
        RunOverStep(steps, i, before, machine);
        var status := ExecuteStep(op);
        if status != Ok {
          return false;
        }
        i := i + 1;
      }
      ok := true;
    }

    method RunSequenceImmediate(steps: seq<Op>) returns (ok: bool)
      requires Linked()
      modifies this, Shared()
      ensures |steps| == 0 || |steps| > MAX_STEPS ==>
        !ok && Fields() == old(Fields()) && Surroundings() == old(Surroundings())
      ensures 0 < |steps| <= MAX_STEPS ==>
        && Fields() == STOPPED
        && (ok, Surroundings()) == RunImmediate(steps, 0, old(Surroundings()), machine)
    {
      if |steps| == 0 || |steps| > MAX_STEPS {
        return false;
      }
      Stop();
      ok := RunStepsImmediate(steps);
    }

    method StartSequence(steps: seq<Op>, loop: bool) returns (ok: bool)
      modifies this
      ensures (ok, Fields()) == Start(old(Fields()), steps, loop)
    {
      if phase == Running || phase == WaitingDelay {
        return false;
      }
      if |steps| == 0 || |steps| > MAX_STEPS {
        return false;
      }
      active, stepIndex, loopOnComplete, phase := Sequence(steps), 0, loop, Running;
      delayStart, delayDuration := 0, 0;
      ok := true;
    }

    method Stop()
      modifies this
      ensures Fields() == STOPPED
    {
      active, stepIndex, loopOnComplete, phase := NoSequence, 0, false, Idle;
      delayStart, delayDuration := 0, 0;
    }

    /** The resumable interpreter. A step that moves the controller stops this executor
        and ends the tick. */
    method TickOnce(now: uint32, begin: uint32) returns (request: MoveRequest)
      requires Linked() && WellFormed(Fields())
      modifies this, Shared()
      ensures WellFormed(Fields())
      ensures request == TickMove(old(Fields()), old(Surroundings()), machine, now)
      ensures (Fields(), Surroundings())
           == Tick(old(Fields()), old(Surroundings()), machine, now, begin)
    {
      request := NoMove;
      if phase == Idle || phase == Completed || phase == Failed {
        return;
      }
      if active.NoSequence? {
        phase := Failed;
        return;
      }
      if phase == WaitingDelay {
        if !DelayDue(Fields(), now) {
          return;
        }
        delayDuration := 0;
        stepIndex := stepIndex + 1;
        phase := Running;
      }
      request := RunUntilYield(begin);
    }

    /** What is left of the current tick, and the fields it will end with. */
    ghost predicate Leads(x: Exit, c: Core)
      reads this, Shared()
    {
      && active == c.active && active.Sequence? && stepIndex <= |active.steps|
      && Fields() == c.(index := stepIndex)
      && x == Advance(active.steps, stepIndex, Surroundings(), machine)
    }

    ghost predicate Ended(x: Exit, c: Core, begin: uint32)
      reads this, Shared()
    {
      Fields() == Settle(c, x, begin) && Surroundings() == x.w
    }

    /** The IF branch of the loop: give up, jump over the body, or go on into it. */
    method TickCondition(begin: uint32, ghost x: Exit, ghost c: Core) returns (yielded: bool)
      requires Leads(x, c) && stepIndex < |active.steps| && active.steps[stepIndex].IfCondition?
      modifies this
      ensures if yielded then Ended(x, c, begin) && !x.Moved? else Leads(x, c) && stepIndex > old(stepIndex)
    {
      var op := active.steps[stepIndex];
      if !ConditionAllowed(op, |Slots()|) || stepIndex + op.bodyCount >= |active.steps| {
        phase, active := Failed, NoSequence;
        return true;
      }
      AdvanceOverIf(active.steps, stepIndex, Surroundings(), machine);
      var holds := EvaluateCondition(op);
      stepIndex := if holds then stepIndex + 1 else stepIndex + op.bodyCount + 1;
      yielded := false;
    }

    /** Any other step: retry it next tick, fail, stop after a move, or go on. */
    method TickStep(begin: uint32, ghost x: Exit, ghost c: Core) returns (yielded: bool, request: MoveRequest)
      requires Linked() && Leads(x, c) && stepIndex < |active.steps|
      requires !active.steps[stepIndex].IfCondition? && !active.steps[stepIndex].DelayMs?
      modifies this, Shared()
      ensures if yielded then Ended(x, c, begin) else Leads(x, c) && stepIndex > old(stepIndex)
      ensures request == if yielded && x.Moved? then Requested(x.move) else NoMove
    {
      request := NoMove;
      var op := active.steps[stepIndex];
      ghost var before := Surroundings();
      var status := ExecuteStep(op);
      if status == Busy {
        return true, NoMove;
      }
      if status != Ok {
        phase, active := Failed, NoSequence;
        return true, NoMove;
      }
      if IsMove(op) {
        Stop();
        return true, Requested(MoveOf(op));
      }
      AdvanceOverStep(active.steps, stepIndex, before, machine);
      stepIndex := stepIndex + 1;
      yielded := false;
    }

    /** The loop of a tick, from the resumed step on. */
    method RunUntilYield(begin: uint32) returns (request: MoveRequest)
      requires Linked() && active.Sequence? && stepIndex <= |active.steps| && phase == Running
      modifies this, Shared()
      ensures var x := Advance(old(active.steps), old(stepIndex), old(Surroundings()), machine);
              Ended(x, old(Fields()), begin) && request == if x.Moved? then Requested(x.move) else NoMove
    {
      request := NoMove;
      ghost var c := Fields();
      ghost var x := Advance(active.steps, stepIndex, Surroundings(), machine);
      while stepIndex < |active.steps|
        invariant Leads(x, c) && request == NoMove
        decreases |active.steps| - stepIndex
      {
        var op := active.steps[stepIndex];
        var yielded := false;
        if op.DelayMs? {
          bus.Delay(op.ms);
          delayStart, delayDuration, phase := begin, op.ms, WaitingDelay;
          return;
        } else if op.IfCondition? {
          yielded := TickCondition(begin, x, c);
        } else {
          yielded, request := TickStep(begin, x, c);
        }
        if yielded {
          return;
        }
      }
      if loopOnComplete {
        stepIndex, phase := 0, Running;
        return;
      }
      phase, active, stepIndex := Idle, NoSequence, 0;
    }
  }
}
