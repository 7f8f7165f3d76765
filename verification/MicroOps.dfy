/** The micro operations a sequence is made of, and what each one does to the
    variable slots and to the peripherals. */
module MicroOps {
  import opened Bytes
  import opened Interface

  const COMM_DATA_LENGTH := 8

  datatype Compare = EQ | NE | GT | GE | LT | LE | InvalidCompare

  type CommData = d: seq<byte> | |d| == COMM_DATA_LENGTH witness Zeros(COMM_DATA_LENGTH)

  /** The bus of a transmit or receive operation. */
  datatype Link = Can(id: nat) | Uart | Spi | I2c(address: byte)

  datatype Op =
    | Nop
    | GpioWrite(port: byte, pin: byte, value: byte)
    | GpioRead(port: byte, pin: byte, varIndex: byte)
    | AdcRead(instance: byte, channel: byte, varIndex: byte, storeRaw: byte)
    | DacWrite(instance: byte, useVar: byte, varIndex: byte, literal: nat)
    | PwmSet(frequency: nat, useVar: byte, varIndex: byte, duty: nat)
    | Transmit(link: Link, length: byte, useVar: byte, varIndex: byte, data: CommData)
    | Receive(link: Link, length: byte, varIndex: byte)
    | VarSet(varIndex: byte, slotValue: int64)
    | VarMul(dest: byte, src: byte, numerator: int, denominator: int)
    | VarAdd(dest: byte, src: byte, addend: int)
    | VarBytesAssign(dest: byte, src: byte, byteIndex: byte, byteCount: byte)
    | MoveToError
    | MoveToEmergency
    | TriggerSafety(value: byte)
    | DelayMs(ms: uint32)
    | IfCondition(first: byte, compare: Compare, second: byte, bodyCount: nat)
    | UnknownOp

  /** One call into a peripheral driver. */
  datatype Call =
    | WritePin(port: byte, pin: byte, high: bool)
    | ReadPin(port: byte, pin: byte)
    | ReadAdcRaw(instance: byte, channel: byte)
    | ReadAdcMillivolts(instance: byte, channel: byte)
    | SetDac(value: nat)
    | SetPwm(frequency: nat, duty: nat)
    | Send(link: Link, data: seq<byte>)
    | Fetch(link: Link, length: byte)
    | DriveSafety(high: bool)

  datatype Answer = Answer(status: Status, value: int, data: seq<byte>)
  datatype Event = Event(call: Call, answer: Answer)
  datatype Move = ToError | ToEmergency

  /** What the peripherals answer: the n-th call gets `oracle(n)`. */
  type Oracle = nat -> Answer

  /** Which optional collaborators an executor has been given. The variable store
      is missing exactly when `World.vars` is empty. */
  datatype Wiring = Wiring(can: bool, controller: bool, safety: bool, safetyPins: set<(byte, byte)>)

  /** Everything a sequence can change outside the executor itself. */
  datatype World = World(
    vars: seq<int64>, log: seq<Event>, pauses: seq<uint32>, moves: seq<Move>)

  datatype Write = NoWrite | Write(slot: nat, value: int64)

  /** The outcome of one operation: its status, the driver calls it made, in order,
      the slot it wrote and the controller move it asked for. */
  datatype Effect = Effect(status: Status, events: seq<Event>, write: Write, moves: seq<Move>)

  const REJECTED := Effect(Error, [], NoWrite, [])

  function Get(vars: seq<int64>, index: nat): int64 {
    if index < |vars| then vars[index] else 0
  }

  function Put(vars: seq<int64>, w: Write): (r: seq<int64>)
    ensures |r| == |vars|
  {
    if w.Write? && w.slot < |vars| then vars[w.slot := w.value] else vars
  }

  function Apply(w: World, e: Effect): World {
    World(Put(w.vars, e.write), w.log + e.events, w.pauses, w.moves + e.moves)
  }

  /** Exactly `n` bytes of a driver's receive buffer, which starts out zeroed. */
  function Fit(data: seq<byte>, n: nat): (r: seq<byte>)
    ensures |r| == n
  {
    if |data| >= n then data[..n] else data + Zeros(n - |data|)
  }

  /** A call whose only result is its status. */
  function Command(call: Call, a: Answer): Effect {
    Effect(if a.status == Ok then Ok else Error, [Event(call, a)], NoWrite, [])
  }

  /** A call that stores `value` when it succeeds. */
  function Query(call: Call, a: Answer, slot: nat, value: int64): Effect {
    Effect(if a.status == Ok then Ok else Error, [Event(call, a)],
           if a.status == Ok then Write(slot, value) else NoWrite, [])
  }

  datatype TxData = NoBytes | SomeBytes(bytes: seq<byte>)

  /** The bytes a transmit operation sends: a slot's low bytes or the literal data. */
  function TxBytes(vars: seq<int64>, useVar: byte, varIndex: byte, data: CommData, length: byte): (r: TxData)
    ensures r.SomeBytes? ==> |r.bytes| == length && 1 <= length <= COMM_DATA_LENGTH
  {
    if length == 0 || length > COMM_DATA_LENGTH then NoBytes
    else if useVar == 0 then SomeBytes(data[..length])
    else if varIndex >= |vars| then NoBytes
    else SomeBytes(ToLE(Unsigned(vars[varIndex]), length))
  }

  /** A CAN frame longer than 8 bytes is cut to 8, any other length is refused; only a
      CAN transmission reports how it failed, and in particular that the bus is busy. */
  function TransmitEffect(op: Op, vars: seq<int64>, a: Answer, wiring: Wiring): Effect
    requires op.Transmit?
  {
    var length := if op.link.Can? && op.length > COMM_DATA_LENGTH then COMM_DATA_LENGTH else op.length;
    var tx := TxBytes(vars, op.useVar, op.varIndex, op.data, length);
    if tx.NoBytes? || (op.link.Can? && !wiring.can) then REJECTED
    else if op.link.Can? then Effect(a.status, [Event(Send(op.link, tx.bytes), a)], NoWrite, [])
    else Command(Send(op.link, tx.bytes), a)
  }

  /** The received bytes: a CAN frame keeps its own length, the other drivers fill the
      whole zeroed buffer. */
  function Received(link: Link, data: seq<byte>, length: nat): (r: seq<byte>)
    ensures |r| <= length
  {
    if link.Can? && |data| <= length then data else Fit(data, length)
  }

  /** C++ integer division, which truncates toward zero. */
  function TruncDiv(a: int, b: int): int
    requires b != 0
  {
    var q := (if a < 0 then -a else a) / (if b < 0 then -b else b);
    if (a < 0) == (b < 0) then q else -q
  }

  /** `s` with the bytes from `index` on replaced by `t`. */
  function Splice(s: seq<byte>, index: nat, t: seq<byte>): (r: seq<byte>)
    requires index + |t| <= |s|
    ensures |r| == |s|
    ensures forall k :: 0 <= k < |s| ==>
      r[k] == if index <= k < index + |t| then t[k - index] else s[k]
  {
    s[..index] + t + s[index + |t|..]
  }

  function BytesAssigned(dest: int64, src: int64, index: nat, count: nat): int64
    requires index + count <= COMM_DATA_LENGTH
  {
    FromSlotBytes(Splice(SlotBytes(dest), index, SlotBytes(src)[..count]))
  }

  predicate BytesAssignAllowed(op: Op, slots: nat)
    requires op.VarBytesAssign?
  {
    && op.dest < slots && op.src < slots
    && op.byteIndex < COMM_DATA_LENGTH && op.byteCount != 0
    && op.byteIndex + op.byteCount <= COMM_DATA_LENGTH
  }

  /** What executing one step (neither a delay nor an IF) does, when the next
      driver calls are answered `oracle(n)`, `oracle(n + 1)`, ... */
  function EffectOf(op: Op, vars: seq<int64>, n: nat, oracle: Oracle, wiring: Wiring): (e: Effect)
    ensures |e.events| <= 2
    ensures e.status == Busy ==> op.Transmit? && op.link.Can?
    ensures !op.MoveToError? && !op.MoveToEmergency? ==> e.moves == []
  {
    var a := oracle(n);
    match op
    case Nop => Effect(Ok, [], NoWrite, [])
    case GpioWrite(port, pin, value) =>
      if (port, pin) in wiring.safetyPins then REJECTED
      else Command(WritePin(port, pin, value != 0), a)
    case GpioRead(port, pin, i) =>
      if i >= |vars| then REJECTED
      else Query(ReadPin(port, pin), a, i, if a.value != 0 then 1 else 0)
    case AdcRead(inst, channel, i, storeRaw) =>
      if i >= |vars| || inst == 0 || inst > 2 then REJECTED
      else
        var raw := Signed(a.value % 0x1_0000);
        if a.status != Ok || storeRaw != 0 then Query(ReadAdcRaw(inst, channel), a, i, raw)
        else
          var b := oracle(n + 1);
          Effect(Ok, [Event(ReadAdcRaw(inst, channel), a), Event(ReadAdcMillivolts(inst, channel), b)],
                 Write(i, if b.status == Ok then Signed(b.value) else raw), [])
    case DacWrite(inst, useVar, i, literal) =>
      if inst != 1 || (useVar != 0 && i >= |vars|) then REJECTED
      else Command(SetDac(if useVar != 0 then Unsigned(vars[i]) % 0x1000
                          else if literal > 0xFFF then 0xFFF else literal), a)
    case PwmSet(frequency, useVar, i, duty) =>
      if frequency == 0 || (useVar != 0 && i >= |vars|) then REJECTED
      else
        var d := if useVar != 0 then Unsigned(vars[i]) % 0x1_0000 else duty;
        Command(SetPwm(frequency, if d > 100 then 100 else d), a)
    case Transmit(link, length, useVar, i, data) => TransmitEffect(op, vars, a, wiring)
    case Receive(link, length, i) =>
      if (link.Can? && !wiring.can) || !(1 <= length <= COMM_DATA_LENGTH && i < |vars|) then REJECTED
      else Query(Fetch(link, length), a, i, FromSlotBytes(Received(link, a.data, length)))
    case VarSet(i, value) =>
      if i >= |vars| then REJECTED else Effect(Ok, [], Write(i, value), [])
    case VarMul(dest, src, numerator, denominator) =>
      if dest >= |vars| || src >= |vars| || denominator == 0 then REJECTED
      else Effect(Ok, [], Write(dest, Signed(TruncDiv(Signed(vars[src] * numerator), denominator))), [])
    case VarAdd(dest, src, addend) =>
      if dest >= |vars| || src >= |vars| then REJECTED
      else Effect(Ok, [], Write(dest, Signed(vars[src] + addend)), [])
    case VarBytesAssign(dest, src, index, count) =>
      if !BytesAssignAllowed(op, |vars|) then REJECTED
      else Effect(Ok, [], Write(dest, BytesAssigned(vars[dest], vars[src], index, count)), [])
    case MoveToError =>
      if !wiring.controller then REJECTED else Effect(Ok, [], NoWrite, [ToError])
    case MoveToEmergency =>
      if !wiring.controller then REJECTED else Effect(Ok, [], NoWrite, [ToEmergency])
    case TriggerSafety(value) =>
      if !wiring.safety then REJECTED
      else Effect(Ok, [Event(DriveSafety(value != 0), a)], NoWrite, [])
    case _ => REJECTED
  }

  function Execute(op: Op, w: World, oracle: Oracle, wiring: Wiring): (Status, World) {
    var e := EffectOf(op, w.vars, |w.log|, oracle, wiring);
    (e.status, Apply(w, e))
  }

  /** How one step acts on the world. */
  type Machine = (Op, World) -> (Status, World)

  /** The machine whose peripherals answer like `oracle`. */
  function Board(oracle: Oracle, wiring: Wiring): Machine {
    (op, w) => Execute(op, w, oracle, wiring)
  }

  predicate IsMove(op: Op) {
    op.MoveToError? || op.MoveToEmergency?
  }

  predicate NoMoves(steps: seq<Op>) {
    forall i :: 0 <= i < |steps| ==> !IsMove(steps[i])
  }

  predicate ConditionAllowed(op: Op, slots: nat)
    requires op.IfCondition?
  {
    op.first < slots && op.second < slots && !op.compare.InvalidCompare?
  }

  predicate Holds(op: Op, vars: seq<int64>)
    requires op.IfCondition?
  {
    var x, y := Get(vars, op.first), Get(vars, op.second);
    match op.compare
    case EQ => x == y
    case NE => x != y
    case GT => x > y
    case GE => x >= y
    case LT => x < y
    case LE => x <= y
    case InvalidCompare => false
  }
}
