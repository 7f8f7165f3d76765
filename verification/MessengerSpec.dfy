/** The CAN messenger's transmit path: what one enqueue, one tick and one interrupt do, with
    interrupts arriving between the steps of the tick and in the middle of handing a frame to
    the driver. Taking a frame from the queue, putting one back, recovering and the driver's
    record of a frame are one step each. */
module MessengerSpec {
  import opened Bytes
  import opened Interface
  import opened CanTransmitter
  import opened PriorityOrder

  const TX_QUEUE_SIZE := 32
  const MAX_TICK_MESSAGES := 3
  const ANALOG_TELEMETRY := 3
  const DEFAULT_TX_PRIORITY := 4
  const MAX_LENGTH := 64
  const ITEM_BYTES := 8

  datatype Kind =
    | ProgrammingCommand | ControllerMetaData | BluelinkVersion
    | ReverserTelemetry | ReverserAnalogTelemetry | OtherKind

  function TxPriority(k: Kind): nat {
    match k
    case ProgrammingCommand => 0
    case ControllerMetaData => 1
    case BluelinkVersion => 1
    case ReverserTelemetry => 2
    case ReverserAnalogTelemetry => ANALOG_TELEMETRY
    case OtherKind => DEFAULT_TX_PRIORITY
  }

  /** Everything about a queued frame but its priority. */
  datatype Message = Message(kind: Kind, destination: byte, data: seq<byte>, timestamp: uint32)

  /** The messenger and its transmitter; `accepted`, `sent` and `discarded` record what
      callers enqueued, what the hardware took and what an overflow threw away, `entered` and
      `left` what went into the queue and out of it, and `attempts` counts the frames offered
      to the hardware. */
  datatype Messenger = Messenger(
    queue: seq<Item<Message>>, tx: Transmitter,
    accepted: seq<Message>, sent: seq<Message>, discarded: seq<Message>,
    entered: seq<Item<Message>>, left: seq<Item<Message>>, attempts: nat)

  /** An interrupt: a frame left the hardware, or the receive side succeeded or failed. */
  datatype Irq = TxDone(reply: Reply) | RxSucceeds | RxFails

  predicate NoTransmit(irqs: seq<Irq>) {
    forall irq :: irq in irqs ==> !irq.TxDone?
  }

  /** What the environment does at one boundary: the interrupts that arrive there, the answer
      to the driver call that follows, and the interrupts that arrive in that call, between the
      hardware taking the frame and the driver recording it. */
  datatype Moment = Moment(irqs: seq<Irq>, reply: Reply, inside: seq<Irq>)
  type Env = nat -> Moment

  function Push(m: Messenger, item: Item<Message>): Messenger {
    m.(queue := Inserted(m.queue, item), entered := m.entered + [item])
  }

  function Pop(m: Messenger): Messenger
    requires m.queue != []
  {
    m.(queue := m.queue[1..], left := m.left + [m.queue[0]])
  }

  /** Offers a frame to the hardware; it counts as sent when it is taken. In an interrupt
      nothing comes in between. */
  function SendFrame(m: Messenger, msg: Message, r: Reply): (Status, Messenger) {
    var (s, tx) := StartTransmit(m.tx, r);
    (s, m.(tx := tx, attempts := m.attempts + (if ReachesHardware(m.tx) then 1 else 0),
           sent := if s == Ok then m.sent + [msg] else m.sent))
  }

  function ForceRecover(m: Messenger, r: Reply): Messenger {
    m.(tx := Recover(m.tx, true, r).1)
  }

  /** `processQueueFromInterrupt`: at most one frame. */
  function FromInterrupt(m: Messenger, r: Reply): Messenger {
    if m.queue == [] then m
    else
      var item := m.queue[0];
      var (s, m') := SendFrame(Pop(m), item.payload, r);
      if s == Ok then m'
      else if s == Busy then Push(m', item)
      else ForceRecover(Push(m', item), r)
  }

  function OnIrq(m: Messenger, irq: Irq): Messenger {
    match irq
    case TxDone(r) => FromInterrupt(m.(tx := Complete(m.tx)), r)
    case RxSucceeds => m.(tx := Succeed(m.tx))
    case RxFails => m.(tx := Fail(m.tx))
  }

  function OnIrqs(m: Messenger, irqs: seq<Irq>): Messenger
    decreases |irqs|
  {
    if irqs == [] then m else OnIrqs(OnIrq(m, irqs[0]), irqs[1..])
  }

  function Sending(m: Messenger, msg: Message): Messenger {
    m.(attempts := m.attempts + 1, sent := m.sent + [msg])
  }

  /** The same outside interrupts: others may come after the hardware took the frame and before
      the driver has recorded it. */
  function HandOver(m: Messenger, msg: Message, r: Reply, inside: seq<Irq>): (Status, Messenger) {
    if Accepts(m.tx, r) then (Ok, OnIrqs(Sending(m, msg), inside).(tx := Taken(r.now)))
    else SendFrame(m, msg, r)
  }

  /** The priority with which a frame that found the bus busy goes back. */
  function RetryPriority(p: nat): nat {
    if p + 1 > ANALOG_TELEMETRY then ANALOG_TELEMETRY else p + 1
  }

  /** One pass of the loop of `processQueueFromTick`: the queue was empty, a frame was sent,
      or a frame went back and the loop ends. */
  datatype Pass = Stopped(m: Messenger) | SentOne(m: Messenger)

  function OnePass(m: Messenger, env: Env, k: nat): Pass {
    var m0 := OnIrqs(m, env(k).irqs);
    if m0.queue == [] then Stopped(m0)
    else
      var item := m0.queue[0];
      var held := OnIrqs(Pop(m0), env(k + 1).irqs);
      var (s, m1) := HandOver(held, item.payload, env(k + 1).reply, env(k + 1).inside);
      if s == Ok then SentOne(m1) else Stopped(GiveBack(m1, item, s, env, k + 2))
  }

  /** The loop, from boundary `k` on, after `n` frames. */
  function Drain(m: Messenger, env: Env, k: nat, n: nat): Messenger
    requires n <= MAX_TICK_MESSAGES
    decreases MAX_TICK_MESSAGES - n, m.attempts
  {
    if n == MAX_TICK_MESSAGES then OnIrqs(m, env(k).irqs)
    else
      match OnePass(m, env, k)
      case Stopped(m') => m'
      case SentOne(m') => Drain(m', env, k + 2, n + 1)
  }

  /** A frame that could not be sent goes back into the queue: with the retry priority
      when the bus was busy, otherwise unchanged and followed by a forced recovery. */
  function GiveBack(m: Messenger, item: Item<Message>, s: Status, env: Env, k: nat): Messenger {
    var m1 := OnIrqs(m, env(k).irqs);
    if s == Busy then Push(m1, Item(RetryPriority(item.priority), item.payload))
    else ForceRecover(OnIrqs(Push(m1, item), env(k + 1).irqs), env(k + 1).reply)
  }

  function FromTick(m: Messenger, env: Env): Messenger {
    var m0 := OnIrqs(m, env(0).irqs);
    if m0.tx.available then Drain(m0, env, 2, 0)
    else
      var m1 := OnIrqs(m0.(tx := Recover(m0.tx, false, env(0).reply).1), env(1).irqs);
      if m1.tx.available then Drain(m1, env, 2, 0) else m1
  }

  function Payloads(q: seq<Item<Message>>): (r: seq<Message>)
    ensures |r| == |q|
  {
    if q == [] then [] else [q[0].payload] + Payloads(q[1..])
  }

  function Clear(m: Messenger): Messenger {
    m.(queue := [], discarded := m.discarded + Payloads(m.queue), left := m.left + m.queue)
  }

  /** What happens to a frame that is offered to the queue. A frame of 9 to 64 bytes passes the
      length check but is copied past the end of its queue item; the model stops there. */
  datatype Admission = Accepted | Refused | Overruns

  /** An overflowing queue is cleared, and the transmitter recovered, before the new frame
      goes in. */
  function Enqueue(m: Messenger, msg: Message, r: Reply): (Admission, Messenger) {
    if |msg.data| == 0 || |msg.data| > MAX_LENGTH then (Refused, m)
    else if |msg.data| > ITEM_BYTES then (Overruns, m)
    else
      var m' := if |m.queue| >= TX_QUEUE_SIZE then ForceRecover(Clear(m), r) else m;
      (Accepted, Push(m'.(accepted := m'.accepted + [msg]), Item(TxPriority(msg.kind), msg)))
  }

  /** A frame sent past the queue: it only uses the transmitter. */
  function SendDirect(m: Messenger, r: Reply, inside: seq<Irq>): Messenger {
    var tx := if m.tx.available then m.tx else Recover(m.tx, false, r).1;
    if !tx.available then m.(tx := tx)
    else if Accepts(tx, r) then OnIrqs(m.(tx := tx), inside).(tx := Taken(r.now))
    else m.(tx := StartTransmit(tx, r).1)
  }

  const POWER_ON := Messenger([], STARTED, [], [], [], [], [], 0)
}
