/** What happens when a transmission completes in the middle of the driver's record of it: the
    state says ready and the flag says busy, and plain recoveries do not see it. */
module MutedTransmitter {
  import opened Bytes
  import opened Interface
  import opened CanTransmitter
  import opened PriorityOrder
  import opened MessengerSpec
  import opened MessengerRuns
  import opened MessengerProgress

  /** The two halves of the driver's record of a frame that the hardware took at `now`. */
  function HalfRecorded(m: Messenger, now: uint32): Messenger {
    m.(tx := m.tx.(started := now, state := BusyTx))
  }

  function FullyRecorded(m: Messenger): Messenger {
    m.(tx := m.tx.(available := false, errors := 0))
  }

  /** The state says ready, the flag says busy. */
  predicate Muted(m: Messenger) {
    m.tx.state == Ready && !m.tx.available && m.tx.errors < MAX_CONSECUTIVE_ERRORS
  }

  /** With nothing in between, the halves are the record of the driver's call. */
  lemma HalvesMakeRecord(m: Messenger, now: uint32)
    ensures FullyRecorded(HalfRecorded(m, now)) == m.(tx := Taken(now))
  {
  }

  /** With an empty queue and no receive failures in between, the transmitter is muted exactly
      when a transmission has completed between the halves. */
  lemma CompletionAmidRecordMutes(m: Messenger, now: uint32, irqs: seq<Irq>)
    requires m.queue == [] && forall irq :: irq in irqs ==> !irq.RxFails?
    ensures Muted(FullyRecorded(OnIrqs(HalfRecorded(m, now), irqs))) <==> !NoTransmit(irqs)
  {
    IrqsOnEmptyQueue(HalfRecorded(m, now), irqs);
  }

  lemma {:induction false} IrqsOnEmptyQueue(m: Messenger, irqs: seq<Irq>)
    requires m.queue == [] && forall irq :: irq in irqs ==> !irq.RxFails?
    ensures OnIrqs(m, irqs).tx.state == if NoTransmit(irqs) then m.tx.state else Ready
    decreases |irqs|
  {
    if irqs != [] {
      assert irqs[0] in irqs && forall irq :: irq in irqs ==> irq == irqs[0] || irq in irqs[1..];
      IrqsOnEmptyQueue(OnIrq(m, irqs[0]), irqs[1..]);
    }
  }

  // ---------------------------------------------------------------- how long it lasts

  /** No transmit interrupt comes before the loop of a tick, as the hardware has nothing to send. */
  predicate Silent(s: Step) {
    match s
    case Ticks(env) => NoTransmit(env(0).irqs) && NoTransmit(env(1).irqs)
    case Interrupts(irq) => !irq.TxDone?
    case _ => true
  }

  /** The interrupts that come in a step before the loop of a tick. */
  function Heard(s: Step): seq<Irq> {
    match s
    case Ticks(env) => env(0).irqs + env(1).irqs
    case Interrupts(irq) => [irq]
    case _ => []
  }

  function Arrivals(s: Step): nat {
    if s.Enqueues? && 0 < |s.msg.data| <= ITEM_BYTES then 1 else 0
  }

  /** The same messenger with more in its queue, and still nothing offered. */
  ghost predicate Waits(m: Messenger, m': Messenger, more: nat) {
    && Muted(m') && |m'.queue| == |m.queue| + more
    && m'.attempts == m.attempts && m'.sent == m.sent && m'.discarded == m.discarded
  }

  lemma {:induction false} InsertedLength(q: seq<Item<Message>>, item: Item<Message>)
    ensures |Inserted(q, item)| == |q| + 1
  {
    if q != [] && q[0].priority <= item.priority {
      InsertedLength(q[1..], item);
    }
  }

  /** A muted transmitter stays muted, and the step offers nothing, unless the queue overflows or
      receive failures reach the error limit; then state and flag agree again. */
  lemma MutedStep(m: Messenger, s: Step)
    requires Muted(m) && Silent(s) && |m.queue| <= TX_QUEUE_SIZE
    ensures var m' := Do(m, s);
            if |m.queue| + Arrivals(s) <= TX_QUEUE_SIZE && !ReachesLimit(m.tx.errors, Heard(s))
            then Waits(m, m', Arrivals(s)) && m'.tx.errors == ErrorsAfter(m.tx.errors, Heard(s))
            else Coherent(m'.tx)
  {
    match s
    case Enqueues(msg, r) => InsertedLength(m.queue, Item(TxPriority(msg.kind), msg));
    case Ticks(env) => MutedTick(m, env);
    case Interrupts(irq) =>
    case DirectSends(r, inside) =>
  }

  lemma MutedTick(m: Messenger, env: Env)
    requires Muted(m) && Silent(Ticks(env))
    ensures var m' := FromTick(m, env);
            if ReachesLimit(m.tx.errors, env(0).irqs + env(1).irqs) then Coherent(m'.tx)
            else Waits(m, m', 0) && m'.tx.errors == ErrorsAfter(m.tx.errors, env(0).irqs + env(1).irqs)
  {
    LimitOverBoth(m.tx.errors, env(0).irqs, env(1).irqs);
    ReceiveIrqs(m, env(0).irqs);
    var m0 := OnIrqs(m, env(0).irqs);
    if m0.tx.state == Faulted {
      TickKeepsCoherent(m, env);
    } else {
      ReceiveIrqs(m0, env(1).irqs);
    }
  }

  // Once state and flag agree, they always do.

  lemma HandOverKeepsCoherent(m: Messenger, msg: Message, r: Reply, inside: seq<Irq>)
    requires Coherent(m.tx)
    ensures Coherent(HandOver(m, msg, r, inside).1.tx)
  {
    EventsKeepCoherent(m.tx, Sends(r));
  }

  lemma GiveBackKeepsCoherent(m: Messenger, item: Item<Message>, s: Status, env: Env, k: nat)
    requires Coherent(m.tx)
    ensures Coherent(GiveBack(m, item, s, env, k).tx)
  {
    AnyIrqs(m, env(k).irqs);
    AnyIrqs(Push(OnIrqs(m, env(k).irqs), item), env(k + 1).irqs);
  }

  lemma PassKeepsCoherent(m: Messenger, env: Env, k: nat)
    requires Coherent(m.tx)
    ensures Coherent(OnePass(m, env, k).m.tx)
  {
    AnyIrqs(m, env(k).irqs);
    var m0 := OnIrqs(m, env(k).irqs);
    if m0.queue != [] {
      var item, at := m0.queue[0], env(k + 1);
      AnyIrqs(Pop(m0), at.irqs);
      var held := OnIrqs(Pop(m0), at.irqs);
      HandOverKeepsCoherent(held, item.payload, at.reply, at.inside);
      var (s, m1) := HandOver(held, item.payload, at.reply, at.inside);
      GiveBackKeepsCoherent(m1, item, s, env, k + 2);
    }
  }

  lemma {:induction false} DrainKeepsCoherent(m: Messenger, env: Env, k: nat, n: nat)
    requires Coherent(m.tx) && n <= MAX_TICK_MESSAGES
    ensures Coherent(Drain(m, env, k, n).tx)
    decreases MAX_TICK_MESSAGES - n
  {
    if n == MAX_TICK_MESSAGES {
      AnyIrqs(m, env(k).irqs);
    } else {
      PassKeepsCoherent(m, env, k);
      DrainStep(m, env, k, n);
      var pass := OnePass(m, env, k);
      if pass.SentOne? {
        DrainKeepsCoherent(pass.m, env, k + 2, n + 1);
      }
    }
  }

  /** Also when they agree only after the first interrupts of the tick. */
  lemma TickKeepsCoherent(m: Messenger, env: Env)
    requires Coherent(OnIrqs(m, env(0).irqs).tx)
    ensures Coherent(FromTick(m, env).tx)
  {
    var m0 := OnIrqs(m, env(0).irqs);
    var m1 := m0.(tx := Recover(m0.tx, false, env(0).reply).1);
    EventsKeepCoherent(m0.tx, Recovers(false, env(0).reply));
    AnyIrqs(m1, env(1).irqs);
    DrainKeepsCoherent(m0, env, 2, 0);
    DrainKeepsCoherent(OnIrqs(m1, env(1).irqs), env, 2, 0);
  }

  lemma StepKeepsCoherent(m: Messenger, s: Step)
    requires Coherent(m.tx)
    ensures Coherent(Do(m, s).tx)
  {
    match s
    case Enqueues(msg, r) => EventsKeepCoherent(m.tx, Recovers(true, r));
    case Ticks(env) =>
      AnyIrqs(m, env(0).irqs);
      TickKeepsCoherent(m, env);
    case Interrupts(irq) => OneIrq(m, irq);
    case DirectSends(r, inside) =>
      EventsKeepCoherent(m.tx, Recovers(false, r));
      EventsKeepCoherent(if m.tx.available then m.tx else Recover(m.tx, false, r).1, Sends(r));
  }

  // ---------------------------------------------------------------- whole runs

  function DoAll(m: Messenger, steps: seq<Step>): Messenger {
    if steps == [] then m else Do(DoAll(m, steps[..|steps| - 1]), steps[|steps| - 1])
  }

  function AllHeard(steps: seq<Step>): seq<Irq> {
    if steps == [] then [] else AllHeard(steps[..|steps| - 1]) + Heard(steps[|steps| - 1])
  }

  function AllArrivals(steps: seq<Step>): nat {
    if steps == [] then 0 else AllArrivals(steps[..|steps| - 1]) + Arrivals(steps[|steps| - 1])
  }

  /** A muted transmitter is still muted after a run without transmit interrupts if and only if
      the frames that arrive fit into the queue and receive failures have not reached the error
      limit. Up to then nothing is offered to the hardware, whatever the time and however many
      ticks. */
  lemma {:induction false} MutedUntilOverflowOrLimit(m: Messenger, steps: seq<Step>)
    requires Muted(m) && |m.queue| <= TX_QUEUE_SIZE && forall i :: 0 <= i < |steps| ==> Silent(steps[i])
    ensures var m' := DoAll(m, steps);
            && (Muted(m') <==>
                  |m.queue| + AllArrivals(steps) <= TX_QUEUE_SIZE && !ReachesLimit(m.tx.errors, AllHeard(steps)))
            && (if Muted(m') then Waits(m, m', AllArrivals(steps)) && m'.tx.errors == ErrorsAfter(m.tx.errors, AllHeard(steps))
                else Coherent(m'.tx))
    decreases |steps|
  {
    if steps != [] {
      var n := |steps| - 1;
      var m0, s := DoAll(m, steps[..n]), steps[n];
      MutedUntilOverflowOrLimit(m, steps[..n]);
      LimitOverBoth(m.tx.errors, AllHeard(steps[..n]), Heard(s));
      if Muted(m0) {
        MutedStep(m0, s);
      } else {
        StepKeepsCoherent(m0, s);
      }
    }
  }
}
