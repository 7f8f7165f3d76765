/** What holds of the transmit path over every run of enqueues, ticks and interrupts. */
module MessengerRuns {
  import opened Bytes
  import opened Guards
  import opened Interface
  import opened CanTransmitter
  import opened PriorityOrder
  import opened MessengerSpec

  /** In order, and with legal priorities. */
  ghost predicate InOrder(q: seq<Item<Message>>) {
    if q == [] then true
    else
      && q[0].priority <= DEFAULT_TX_PRIORITY
      && (|q| > 1 ==> q[0].priority <= q[1].priority)
      && InOrder(q[1..])
  }

  lemma {:induction false} InOrderIsSorted(q: seq<Item<Message>>)
    requires InOrder(q)
    ensures Sorted(q) && forall i :: 0 <= i < |q| ==> q[i].priority <= DEFAULT_TX_PRIORITY
  {
    if q != [] {
      InOrderIsSorted(q[1..]);
      assert forall i :: 1 <= i < |q| ==> q[i] == q[1..][i - 1];
    }
  }

  lemma {:induction false} InsertionKeepsOrder(q: seq<Item<Message>>, item: Item<Message>)
    requires InOrder(q) && item.priority <= DEFAULT_TX_PRIORITY
    ensures InOrder(Inserted(q, item))
    ensures Inserted(q, item)[0].priority == if q == [] || q[0].priority > item.priority then item.priority else q[0].priority
  {
    if q == [] || q[0].priority > item.priority {
      assert ([item] + q)[1..] == q;
    } else {
      InsertionKeepsOrder(q[1..], item);
      assert ([q[0]] + Inserted(q[1..], item))[1..] == Inserted(q[1..], item);
    }
  }

  /** Where the accepted frames are, apart from the one the tick holds. */
  function Whereabouts(m: Messenger): multiset<Message> {
    multiset(m.sent) + multiset(Payloads(m.queue)) + multiset(m.discarded)
  }

  /** What entered the queue with one priority is what has left it with that priority, in the
      same order, followed by what is still there. */
  ghost predicate InSequence(m: Messenger) {
    forall p: nat :: OfPriority(m.entered, p) == OfPriority(m.left, p) + OfPriority(m.queue, p)
  }

  /** Every accepted frame is sent, queued, held by the tick, or discarded - exactly once
      each - and there is room for the held frame. */
  ghost predicate Balanced(m: Messenger, held: multiset<Message>) {
    && multiset(m.accepted) == Whereabouts(m) + held
    && |m.queue| + |held| <= TX_QUEUE_SIZE
    && InOrder(m.queue)
    && InSequence(m)
    && Coherent(m.tx)
  }

  /** The same: `Open(k)` is always true, and only keeps the definition closed in the proofs
      that pass it on. */
  ghost predicate Conserved(m: Messenger, held: multiset<Message>) {
    forall k: nat :: Open(k) ==> Balanced(m, held)
  }

  lemma Opened(m: Messenger, held: multiset<Message>)
    requires Conserved(m, held)
    ensures Balanced(m, held)
  {
    assert Open(0);
  }

  const NOTHING: multiset<Message> := multiset{}

  lemma {:induction false} PayloadsInserted(q: seq<Item<Message>>, item: Item<Message>)
    ensures multiset(Payloads(Inserted(q, item))) == multiset(Payloads(q)) + multiset{item.payload}
  {
    if q == [] || q[0].priority > item.priority {
      assert ([item] + q)[1..] == q;
    } else {
      PayloadsInserted(q[1..], item);
      assert ([q[0]] + Inserted(q[1..], item))[1..] == Inserted(q[1..], item);
    }
  }

  /** A queue and what entered and left it, as a history of the plain priority queue. */
  function Past(m: Messenger): History<Message> {
    History(m.queue, m.entered, m.left)
  }

  lemma PushKeepsSequence(m: Messenger, item: Item<Message>)
    requires InSequence(m) && Sorted(m.queue)
    ensures InSequence(Push(m, item))
  {
    forall p: nat
      ensures OfPriority(Push(m, item).entered, p) == OfPriority(Push(m, item).left, p) + OfPriority(Push(m, item).queue, p)
    {
      ActKeepsOrder(Past(m), Put(item), p);
    }
  }

  lemma PopKeepsSequence(m: Messenger)
    requires InSequence(m) && Sorted(m.queue) && m.queue != []
    ensures InSequence(Pop(m))
  {
    forall p: nat
      ensures OfPriority(Pop(m).entered, p) == OfPriority(Pop(m).left, p) + OfPriority(Pop(m).queue, p)
    {
      ActKeepsOrder(Past(m), Take, p);
    }
  }

  lemma ClearKeepsSequence(m: Messenger)
    requires InSequence(m)
    ensures InSequence(Clear(m))
  {
    forall p: nat
      ensures OfPriority(Clear(m).entered, p) == OfPriority(Clear(m).left, p) + OfPriority(Clear(m).queue, p)
    {
      OfPriorityConcat(m.left, m.queue, p);
    }
  }

  lemma PushConserves(m: Messenger, item: Item<Message>, held: multiset<Message>)
    requires Conserved(m, held + multiset{item.payload}) && item.priority <= DEFAULT_TX_PRIORITY
    ensures |m.queue| < TX_QUEUE_SIZE && Conserved(Push(m, item), held)
  {
    Opened(m, held + multiset{item.payload});
    PayloadsInserted(m.queue, item);
    InsertionKeepsOrder(m.queue, item);
    InOrderIsSorted(m.queue);
    PushKeepsSequence(m, item);
    assert Balanced(Push(m, item), held);
  }

  lemma PopConserves(m: Messenger, held: multiset<Message>)
    requires Conserved(m, held) && m.queue != []
    ensures Conserved(Pop(m), held + multiset{m.queue[0].payload}) && m.queue[0].priority <= DEFAULT_TX_PRIORITY
  {
    Opened(m, held);
    assert multiset(Payloads(m.queue)) == multiset{m.queue[0].payload} + multiset(Payloads(m.queue[1..]));
    InOrderIsSorted(m.queue);
    PopKeepsSequence(m);
    assert Balanced(Pop(m), held + multiset{m.queue[0].payload});
  }

  lemma SendConserves(m: Messenger, msg: Message, held: multiset<Message>, r: Reply)
    requires Conserved(m, held + multiset{msg})
    ensures var (s, m') := SendFrame(m, msg, r);
            Conserved(m', if s == Ok then held else held + multiset{msg})
  {
    Opened(m, held + multiset{msg});
    EventsKeepCoherent(m.tx, Sends(r));
    var (s, m') := SendFrame(m, msg, r);
    if s == Ok {
      assert Whereabouts(m') == Whereabouts(m) + multiset{msg};
      assert Balanced(m', held);
    } else {
      assert Balanced(m', held + multiset{msg});
    }
  }

  /** Events that only concern the transmitter. */
  lemma TransmitterConserves(m: Messenger, e: TxEvent, held: multiset<Message>)
    requires Conserved(m, held)
    ensures Conserved(m.(tx := On(m.tx, e)), held)
  {
    Opened(m, held);
    EventsKeepCoherent(m.tx, e);
    assert Balanced(m.(tx := On(m.tx, e)), held);
  }

  lemma RecordedConserves(m: Messenger, now: uint32, held: multiset<Message>)
    requires Conserved(m, held)
    ensures Conserved(m.(tx := Taken(now)), held)
  {
    Opened(m, held);
    assert Balanced(m.(tx := Taken(now)), held);
  }

  lemma SendingConserves(m: Messenger, msg: Message, held: multiset<Message>)
    requires Conserved(m, held + multiset{msg})
    ensures Conserved(Sending(m, msg), held)
  {
    Opened(m, held + multiset{msg});
    assert Whereabouts(Sending(m, msg)) == Whereabouts(m) + multiset{msg};
    assert Balanced(Sending(m, msg), held);
  }

  lemma InterruptConserves(m: Messenger, r: Reply, held: multiset<Message>)
    requires Conserved(m, held)
    ensures Conserved(FromInterrupt(m, r), held)
  {
    if m.queue != [] {
      var item := m.queue[0];
      PopConserves(m, held);
      SendConserves(Pop(m), item.payload, held, r);
      var (s, m') := SendFrame(Pop(m), item.payload, r);
      if s != Ok {
        PushConserves(m', item, held);
        TransmitterConserves(Push(m', item), Recovers(true, r), held);
      }
    }
  }

  lemma {:induction false} IrqsConserve(m: Messenger, irqs: seq<Irq>, held: multiset<Message>)
    requires Conserved(m, held)
    ensures Conserved(OnIrqs(m, irqs), held)
    decreases |irqs|
  {
    if irqs != [] {
      match irqs[0]
      case TxDone(r) =>
        TransmitterConserves(m, Completes, held);
        InterruptConserves(m.(tx := Complete(m.tx)), r, held);
      case RxSucceeds => TransmitterConserves(m, DriverSucceeds, held);
      case RxFails => TransmitterConserves(m, DriverFails, held);
    }
    if irqs != [] {
      IrqsConserve(OnIrq(m, irqs[0]), irqs[1..], held);
    }
  }

  /** Handing a frame over keeps the balance, also when interrupts come before the driver has
      recorded that the hardware took it. */
  lemma HandOverConserves(m: Messenger, msg: Message, held: multiset<Message>, r: Reply, inside: seq<Irq>)
    requires Conserved(m, held + multiset{msg})
    ensures var (s, m') := HandOver(m, msg, r, inside);
            Conserved(m', if s == Ok then held else held + multiset{msg})
  {
    if Accepts(m.tx, r) {
      SendingConserves(m, msg, held);
      IrqsConserve(Sending(m, msg), inside, held);
      RecordedConserves(OnIrqs(Sending(m, msg), inside), r.now, held);
    } else {
      SendConserves(m, msg, held, r);
    }
  }

  /** A retried frame takes the place of the next less urgent kind, down to analog telemetry. */
  lemma RetriedKinds()
    ensures RetryPriority(TxPriority(ProgrammingCommand)) == TxPriority(ControllerMetaData)
    ensures RetryPriority(TxPriority(BluelinkVersion)) == TxPriority(ReverserTelemetry)
    ensures RetryPriority(TxPriority(ReverserTelemetry)) == TxPriority(ReverserAnalogTelemetry)
    ensures RetryPriority(TxPriority(ReverserAnalogTelemetry)) == TxPriority(ReverserAnalogTelemetry)
    ensures RetryPriority(TxPriority(OtherKind)) == TxPriority(ReverserAnalogTelemetry)
  {
  }

  /** A retry makes a frame more urgent exactly when it was one of the default priority, which
      then is 3 instead of 4. */
  lemma RetryPromotes(p: nat)
    ensures RetryPriority(p) < p <==> p > ANALOG_TELEMETRY
    ensures RetryPriority(p) > p <==> p < ANALOG_TELEMETRY
    ensures RetryPriority(DEFAULT_TX_PRIORITY) == 3
  {
  }

  /** A retried frame keeps its payload and finds room in the queue. */
  lemma GiveBackConserves(m: Messenger, item: Item<Message>, s: Status, env: Env, k: nat)
    requires Conserved(m, NOTHING + multiset{item.payload}) && item.priority <= DEFAULT_TX_PRIORITY
    ensures Conserved(GiveBack(m, item, s, env, k), NOTHING)
    ensures |OnIrqs(m, env(k).irqs).queue| < TX_QUEUE_SIZE
  {
    IrqsConserve(m, env(k).irqs, NOTHING + multiset{item.payload});
    var m1 := OnIrqs(m, env(k).irqs);
    if s == Busy {
      PushConserves(m1, Item(RetryPriority(item.priority), item.payload), NOTHING);
    } else {
      PushConserves(m1, item, NOTHING);
      IrqsConserve(Push(m1, item), env(k + 1).irqs, NOTHING);
      TransmitterConserves(OnIrqs(Push(m1, item), env(k + 1).irqs), Recovers(true, env(k + 1).reply), NOTHING);
    }
  }

  lemma PassConserves(m: Messenger, env: Env, k: nat)
    requires Conserved(m, NOTHING)
    ensures Conserved(OnePass(m, env, k).m, NOTHING)
  {
    IrqsConserve(m, env(k).irqs, NOTHING);
    var m0 := OnIrqs(m, env(k).irqs);
    if m0.queue != [] {
      var item := m0.queue[0];
      TakeConserves(m0, env, k + 1);
      var held := OnIrqs(Pop(m0), env(k + 1).irqs);
      var (s, m1) := HandOver(held, item.payload, env(k + 1).reply, env(k + 1).inside);
      if s != Ok {
        GiveBackConserves(m1, item, s, env, k + 2);
      }
    }
  }

  /** One round of the loop. */
  lemma DrainStep(m: Messenger, env: Env, k: nat, n: nat)
    requires n < MAX_TICK_MESSAGES
    ensures var pass := OnePass(m, env, k);
            Drain(m, env, k, n) == if pass.SentOne? then Drain(pass.m, env, k + 2, n + 1) else pass.m
  {
  }

  lemma {:induction false} DrainConserves(m: Messenger, env: Env, k: nat, n: nat)
    requires Conserved(m, NOTHING) && n <= MAX_TICK_MESSAGES
    ensures Conserved(Drain(m, env, k, n), NOTHING)
    decreases MAX_TICK_MESSAGES - n
  {
    if n == MAX_TICK_MESSAGES {
      IrqsConserve(m, env(k).irqs, NOTHING);
    } else {
      PassConserves(m, env, k);
      DrainStep(m, env, k, n);
      var pass := OnePass(m, env, k);
      if pass.SentOne? {
        DrainConserves(pass.m, env, k + 2, n + 1);
      }
    }
  }

  lemma TakeConserves(m: Messenger, env: Env, k: nat)
    requires Conserved(m, NOTHING) && m.queue != []
    ensures var item := m.queue[0];
            var (s, m') := HandOver(OnIrqs(Pop(m), env(k).irqs), item.payload, env(k).reply, env(k).inside);
            && item.priority <= DEFAULT_TX_PRIORITY
            && (s == Ok ==> Conserved(m', NOTHING))
            && (s != Ok ==> Conserved(m', NOTHING + multiset{item.payload}))
  {
    var item := m.queue[0];
    PopConserves(m, NOTHING);
    IrqsConserve(Pop(m), env(k).irqs, NOTHING + multiset{item.payload});
    HandOverConserves(OnIrqs(Pop(m), env(k).irqs), item.payload, NOTHING, env(k).reply, env(k).inside);
  }

  lemma TickConserves(m: Messenger, env: Env)
    requires Conserved(m, NOTHING)
    ensures Conserved(FromTick(m, env), NOTHING)
  {
    IrqsConserve(m, env(0).irqs, NOTHING);
    var m0 := OnIrqs(m, env(0).irqs);
    if m0.tx.available {
      DrainConserves(m0, env, 2, 0);
    } else {
      var m1 := m0.(tx := Recover(m0.tx, false, env(0).reply).1);
      TransmitterConserves(m0, Recovers(false, env(0).reply), NOTHING);
      IrqsConserve(m1, env(1).irqs, NOTHING);
      if OnIrqs(m1, env(1).irqs).tx.available {
        DrainConserves(OnIrqs(m1, env(1).irqs), env, 2, 0);
      }
    }
  }

  /** Clearing an overflowing queue discards its frames and makes room. */
  lemma ClearConserves(m: Messenger)
    requires Conserved(m, NOTHING)
    ensures Conserved(Clear(m), NOTHING)
  {
    Opened(m, NOTHING);
    ClearKeepsSequence(m);
    var m' := Clear(m);
    assert multiset(m'.discarded) == multiset(m.discarded) + multiset(Payloads(m.queue));
    assert multiset(Payloads([])) == NOTHING;
    assert Balanced(m', NOTHING);
  }

  lemma AcceptConserves(m: Messenger, msg: Message)
    requires Conserved(m, NOTHING) && |m.queue| < TX_QUEUE_SIZE
    ensures Conserved(m.(accepted := m.accepted + [msg]), NOTHING + multiset{msg})
  {
    Opened(m, NOTHING);
    assert multiset(m.accepted + [msg]) == multiset(m.accepted) + multiset{msg};
    assert Balanced(m.(accepted := m.accepted + [msg]), NOTHING + multiset{msg});
  }

  /** A frame that finds thirty-two waiting throws them all away and makes the transmitter ready;
      otherwise nothing is thrown away. */
  lemma OverflowDiscards(m: Messenger, msg: Message, r: Reply)
    requires 1 <= |msg.data| <= 8
    ensures var m' := Enqueue(m, msg, r).1;
            if |m.queue| < 32
            then m'.discarded == m.discarded && |m'.queue| == |m.queue| + 1 && m'.tx == m.tx
            else
              && m'.discarded == m.discarded + Payloads(m.queue) && Payloads(m'.queue) == [msg]
              && m'.tx.state == Ready && m'.tx.available && m'.tx.errors == 0
  {
    if |m.queue| >= 32 {
      assert Inserted([], Item(TxPriority(msg.kind), msg)) == [Item(TxPriority(msg.kind), msg)];
    }
  }

  /** A frame that fits its queue item is always accepted - clearing an overflow makes the
      second full check dead - and is then in the queue. Frames of 9 to 64 bytes, which the
      length check lets through, do not fit. */
  lemma EnqueueConserves(m: Messenger, msg: Message, r: Reply)
    requires Conserved(m, NOTHING)
    ensures var (admission, m') := Enqueue(m, msg, r);
            && Conserved(m', NOTHING)
            && (admission == Accepted <==> 1 <= |msg.data| <= 8)
            && (admission == Overruns <==> 8 < |msg.data| <= 64)
            && (admission == Accepted ==> m'.accepted == m.accepted + [msg] && msg in multiset(Payloads(m'.queue)))
            && (admission != Accepted ==> m' == m)
  {
    if 1 <= |msg.data| <= ITEM_BYTES {
      var m1 := m;
      if |m.queue| >= TX_QUEUE_SIZE {
        ClearConserves(m);
        TransmitterConserves(Clear(m), Recovers(true, r), NOTHING);
        m1 := ForceRecover(Clear(m), r);
      }
      AcceptConserves(m1, msg);
      var m2, item := m1.(accepted := m1.accepted + [msg]), Item(TxPriority(msg.kind), msg);
      PushConserves(m2, item, NOTHING);
      PayloadsInserted(m2.queue, item);
    }
  }

  // ---------------------------------------------------------------- runs

  datatype Step =
    | Enqueues(msg: Message, reply: Reply)
    | Ticks(env: Env)
    | Interrupts(irq: Irq)
    | DirectSends(reply: Reply, inside: seq<Irq>)

  function Do(m: Messenger, s: Step): Messenger {
    match s
    case Enqueues(msg, r) => Enqueue(m, msg, r).1
    case Ticks(env) => FromTick(m, env)
    case Interrupts(irq) => OnIrq(m, irq)
    case DirectSends(r, inside) => SendDirect(m, r, inside)
  }

  function Run(steps: seq<Step>): Messenger {
    if steps == [] then POWER_ON else Do(Run(steps[..|steps| - 1]), steps[|steps| - 1])
  }

  lemma DirectSendConserves(m: Messenger, r: Reply, inside: seq<Irq>)
    requires Conserved(m, NOTHING)
    ensures Conserved(SendDirect(m, r, inside), NOTHING)
  {
    var m1 := if m.tx.available then m else m.(tx := Recover(m.tx, false, r).1);
    TransmitterConserves(m, Recovers(false, r), NOTHING);
    TransmitterConserves(m1, Sends(r), NOTHING);
    IrqsConserve(m1, inside, NOTHING);
    RecordedConserves(OnIrqs(m1, inside), r.now, NOTHING);
  }

  lemma PowerOnConserves()
    ensures Conserved(POWER_ON, NOTHING)
  {
    assert Balanced(POWER_ON, NOTHING);
  }

  lemma StepConserves(m: Messenger, s: Step)
    requires Conserved(m, NOTHING)
    ensures Conserved(Do(m, s), NOTHING)
  {
    match s
    case Enqueues(msg, r) => EnqueueConserves(m, msg, r);
    case Ticks(env) => TickConserves(m, env);
    case Interrupts(irq) => OneIrqConserves(m, irq);
    case DirectSends(r, inside) => DirectSendConserves(m, r, inside);
  }

  lemma OneIrqConserves(m: Messenger, irq: Irq)
    requires Conserved(m, NOTHING)
    ensures Conserved(OnIrq(m, irq), NOTHING)
  {
    IrqsConserve(m, [irq], NOTHING);
    assert OnIrqs(m, [irq]) == OnIrq(m, irq);
  }

  /** Over every run, with interrupts between the steps of a tick and inside driver calls:
      enqueued = sent + queued + discarded, the queue is sorted and never exceeds its 32
      slots. */
  lemma {:induction false} RunsConserve(steps: seq<Step>)
    ensures Conserved(Run(steps), NOTHING)
    decreases |steps|
  {
    if steps == [] {
      PowerOnConserves();
    } else {
      RunsConserve(steps[..|steps| - 1]);
      StepConserves(Run(steps[..|steps| - 1]), steps[|steps| - 1]);
    }
  }

  lemma {:induction false} PayloadCount(q: seq<Item<Message>>)
    ensures |multiset(Payloads(q))| == |q|
  {
    if q != [] {
      PayloadCount(q[1..]);
    }
  }

  /** The same, spelled out: no frame is lost, duplicated or altered, the queue fits and is
      sorted, and the transmitter's state and flag agree. */
  lemma RunsBalance(steps: seq<Step>)
    ensures var m := Run(steps);
            && multiset(m.accepted) == multiset(m.sent) + multiset(Payloads(m.queue)) + multiset(m.discarded)
            && |m.accepted| == |m.sent| + |m.queue| + |m.discarded|
            && |m.queue| <= 32 && Sorted(m.queue) && Coherent(m.tx)
  {
    var m := Run(steps);
    RunsConserve(steps);
    Opened(m, NOTHING);
    InOrderIsSorted(m.queue);
    PayloadCount(m.queue);
    assert |multiset(m.accepted)| == |m.accepted|;
    assert |multiset(m.sent)| == |m.sent|;
    assert |multiset(m.discarded)| == |m.discarded|;
  }
}
