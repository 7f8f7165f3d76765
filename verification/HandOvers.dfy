/** The ways a frame is handed to the driver, one by one: from the interrupt, from the tick and past
    the queue, and what interrupts in the middle of it do. */
module HandOvers {
  import opened Interface
  import opened CanTransmitter
  import opened PriorityOrder
  import opened MessengerSpec

  lemma OneInterrupt(m: Messenger, irq: Irq)
    ensures OnIrqs(m, [irq]) == OnIrq(m, irq)
  {
    assert [irq][1..] == [];
  }

  // ---------------------------------------------------------------- from the interrupt

  /** A frame that the hardware does not take goes back. With its FIFO full the transmitter is left
      ready as it was, a driver that is busy counts as one failure more, and any other failure makes
      it ready with no errors. */
  lemma RefusedInInterrupt(m: Messenger, r: Reply)
    requires m.queue != [] && r.hal != Ok && m.tx.errors < 9
    ensures var m' := OnIrq(m, TxDone(r));
            && m'.sent == m.sent && m'.discarded == m.discarded
            && m'.queue == Inserted(m.queue[1..], m.queue[0])
            && m'.tx.state == Ready && m'.tx.available
            && m'.tx.errors == if r.fifoFull then m.tx.errors else if r.hal == Busy then m.tx.errors + 1 else 0
  {
  }

  /** It goes behind the others of its priority: a frame refused in the interrupt loses its turn. */
  lemma RefusedFrameLosesItsTurn(m: Messenger, r: Reply)
    requires |m.queue| > 1 && m.queue[0].priority == m.queue[1].priority && r.hal != Ok && m.tx.errors < 9
    ensures OnIrq(m, TxDone(r)).queue[0] == m.queue[1]
  {
    RefusedInInterrupt(m, r);
  }

  // ---------------------------------------------------------------- in the middle of a hand-over

  /** A transmission that completes after the hardware took a frame, and before that is recorded,
      sends the next frame as well; the record then tells of the first one alone. */
  lemma CompletionInsideSendsNext(m: Messenger, msg: Message, r: Reply, done: Reply)
    requires Accepts(m.tx, r) && m.queue != [] && done.hal == Ok
    ensures var (s, m') := HandOver(m, msg, r, [TxDone(done)]);
            && s == Ok && m'.sent == m.sent + [msg, m.queue[0].payload] && m'.queue == m.queue[1..]
            && m'.tx.state == BusyTx && !m'.tx.available && m'.tx.started == r.now && m'.tx.errors == 0
  {
    OneInterrupt(Sending(m, msg), TxDone(done));
    assert (m.sent + [msg]) + [m.queue[0].payload] == m.sent + [msg, m.queue[0].payload];
  }

  /** A completion between putting a failed frame back and the recovery sends a most urgent frame; the
      recovery then aborts the transmission, and the frame still counts as sent. */
  lemma CompletionBeforeRecoverySends(m: Messenger, item: Item<Message>, env: Env, k: nat, done: Reply)
    requires env(k).irqs == [] && env(k + 1).irqs == [TxDone(done)] && done.hal == Ok
    ensures var m', back := GiveBack(m, item, Error, env, k), Inserted(m.queue, item);
            && m'.sent == m.sent + [back[0].payload] && m'.queue == back[1..]
            && m'.tx.state == Ready && m'.tx.available && m'.tx.errors == 0
  {
    OneInterrupt(Push(m, item), TxDone(done));
  }

  /** And one after the bus was found busy sends it before the frame goes back. */
  lemma CompletionBeforeGivingBack(m: Messenger, item: Item<Message>, env: Env, k: nat, done: Reply)
    requires env(k).irqs == [TxDone(done)] && done.hal == Ok && m.queue != []
    ensures var m' := GiveBack(m, item, Busy, env, k);
            && m'.sent == m.sent + [m.queue[0].payload]
            && m'.queue == Inserted(m.queue[1..], Item(RetryPriority(item.priority), item.payload))
  {
    OneInterrupt(m, TxDone(done));
  }

  // ---------------------------------------------------------------- past the queue

  /** A direct send with the transmitter ready: a frame that is taken occupies it from that time on,
      a full FIFO changes nothing, and any other answer is one failure more. */
  lemma DirectSendFromReady(m: Messenger, r: Reply)
    requires m.tx.state == Ready && m.tx.available && m.tx.errors < 9
    ensures var m' := SendDirect(m, r, []);
            && m'.queue == m.queue && m'.sent == m.sent
            && if r.hal == Ok then m'.tx.state == BusyTx && !m'.tx.available && m'.tx.started == r.now && m'.tx.errors == 0
               else m'.tx.state == Ready && m'.tx.available
                    && m'.tx.errors == if r.fifoFull then m.tx.errors else m.tx.errors + 1
  {
  }

  /** While a transmission is on its way, for less than a hundred milliseconds, it does nothing; after
      that it recovers the transmitter first, and an error state too. */
  lemma DirectSendWhileBusy(m: Messenger, r: Reply, inside: seq<Irq>)
    requires !m.tx.available && Coherent(m.tx)
    ensures var m' := SendDirect(m, r, inside);
            && (m.tx.state == BusyTx && !TimedOut(m.tx, r.now) ==> m' == m)
            && (m.tx.state == Faulted || TimedOut(m.tx, r.now) ==>
                  m' == SendDirect(m.(tx := m.tx.(state := Ready, available := true, errors := 0)), r, inside))
  {
  }

  /** A completion in the middle of it sends the head of the queue. */
  lemma CompletionInsideDirectSend(m: Messenger, r: Reply, done: Reply)
    requires m.tx.state == Ready && m.tx.available && r.hal == Ok && m.queue != [] && done.hal == Ok
    ensures var m' := SendDirect(m, r, [TxDone(done)]);
            && m'.sent == m.sent + [m.queue[0].payload] && m'.queue == m.queue[1..]
            && m'.tx.state == BusyTx && !m'.tx.available
  {
    OneInterrupt(m, TxDone(done));
  }
}
