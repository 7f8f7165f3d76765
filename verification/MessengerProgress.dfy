/** The transmit path does not get stuck: when a tick reaches the hardware, and when it cannot. */
module MessengerProgress {
  import opened Bytes
  import opened Interface
  import opened CanTransmitter
  import opened PriorityOrder
  import opened MessengerSpec
  import opened MessengerRuns

  lemma {:induction false} IrqAttempts(m: Messenger, irqs: seq<Irq>)
    ensures OnIrqs(m, irqs).attempts >= m.attempts
    decreases |irqs|
  {
    if irqs != [] {
      IrqAttempts(OnIrq(m, irqs[0]), irqs[1..]);
    }
  }

  lemma HandOverAttempts(m: Messenger, msg: Message, r: Reply, inside: seq<Irq>)
    ensures var m' := HandOver(m, msg, r, inside).1;
            m'.attempts >= m.attempts && (ReachesHardware(m.tx) ==> m'.attempts > m.attempts)
  {
    IrqAttempts(Sending(m, msg), inside);
  }

  /** The held frame is offered to the hardware in the middle of a pass; offers are never
      taken back. */
  lemma PassAttempts(m: Messenger, env: Env, k: nat)
    ensures var m0 := OnIrqs(m, env(k).irqs);
            var after := OnePass(m, env, k).m.attempts;
            && after >= m0.attempts >= m.attempts
            && (m0.queue != [] ==>
                  var held := OnIrqs(Pop(m0), env(k + 1).irqs);
                  after >= held.attempts && (ReachesHardware(held.tx) ==> after > held.attempts))
  {
    IrqAttempts(m, env(k).irqs);
    var m0 := OnIrqs(m, env(k).irqs);
    if m0.queue != [] {
      var item := m0.queue[0];
      IrqAttempts(Pop(m0), env(k + 1).irqs);
      var held := OnIrqs(Pop(m0), env(k + 1).irqs);
      HandOverAttempts(held, item.payload, env(k + 1).reply, env(k + 1).inside);
      var (s, m1) := HandOver(held, item.payload, env(k + 1).reply, env(k + 1).inside);
      if s != Ok {
        IrqAttempts(m1, env(k + 2).irqs);
        IrqAttempts(Push(OnIrqs(m1, env(k + 2).irqs), item), env(k + 3).irqs);
      }
    }
  }

  lemma {:induction false} AttemptsGrow(m: Messenger, env: Env, k: nat, n: nat)
    requires n <= MAX_TICK_MESSAGES
    ensures Drain(m, env, k, n).attempts >= m.attempts
    ensures n < MAX_TICK_MESSAGES ==> Drain(m, env, k, n).attempts >= OnePass(m, env, k).m.attempts
    decreases MAX_TICK_MESSAGES - n
  {
    if n == MAX_TICK_MESSAGES {
      IrqAttempts(m, env(k).irqs);
    } else {
      PassAttempts(m, env, k);
      DrainStep(m, env, k, n);
      var pass := OnePass(m, env, k);
      if pass.SentOne? {
        AttemptsGrow(pass.m, env, k + 2, n + 1);
      }
    }
  }

  /** Whether the error count, which stands at `errors`, comes to its limit in these
      interrupts: receive failures count, a receive success starts over. */
  predicate ReachesLimit(errors: nat, irqs: seq<Irq>)
    decreases |irqs|
  {
    irqs != [] &&
      match irqs[0]
      case RxFails => errors + 1 >= MAX_CONSECUTIVE_ERRORS || ReachesLimit(errors + 1, irqs[1..])
      case RxSucceeds => ReachesLimit(0, irqs[1..])
      case TxDone(_) => ReachesLimit(errors, irqs[1..])
  }

  function ErrorsAfter(errors: nat, irqs: seq<Irq>): nat
    decreases |irqs|
  {
    if irqs == [] then errors
    else
      match irqs[0]
      case RxFails => ErrorsAfter(errors + 1, irqs[1..])
      case RxSucceeds => ErrorsAfter(0, irqs[1..])
      case TxDone(_) => ErrorsAfter(errors, irqs[1..])
  }

  lemma {:induction false} LimitOverBoth(errors: nat, a: seq<Irq>, b: seq<Irq>)
    ensures ReachesLimit(errors, a + b) <==> ReachesLimit(errors, a) || ReachesLimit(ErrorsAfter(errors, a), b)
    ensures ErrorsAfter(errors, a + b) == ErrorsAfter(ErrorsAfter(errors, a), b)
    decreases |a|
  {
    if a == [] {
      assert a + b == b;
    } else {
      assert (a + b)[1..] == a[1..] + b;
      match a[0]
      case RxFails => LimitOverBoth(errors + 1, a[1..], b);
      case RxSucceeds => LimitOverBoth(0, a[1..], b);
      case TxDone(_) => LimitOverBoth(errors, a[1..], b);
    }
  }

  function Failures(irqs: seq<Irq>): nat {
    if irqs == [] then 0 else (if irqs[0].RxFails? then 1 else 0) + Failures(irqs[1..])
  }

  /** Fewer than ten failures never reach the limit. Ten do, when nothing else comes. */
  lemma {:induction false} FewFailuresAreHarmless(errors: nat, irqs: seq<Irq>)
    requires errors < 10
    ensures errors + Failures(irqs) < 10 ==> !ReachesLimit(errors, irqs)
    ensures (forall irq :: irq in irqs ==> irq.RxFails?) ==>
              (ReachesLimit(errors, irqs) <==> errors + Failures(irqs) >= 10)
    decreases |irqs|
  {
    if irqs != [] {
      assert irqs[0] in irqs;
      assert forall irq :: irq in irqs[1..] ==> irq in irqs;
      match irqs[0]
      case RxFails =>
        if errors + 1 < 10 {
          FewFailuresAreHarmless(errors + 1, irqs[1..]);
        }
      case RxSucceeds => FewFailuresAreHarmless(0, irqs[1..]);
      case TxDone(_) => FewFailuresAreHarmless(errors, irqs[1..]);
    }
  }

  /** The interrupts of a tick that finds the flag up, before it offers its first frame. */
  function BeforeSend(env: Env): seq<Irq> {
    env(0).irqs + (env(2).irqs + env(3).irqs)
  }

  /** Ready to send, with no errors counted. */
  predicate Rested(m: Messenger) {
    m.tx.state == Ready && m.tx.available && m.tx.errors == 0
  }

  predicate Waiting(m: Messenger) {
    m.queue != [] && Rested(m)
  }

  // What interrupts do as long as they offer nothing to the hardware.

  /** Whatever interrupts come: a frame is offered, or the queue is the same, a flag that is up
      stays up, and the transmitter is where it was, ready or in error. */
  lemma {:induction false} AnyIrqs(m: Messenger, irqs: seq<Irq>)
    requires Coherent(m.tx)
    ensures var m' := OnIrqs(m, irqs);
            && Coherent(m'.tx)
            && (m'.attempts == m.attempts ==>
                  && m'.queue == m.queue && m'.tx.started == m.tx.started
                  && (m.tx.available ==> m'.tx.available)
                  && (m'.tx.state == m.tx.state || m'.tx.state == Ready || m'.tx.state == Faulted)
                  && (m'.tx.state == Ready && m.tx.state != Ready ==> m'.tx.available))
    decreases |irqs|
  {
    if irqs != [] {
      OneIrq(m, irqs[0]);
      AnyIrqs(OnIrq(m, irqs[0]), irqs[1..]);
      IrqAttempts(OnIrq(m, irqs[0]), irqs[1..]);
    }
  }

  lemma OneIrq(m: Messenger, irq: Irq)
    requires Coherent(m.tx)
    ensures var m' := OnIrq(m, irq);
            && Coherent(m'.tx) && m'.attempts >= m.attempts
            && (m'.attempts == m.attempts ==>
                  && m'.queue == m.queue && m'.tx.started == m.tx.started
                  && (m.tx.available ==> m'.tx.available)
                  && (m'.tx.state == m.tx.state || m'.tx.state == Ready || m'.tx.state == Faulted)
                  && (m'.tx.state == Ready && m.tx.state != Ready ==> m'.tx.available))
  {
    IrqAttempts(m, [irq]);
    assert OnIrqs(m, [irq]) == OnIrq(m, irq);
  }

  /** Below the limit, a frame is offered or the transmitter stays ready. */
  lemma {:induction false} IrqsBelowLimit(m: Messenger, irqs: seq<Irq>, errors: nat)
    requires m.tx.state == Ready && m.tx.available && m.tx.errors <= errors && !ReachesLimit(errors, irqs)
    ensures var m' := OnIrqs(m, irqs);
            m'.attempts == m.attempts ==>
              && m'.queue == m.queue && m'.tx.state == Ready && m'.tx.available
              && m'.tx.errors <= ErrorsAfter(errors, irqs)
    decreases |irqs|
  {
    if irqs != [] {
      var m1 := OnIrq(m, irqs[0]);
      IrqAttempts(m1, irqs[1..]);
      match irqs[0]
      case RxFails => IrqsBelowLimit(m1, irqs[1..], errors + 1);
      case RxSucceeds => IrqsBelowLimit(m1, irqs[1..], 0);
      case TxDone(_) =>
        if m1.attempts == m.attempts {
          IrqsBelowLimit(m1, irqs[1..], errors);
        }
    }
  }

  /** Interrupts of the receive side alone: the transmitter is in error afterwards exactly when
      they reach the limit. */
  lemma {:induction false} ReceiveIrqs(m: Messenger, irqs: seq<Irq>)
    requires NoTransmit(irqs) && m.tx.errors <= MAX_CONSECUTIVE_ERRORS
    requires m.tx.state == Faulted || (m.tx.state == Ready && m.tx.errors < MAX_CONSECUTIVE_ERRORS)
    ensures var m' := OnIrqs(m, irqs);
            && m' == m.(tx := m'.tx) && m'.tx.available == m.tx.available
            && (m'.tx.state == Faulted || (m'.tx.state == Ready && m'.tx.errors < MAX_CONSECUTIVE_ERRORS))
            && m'.tx.errors <= MAX_CONSECUTIVE_ERRORS
            && (m'.tx.state == Faulted <==> m.tx.state == Faulted || ReachesLimit(m.tx.errors, irqs))
            && (m'.tx.state == Ready ==> m'.tx.errors == ErrorsAfter(m.tx.errors, irqs))
    decreases |irqs|
  {
    if irqs != [] {
      assert irqs[0] in irqs;
      assert forall irq :: irq in irqs[1..] ==> irq in irqs;
      ReceiveIrqs(OnIrq(m, irqs[0]), irqs[1..]);
    }
  }

  // What a tick does.

  /** A tick keeps what was offered before its first recovery and its loop. */
  lemma TickAttempts(m: Messenger, env: Env)
    ensures FromTick(m, env).attempts >= OnIrqs(m, env(0).irqs).attempts >= m.attempts
    ensures var m0 := OnIrqs(m, env(0).irqs);
            !m0.tx.available ==>
              FromTick(m, env).attempts >= OnIrqs(m0.(tx := Recover(m0.tx, false, env(0).reply).1), env(1).irqs).attempts
  {
    IrqAttempts(m, env(0).irqs);
    var m0 := OnIrqs(m, env(0).irqs);
    if m0.tx.available {
      AttemptsGrow(m0, env, 2, 0);
    } else {
      var m1 := m0.(tx := Recover(m0.tx, false, env(0).reply).1);
      IrqAttempts(m1, env(1).irqs);
      AttemptsGrow(OnIrqs(m1, env(1).irqs), env, 2, 0);
    }
  }

  /** A frame that the driver refused in error goes back, and the transmitter rests, unless an
      interrupt has offered a frame meanwhile. */
  lemma GiveBackRests(m: Messenger, item: Item<Message>, env: Env, k: nat)
    requires Coherent(m.tx)
    ensures var m' := GiveBack(m, item, Error, env, k);
            m'.attempts >= m.attempts && (m'.attempts == m.attempts ==> Waiting(m'))
  {
    IrqAttempts(m, env(k).irqs);
    AnyIrqs(m, env(k).irqs);
    var m1 := Push(OnIrqs(m, env(k).irqs), item);
    IrqAttempts(m1, env(k + 1).irqs);
    AnyIrqs(m1, env(k + 1).irqs);
  }

  /** The loop with frames queued and the flag up: a frame is offered to the hardware, or the
      transmitter rests afterwards with frames still queued - whatever interrupts come. */
  lemma DrainOffersOrRests(m: Messenger, env: Env)
    requires m.queue != [] && Coherent(m.tx) && m.tx.available
    ensures var m' := Drain(m, env, 2, 0);
            m'.attempts >= m.attempts && (m'.attempts == m.attempts ==> Waiting(m'))
  {
    AttemptsGrow(m, env, 2, 0);
    PassAttempts(m, env, 2);
    PassOffersOrRests(m, env, 2);
    DrainStep(m, env, 2, 0);
  }

  /** A first pass that offers nothing ends the loop with a rested transmitter. */
  lemma PassOffersOrRests(m: Messenger, env: Env, k: nat)
    requires m.queue != [] && Coherent(m.tx) && m.tx.available
    ensures var pass := OnePass(m, env, k);
            pass.m.attempts == m.attempts ==> pass.Stopped? && Waiting(pass.m)
  {
    AnyIrqs(m, env(k).irqs);
    PassAttempts(m, env, k);
    var m0 := OnIrqs(m, env(k).irqs);
    if m0.attempts == m.attempts {
      HeldOffersOrRests(m0, env, k);
    }
  }

  lemma HeldOffersOrRests(m: Messenger, env: Env, k: nat)
    requires m.queue != [] && Coherent(m.tx) && m.tx.available
    ensures var item, held := m.queue[0], OnIrqs(Pop(m), env(k + 1).irqs);
            var (s, m1) := HandOver(held, item.payload, env(k + 1).reply, env(k + 1).inside);
            && m1.attempts >= m.attempts
            && (m1.attempts == m.attempts ==> s == Error)
            && (s == Error && GiveBack(m1, item, s, env, k + 2).attempts == m.attempts ==>
                  Waiting(GiveBack(m1, item, s, env, k + 2)))
            && GiveBack(m1, item, s, env, k + 2).attempts >= m1.attempts
  {
    var item, held := m.queue[0], OnIrqs(Pop(m), env(k + 1).irqs);
    AnyIrqs(Pop(m), env(k + 1).irqs);
    IrqAttempts(Pop(m), env(k + 1).irqs);
    HandOverAttempts(held, item.payload, env(k + 1).reply, env(k + 1).inside);
    var (s, m1) := HandOver(held, item.payload, env(k + 1).reply, env(k + 1).inside);
    GiveBackAttempts(m1, item, s, env, k + 2);
    if s == Error && GiveBack(m1, item, s, env, k + 2).attempts == m.attempts {
      assert m1 == held;
      GiveBackRests(m1, item, env, k + 2);
    }
  }

  lemma GiveBackAttempts(m: Messenger, item: Item<Message>, s: Status, env: Env, k: nat)
    ensures GiveBack(m, item, s, env, k).attempts >= m.attempts
  {
    IrqAttempts(m, env(k).irqs);
    IrqAttempts(Push(OnIrqs(m, env(k).irqs), item), env(k + 1).irqs);
  }

  lemma TickOffersOrRests(m: Messenger, env: Env)
    requires m.queue != [] && Coherent(m.tx)
    requires m.tx.available || m.tx.state == Faulted || TimedOut(m.tx, env(0).reply.now)
    ensures var m' := FromTick(m, env);
            m'.attempts >= m.attempts && (m'.attempts == m.attempts ==> Waiting(m'))
  {
    TickAttempts(m, env);
    AnyIrqs(m, env(0).irqs);
    var m0 := OnIrqs(m, env(0).irqs);
    if m0.attempts == m.attempts {
      if m0.tx.available {
        DrainOffersOrRests(m0, env);
      } else {
        var m1 := m0.(tx := Recover(m0.tx, false, env(0).reply).1);
        EventsKeepCoherent(m0.tx, Recovers(false, env(0).reply));
        AnyIrqs(m1, env(1).irqs);
        IrqAttempts(m1, env(1).irqs);
        var m2 := OnIrqs(m1, env(1).irqs);
        if m2.attempts == m1.attempts {
          DrainOffersOrRests(m2, env);
        }
      }
    }
  }

  /** From a rested transmitter a tick offers a frame unless the interrupts before it is offered
      reach the error limit. */
  lemma RestedTickOffers(m: Messenger, env: Env)
    requires Waiting(m) && !ReachesLimit(0, BeforeSend(env))
    ensures FromTick(m, env).attempts > m.attempts
  {
    LimitOverBoth(0, env(0).irqs, env(2).irqs + env(3).irqs);
    var e0 := ErrorsAfter(0, env(0).irqs);
    assert !ReachesLimit(0, env(0).irqs) && !ReachesLimit(e0, env(2).irqs + env(3).irqs);
    LimitOverBoth(e0, env(2).irqs, env(3).irqs);
    TickAttempts(m, env);
    IrqsBelowLimit(m, env(0).irqs, 0);
    var m0 := OnIrqs(m, env(0).irqs);
    if m0.attempts == m.attempts {
      AttemptsGrow(m0, env, 2, 0);
      PassAttempts(m0, env, 2);
      IrqsBelowLimit(m0, env(2).irqs, e0);
      assert FromTick(m, env) == Drain(m0, env, 2, 0);
      var m2 := OnIrqs(m0, env(2).irqs);
      if m2.attempts == m0.attempts {
        IrqAttempts(Pop(m2), env(3).irqs);
        IrqsBelowLimit(Pop(m2), env(3).irqs, ErrorsAfter(e0, env(2).irqs));
      }
    }
  }

  /** The transmit path cannot wedge: with frames queued and a hundred milliseconds since the
      last one was accepted, two ticks offer a frame to the hardware - whatever happens in the
      first of them, and whether or not transmit interrupts come, as long as receive failures
      do not reach the error limit before the second tick offers its frame. */
  lemma TwoTicksReachHardware(m: Messenger, begun: nat, now: nat, first: Env, second: Env)
    requires Conserved(m, NOTHING) && m.queue != []
    requires !m.tx.available ==> m.tx.started == begun % TWO_32
    requires first(0).reply.now == now % TWO_32 && begun + 100 <= now < begun + TWO_32
    requires !ReachesLimit(0, BeforeSend(second))
    ensures FromTick(FromTick(m, first), second).attempts > m.attempts
  {
    ClockDifference(begun, now);
    Opened(m, NOTHING);
    TwoTicksOffer(m, first, second);
  }

  lemma TwoTicksOffer(m: Messenger, first: Env, second: Env)
    requires m.queue != [] && Coherent(m.tx) && !ReachesLimit(0, BeforeSend(second))
    requires m.tx.available || m.tx.state == Faulted || TimedOut(m.tx, first(0).reply.now)
    ensures FromTick(FromTick(m, first), second).attempts > m.attempts
  {
    TickOffersOrRests(m, first);
    var m1 := FromTick(m, first);
    TickAttempts(m1, second);
    if m1.attempts == m.attempts {
      RestedTickOffers(m1, second);
    }
  }

  /** In particular when fewer than ten receive failures are reported before that. */
  lemma TwoTicksWithFewFailures(m: Messenger, begun: nat, now: nat, first: Env, second: Env)
    requires Conserved(m, NOTHING) && m.queue != []
    requires !m.tx.available ==> m.tx.started == begun % TWO_32
    requires first(0).reply.now == now % TWO_32 && begun + 100 <= now < begun + TWO_32
    requires Failures(BeforeSend(second)) < 10
    ensures FromTick(FromTick(m, first), second).attempts > m.attempts
  {
    FewFailuresAreHarmless(0, BeforeSend(second));
    TwoTicksReachHardware(m, begun, now, first, second);
  }

  // ---------------------------------------------------------------- a missed completion

  /** A frame that is finished before the driver has recorded that the hardware took it leaves
      the transmitter waiting for a completion that has already come, until a plain recovery
      finds that a hundred milliseconds have passed. */
  lemma CompletionInsideIsMissed(m: Messenger, msg: Message, r: Reply, done: Reply, later: Reply)
    requires Accepts(m.tx, r) && m.queue == []
    ensures var m' := HandOver(m, msg, r, [TxDone(done)]).1;
            && m'.tx.state == BusyTx && !m'.tx.available && m'.sent == m.sent + [msg]
            && (Recover(m'.tx, false, later).1.available <==> (later.now - r.now) % TWO_32 >= 100)
  {
    var irqs := [TxDone(done)];
    assert irqs[1..] == [];
    assert OnIrqs(Sending(m, msg), irqs) == OnIrqs(OnIrq(Sending(m, msg), irqs[0]), irqs[1..]);
  }

  // ---------------------------------------------------------------- starvation

  /** No transmit interrupt comes in the first pass of the tick. */
  predicate ReceiveOnly(env: Env) {
    NoTransmit(env(0).irqs) && NoTransmit(env(2).irqs) && NoTransmit(env(3).irqs)
    && NoTransmit(env(4).irqs) && NoTransmit(env(5).irqs)
  }

  /** The condition is exact: from a rested transmitter and without transmit interrupts, a tick
      offers nothing to the hardware if and only if receive failures reach the error limit
      before the frame is offered; then nothing is sent, frames are still queued, and the
      transmitter rests again. */
  lemma ReceiveFailuresStarve(m: Messenger, env: Env)
    requires Waiting(m) && ReceiveOnly(env)
    ensures var m' := FromTick(m, env);
            && (m'.attempts == m.attempts <==> ReachesLimit(0, BeforeSend(env)))
            && (m'.attempts == m.attempts ==> Waiting(m') && m'.sent == m.sent)
  {
    if !ReachesLimit(0, BeforeSend(env)) {
      RestedTickOffers(m, env);
    } else {
      LimitStopsTick(m, env);
    }
  }

  /** A tick whose interrupts are receive failures alone, before the frame is offered, offers
      nothing if and only if there are at least ten of them. */
  lemma TenFailuresStarve(m: Messenger, env: Env)
    requires Waiting(m) && ReceiveOnly(env) && forall irq :: irq in BeforeSend(env) ==> irq.RxFails?
    ensures FromTick(m, env).attempts == m.attempts <==> Failures(BeforeSend(env)) >= 10
  {
    ReceiveFailuresStarve(m, env);
    FewFailuresAreHarmless(0, BeforeSend(env));
  }

  lemma LimitStopsTick(m: Messenger, env: Env)
    requires Waiting(m) && ReceiveOnly(env) && ReachesLimit(0, BeforeSend(env))
    ensures var m' := FromTick(m, env); m'.attempts == m.attempts && Waiting(m') && m'.sent == m.sent
  {
    LimitOverBoth(0, env(0).irqs, env(2).irqs + env(3).irqs);
    LimitOverBoth(ErrorsAfter(0, env(0).irqs), env(2).irqs, env(3).irqs);
    ReceiveIrqs(m, env(0).irqs);
    var m0 := OnIrqs(m, env(0).irqs);
    ReceiveIrqs(m0, env(2).irqs);
    var m2 := OnIrqs(m0, env(2).irqs);
    ReceiveIrqs(Pop(m2), env(3).irqs);
    var held := OnIrqs(Pop(m2), env(3).irqs);
    assert held.tx.state == Faulted;
    assert FromTick(m, env) == GiveBack(held, m2.queue[0], Error, env, 4);
    ReceiveIrqs(held, env(4).irqs);
    ReceiveIrqs(Push(OnIrqs(held, env(4).irqs), m2.queue[0]), env(5).irqs);
  }

  function Ticked(m: Messenger, envs: seq<Env>): Messenger {
    if envs == [] then m else FromTick(Ticked(m, envs[..|envs| - 1]), envs[|envs| - 1])
  }

  /** So it can go on for ever. */
  lemma {:induction false} StarvedForever(m: Messenger, envs: seq<Env>)
    requires Waiting(m)
    requires forall i :: 0 <= i < |envs| ==> ReceiveOnly(envs[i]) && ReachesLimit(0, BeforeSend(envs[i]))
    ensures var m' := Ticked(m, envs); m'.attempts == m.attempts && m'.sent == m.sent && Waiting(m')
    decreases |envs|
  {
    if envs != [] {
      StarvedForever(m, envs[..|envs| - 1]);
      LimitStopsTick(Ticked(m, envs[..|envs| - 1]), envs[|envs| - 1]);
    }
  }
}
