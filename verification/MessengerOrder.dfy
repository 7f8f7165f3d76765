/** In which order frames leave the queue and in which order they are sent. */
module MessengerOrder {
  import opened Interface
  import opened CanTransmitter
  import opened PriorityOrder
  import opened MessengerSpec
  import opened MessengerRuns

  /** Over every run, frames of one priority leave the queue in the order in which they entered
      it, none skipped and none twice. A frame that is put back enters again, with the priority
      it is given then. */
  lemma FramesLeaveInOrder(steps: seq<Step>, p: nat)
    ensures var m := Run(steps);
            OfPriority(m.entered, p) == OfPriority(m.left, p) + OfPriority(m.queue, p)
  {
    RunsConserve(steps);
    Opened(Run(steps), NOTHING);
  }

  // ---------------------------------------------------------------- overtaking

  /** While the tick holds a frame, two transmit interrupts send the one behind it and finish
      that. Here no frame is ever put back, and `b` is sent after `c`. */
  lemma HeldFrameIsOvertaken(a: Message, b: Message, c: Message, env: Env, r: Reply)
    requires a.kind == b.kind == c.kind == OtherKind && |a.data| == |b.data| == |c.data| == 1
    requires r.hal == Ok && env(3).reply == r && env(5) == Moment([TxDone(r), TxDone(r)], r, [])
    requires env(0).irqs == env(2).irqs == env(3).irqs == env(4).irqs == env(6).irqs == env(3).inside == []
    ensures var m := Run([Enqueues(a, r), Enqueues(b, r), Enqueues(c, r), Ticks(env)]);
            && m.accepted == [a, b, c] && |m.entered| == 3
            && Payloads(m.left) == [a, b, c] && m.sent == [a, c, b]
  {
    var steps := [Enqueues(a, r), Enqueues(b, r), Enqueues(c, r), Ticks(env)];
    assert steps[..3] == [Enqueues(a, r), Enqueues(b, r), Enqueues(c, r)];
    ThreeEnqueued(a, b, c, r);
    OvertakingTick(Run(steps[..3]), Item(4, a), Item(4, b), Item(4, c), env, r);
    PayloadsOfThree(Item(4, a), Item(4, b), Item(4, c));
  }

  lemma ThreeEnqueued(a: Message, b: Message, c: Message, r: Reply)
    requires a.kind == b.kind == c.kind == OtherKind && |a.data| == |b.data| == |c.data| == 1
    ensures var m := Run([Enqueues(a, r), Enqueues(b, r), Enqueues(c, r)]);
            && m.queue == [Item(4, a), Item(4, b), Item(4, c)] && m.entered == m.queue
            && m.accepted == [a, b, c] && m.sent == [] && m.left == [] && m.tx == STARTED
  {
    var all := [Enqueues(a, r), Enqueues(b, r), Enqueues(c, r)];
    assert all[..2] == [Enqueues(a, r), Enqueues(b, r)] && all[..2][..1] == [Enqueues(a, r)];
    assert [Enqueues(a, r)][..0] == [];
    OneEnqueued(POWER_ON, a, r);
    assert Run([Enqueues(a, r)]) == Enqueue(POWER_ON, a, r).1;
    OneEnqueued(Run([Enqueues(a, r)]), b, r);
    assert Run(all[..2]) == Enqueue(Run([Enqueues(a, r)]), b, r).1;
    OneEnqueued(Run(all[..2]), c, r);
  }

  lemma OneEnqueued(m: Messenger, x: Message, r: Reply)
    requires x.kind == OtherKind && |x.data| == 1 && |m.queue| < 3
    requires forall i :: 0 <= i < |m.queue| ==> m.queue[i].priority <= 4
    ensures Enqueue(m, x, r).1 == m.(queue := m.queue + [Item(4, x)], entered := m.entered + [Item(4, x)],
                                     accepted := m.accepted + [x])
  {
    InsertedLast(m.queue, Item(4, x));
  }

  lemma PayloadsOfThree(a: Item<Message>, b: Item<Message>, c: Item<Message>)
    ensures Payloads([a, b, c]) == [a.payload, b.payload, c.payload]
  {
    assert [a, b, c][1..] == [b, c] && [b, c][1..] == [c] && [c][1..] == [];
    assert Payloads([c]) == [c.payload];
    assert Payloads([b, c]) == [b.payload] + Payloads([c]);
  }

  lemma {:induction false} InsertedLast(q: seq<Item<Message>>, item: Item<Message>)
    requires forall i :: 0 <= i < |q| ==> q[i].priority <= item.priority
    ensures Inserted(q, item) == q + [item]
  {
    if q != [] {
      InsertedLast(q[1..], item);
      assert q == [q[0]] + q[1..];
    }
  }

  lemma OvertakingTick(m: Messenger, a: Item<Message>, b: Item<Message>, c: Item<Message>, env: Env, r: Reply)
    requires m.queue == [a, b, c] && m.tx == STARTED && m.sent == [] && m.left == []
    requires r.hal == Ok && env(3).reply == r && env(5) == Moment([TxDone(r), TxDone(r)], r, [])
    requires env(0).irqs == env(2).irqs == env(3).irqs == env(4).irqs == env(6).irqs == env(3).inside == []
    ensures FromTick(m, env).sent == [a.payload, c.payload, b.payload] && FromTick(m, env).left == [a, b, c]
    ensures FromTick(m, env).entered == m.entered && FromTick(m, env).accepted == m.accepted
  {
    var m1 := HandOver(Pop(m), a.payload, r, []).1;
    assert OnePass(m, env, 2) == SentOne(m1);
    var held := Pop(m1);
    OvertakingIrqs(held, c, r);
    var m3 := OnIrqs(held, env(5).irqs);
    var m4 := HandOver(m3, b.payload, r, []).1;
    assert OnePass(m1, env, 4) == SentOne(m4);
    assert OnePass(m4, env, 6) == Stopped(m4);
    assert Drain(m, env, 2, 0) == Drain(m1, env, 4, 1) == Drain(m4, env, 6, 2) == m4;
  }

  lemma OvertakingIrqs(m: Messenger, c: Item<Message>, r: Reply)
    requires m.queue == [c] && r.hal == Ok
    ensures var m' := OnIrqs(m, [TxDone(r), TxDone(r)]);
            && m'.queue == [] && m'.tx.state == Ready && m'.tx.available
            && m'.sent == m.sent + [c.payload] && m'.left == m.left + [c]
            && m'.entered == m.entered && m'.accepted == m.accepted
  {
    var irqs := [TxDone(r), TxDone(r)];
    var m1 := OnIrq(m, irqs[0]);
    assert m1.queue == [] && m1.sent == m.sent + [c.payload];
    assert irqs[1..] == [TxDone(r)] && irqs[1..][1..] == [];
    var m2 := OnIrq(m1, irqs[1]);
    assert OnIrqs(m1, irqs[1..]) == OnIrqs(m2, []) == m2;
  }

  // ---------------------------------------------------------------- sending in order

  /** `a` is `b` with some elements left out. */
  ghost predicate Subsequence(a: seq<Message>, b: seq<Message>)
    decreases |b|
  {
    a == [] || (b != [] &&
      var x, y := a[..|a| - 1], b[..|b| - 1];
      (a[|a| - 1] == b[|b| - 1] && Subsequence(x, y)) || Subsequence(a, y))
  }

  lemma SubsequenceSkips(a: seq<Message>, b: seq<Message>, x: Message)
    requires Subsequence(a, b)
    ensures Subsequence(a, b + [x])
  {
    assert (b + [x])[..|b|] == b;
  }

  lemma SubsequenceGrows(a: seq<Message>, b: seq<Message>, x: Message)
    requires Subsequence(a, b)
    ensures Subsequence(a, b + [x]) && Subsequence(a + [x], b + [x])
  {
    assert (b + [x])[..|b|] == b && (a + [x])[..|a|] == a;
  }

  lemma {:induction false} PayloadsConcat(a: seq<Item<Message>>, b: seq<Item<Message>>)
    ensures Payloads(a + b) == Payloads(a) + Payloads(b)
  {
    if a == [] {
      assert a + b == b;
    } else {
      assert (a + b)[1..] == a[1..] + b;
      PayloadsConcat(a[1..], b);
    }
  }

  lemma {:induction false} SubsequenceOfMore(a: seq<Message>, b: seq<Message>, more: seq<Message>)
    requires Subsequence(a, b)
    ensures Subsequence(a, b + more)
    decreases |more|
  {
    if more == [] {
      assert b + more == b;
    } else {
      var init, last := more[..|more| - 1], more[|more| - 1];
      SubsequenceOfMore(a, b, init);
      SubsequenceSkips(a, b + init, last);
      assert b + more == (b + init) + [last];
    }
  }

  /** The frames sent are, in this order, among those that have left the queue. */
  ghost predicate SentAsTheyLeft(m: Messenger) {
    Subsequence(m.sent, Payloads(m.left))
  }

  /** Taking a frame and, some time later, sending it or not, with nothing else in between. */
  lemma TakenThenSent(m: Messenger, m': Messenger)
    requires SentAsTheyLeft(m) && m.queue != [] && m'.left == m.left + [m.queue[0]]
    requires m'.sent == m.sent || m'.sent == m.sent + [m.queue[0].payload]
    ensures SentAsTheyLeft(m')
  {
    PayloadsConcat(m.left, [m.queue[0]]);
    assert [m.queue[0]][1..] == [];
    SubsequenceGrows(m.sent, Payloads(m.left), m.queue[0].payload);
  }

  lemma InterruptKeepsOrder(m: Messenger, irq: Irq)
    requires SentAsTheyLeft(m)
    ensures SentAsTheyLeft(OnIrq(m, irq))
  {
    if irq.TxDone? && m.queue != [] {
      TakenThenSent(m, OnIrq(m, irq));
    }
  }

  lemma {:induction false} IrqsKeepOrder(m: Messenger, irqs: seq<Irq>)
    requires SentAsTheyLeft(m)
    ensures SentAsTheyLeft(OnIrqs(m, irqs))
    decreases |irqs|
  {
    if irqs != [] {
      InterruptKeepsOrder(m, irqs[0]);
      IrqsKeepOrder(OnIrq(m, irqs[0]), irqs[1..]);
    }
  }

  lemma {:induction false} ReceiveTouchesTransmitter(m: Messenger, irqs: seq<Irq>)
    requires NoTransmit(irqs)
    ensures OnIrqs(m, irqs) == m.(tx := OnIrqs(m, irqs).tx)
    decreases |irqs|
  {
    if irqs != [] {
      assert irqs[0] in irqs && forall irq :: irq in irqs[1..] ==> irq in irqs;
      ReceiveTouchesTransmitter(OnIrq(m, irqs[0]), irqs[1..]);
    }
  }

  lemma GiveBackKeepsOrder(m: Messenger, item: Item<Message>, s: Status, env: Env, k: nat)
    requires SentAsTheyLeft(m)
    ensures SentAsTheyLeft(GiveBack(m, item, s, env, k))
  {
    IrqsKeepOrder(m, env(k).irqs);
    IrqsKeepOrder(Push(OnIrqs(m, env(k).irqs), item), env(k + 1).irqs);
  }

  // What at most one completion can do while a frame is held.

  function Completions(irqs: seq<Irq>): nat {
    if irqs == [] then 0 else (if irqs[0].TxDone? then 1 else 0) + Completions(irqs[1..])
  }

  lemma {:induction false} NoCompletions(irqs: seq<Irq>)
    requires Completions(irqs) == 0
    ensures NoTransmit(irqs)
  {
    if irqs != [] {
      NoCompletions(irqs[1..]);
      assert forall irq :: irq in irqs ==> irq == irqs[0] || irq in irqs[1..];
    }
  }

  predicate Occupied(m: Messenger) {
    m.tx.state == BusyTx || m.tx.state == Faulted
  }

  lemma {:induction false} StaysOccupied(m: Messenger, irqs: seq<Irq>)
    requires NoTransmit(irqs) && Occupied(m)
    ensures Occupied(OnIrqs(m, irqs))
    decreases |irqs|
  {
    if irqs != [] {
      assert irqs[0] in irqs && forall irq :: irq in irqs[1..] ==> irq in irqs;
      StaysOccupied(OnIrq(m, irqs[0]), irqs[1..]);
    }
  }

  /** One completion either sends nothing, or leaves the transmitter occupied. */
  lemma {:induction false} OneCompletion(m: Messenger, irqs: seq<Irq>)
    requires Completions(irqs) <= 1
    ensures var m' := OnIrqs(m, irqs);
            m.left <= m'.left && (m'.sent == m.sent || Occupied(m'))
    decreases |irqs|
  {
    if irqs != [] {
      var m1 := OnIrq(m, irqs[0]);
      if irqs[0].TxDone? {
        NoCompletions(irqs[1..]);
        ReceiveTouchesTransmitter(m1, irqs[1..]);
        if m1.sent != m.sent {
          StaysOccupied(m1, irqs[1..]);
        }
      } else {
        OneCompletion(m1, irqs[1..]);
      }
    }
  }

  /** A held frame is sent after others have left the queue, but none of them has been sent. */
  lemma HeldThenSent(m: Messenger, held: Messenger)
    requires SentAsTheyLeft(m) && m.queue != [] && held.sent == m.sent
    requires m.left + [m.queue[0]] <= held.left
    ensures SentAsTheyLeft(Sending(held, m.queue[0].payload))
  {
    var first, more := m.left + [m.queue[0]], held.left[|m.left| + 1..];
    assert held.left == first + more;
    PayloadsConcat(first, more);
    PayloadsConcat(m.left, [m.queue[0]]);
    assert [m.queue[0]][1..] == [];
    SubsequenceGrows(m.sent, Payloads(m.left), m.queue[0].payload);
    SubsequenceOfMore(m.sent + [m.queue[0].payload], Payloads(first), Payloads(more));
  }

  lemma PassKeepsOrder(m: Messenger, env: Env, k: nat)
    requires SentAsTheyLeft(m) && Completions(env(k + 1).irqs) <= 1
    ensures SentAsTheyLeft(OnePass(m, env, k).m)
  {
    IrqsKeepOrder(m, env(k).irqs);
    var m0 := OnIrqs(m, env(k).irqs);
    if m0.queue != [] {
      var item := m0.queue[0];
      var held := OnIrqs(Pop(m0), env(k + 1).irqs);
      TakenThenSent(m0, Pop(m0));
      IrqsKeepOrder(Pop(m0), env(k + 1).irqs);
      OneCompletion(Pop(m0), env(k + 1).irqs);
      var (s, m1) := HandOver(held, item.payload, env(k + 1).reply, env(k + 1).inside);
      if Accepts(held.tx, env(k + 1).reply) {
        HeldThenSent(m0, held);
        IrqsKeepOrder(Sending(held, item.payload), env(k + 1).inside);
      }
      if s != Ok {
        GiveBackKeepsOrder(m1, item, s, env, k + 2);
      }
    }
  }

  /** At most `n` transmissions complete while the tick holds a frame it has not yet handed over. */
  ghost predicate HeldThrough(env: Env, n: nat) {
    Completions(env(3).irqs) <= n && Completions(env(5).irqs) <= n && Completions(env(7).irqs) <= n
  }

  ghost predicate Allowed(steps: seq<Step>, n: nat) {
    forall i :: 0 <= i < |steps| && steps[i].Ticks? ==> HeldThrough(steps[i].env, n)
  }

  lemma TickKeepsOrder(m: Messenger, env: Env)
    requires SentAsTheyLeft(m) && HeldThrough(env, 1)
    ensures SentAsTheyLeft(FromTick(m, env))
  {
    IrqsKeepOrder(m, env(0).irqs);
    var m0 := OnIrqs(m, env(0).irqs);
    if m0.tx.available {
      DrainKeepsOrder(m0, env, 0);
    } else {
      var m1 := m0.(tx := Recover(m0.tx, false, env(0).reply).1);
      IrqsKeepOrder(m1, env(1).irqs);
      DrainKeepsOrder(OnIrqs(m1, env(1).irqs), env, 0);
    }
  }

  lemma {:induction false} DrainKeepsOrder(m: Messenger, env: Env, n: nat)
    requires SentAsTheyLeft(m) && HeldThrough(env, 1) && n <= MAX_TICK_MESSAGES
    ensures SentAsTheyLeft(Drain(m, env, 2 + 2 * n, n))
    decreases MAX_TICK_MESSAGES - n
  {
    if n == MAX_TICK_MESSAGES {
      IrqsKeepOrder(m, env(2 + 2 * n).irqs);
    } else {
      assert n == 0 || n == 1 || n == 2;
      PassKeepsOrder(m, env, 2 + 2 * n);
      DrainStep(m, env, 2 + 2 * n, n);
      var pass := OnePass(m, env, 2 + 2 * n);
      if pass.SentOne? {
        DrainKeepsOrder(pass.m, env, n + 1);
      }
    }
  }

  lemma EnqueueKeepsOrder(m: Messenger, msg: Message, r: Reply)
    requires SentAsTheyLeft(m)
    ensures SentAsTheyLeft(Enqueue(m, msg, r).1)
  {
    PayloadsConcat(m.left, m.queue);
    SubsequenceOfMore(m.sent, Payloads(m.left), Payloads(m.queue));
  }

  lemma DirectSendKeepsOrder(m: Messenger, r: Reply, inside: seq<Irq>)
    requires SentAsTheyLeft(m)
    ensures SentAsTheyLeft(SendDirect(m, r, inside))
  {
    IrqsKeepOrder(if m.tx.available then m else m.(tx := Recover(m.tx, false, r).1), inside);
  }

  lemma StepKeepsOrder(m: Messenger, s: Step)
    requires SentAsTheyLeft(m) && (s.Ticks? ==> HeldThrough(s.env, 1))
    ensures SentAsTheyLeft(Do(m, s))
  {
    match s
    case Enqueues(msg, r) => EnqueueKeepsOrder(m, msg, r);
    case Ticks(env) => TickKeepsOrder(m, env);
    case Interrupts(irq) => InterruptKeepsOrder(m, irq);
    case DirectSends(r, inside) => DirectSendKeepsOrder(m, r, inside);
  }

  /** When at most one transmission completes while a tick holds a frame, frames are sent in the
      order in which they left the queue. */
  lemma {:induction false} SentInOrder(steps: seq<Step>)
    requires Allowed(steps, 1)
    ensures SentAsTheyLeft(Run(steps))
    decreases |steps|
  {
    if steps != [] {
      var n := |steps| - 1;
      SentInOrder(steps[..n]);
      StepKeepsOrder(Run(steps[..n]), steps[n]);
    }
  }

  // ---------------------------------------------------------------- the exact condition

  lemma {:induction false} SubsequenceLength(a: seq<Message>, b: seq<Message>)
    requires Subsequence(a, b)
    ensures |a| <= |b| && (|a| == |b| ==> a == b)
    decreases |b|
  {
    if a != [] {
      var x, y := a[..|a| - 1], b[..|b| - 1];
      assert a == x + [a[|a| - 1]] && b == y + [b[|b| - 1]];
      if a[|a| - 1] == b[|b| - 1] && Subsequence(x, y) {
        SubsequenceLength(x, y);
      } else {
        SubsequenceLength(a, y);
      }
    }
  }

  /** Frames are sent in the order in which they left the queue, in every run with at most `n`
      completions while a frame is held, if and only if `n` is at most one. */
  lemma SentInOrderIff(n: nat)
    ensures (forall steps :: Allowed(steps, n) ==> SentAsTheyLeft(Run(steps))) <==> n <= 1
  {
    if n <= 1 {
      forall steps | Allowed(steps, n) ensures SentAsTheyLeft(Run(steps)) {
        SentInOrder(steps);
      }
    } else {
      var steps := OvertakingRun();
      assert Allowed(steps, n);
    }
  }

  lemma OvertakingRun() returns (steps: seq<Step>)
    ensures Allowed(steps, 2) && !SentAsTheyLeft(Run(steps))
  {
    var r := Reply(Ok, false, 0);
    var two := [TxDone(r), TxDone(r)];
    var env: Env := k => Moment(if k == 5 then two else [], r, []);
    var a, b, c := Message(OtherKind, 0, [1], 0), Message(OtherKind, 0, [2], 0), Message(OtherKind, 0, [3], 0);
    HeldFrameIsOvertaken(a, b, c, env, r);
    steps := [Enqueues(a, r), Enqueues(b, r), Enqueues(c, r), Ticks(env)];
    assert two[1..] == [TxDone(r)] && two[1..][1..] == [];
    assert Completions(two[1..]) == 1 + Completions(two[1..][1..]);
    assert Completions(two) == 2;
    var m := Run(steps);
    assert b.data[0] != c.data[0] && m.sent[1] != Payloads(m.left)[1];
    if SentAsTheyLeft(m) {
      SubsequenceLength(m.sent, Payloads(m.left));
    }
  }
}
