/** From end to end: frames of one priority are sent in the order in which callers enqueued them. */
module ArrivalOrder {
  import opened Concatenation
  import opened Interface
  import opened CanTransmitter
  import opened PriorityOrder
  import opened MessengerSpec
  import opened MessengerRuns
  import opened MessengerOrder

  /** The frames whose kind has priority `p`. */
  function OfKind(msgs: seq<Message>, p: nat): seq<Message> {
    if msgs == [] then [] else IfOfKind(msgs[0], p) + OfKind(msgs[1..], p)
  }

  function IfOfKind(x: Message, p: nat): seq<Message> {
    if TxPriority(x.kind) == p then [x] else []
  }

  lemma {:induction false} OfKindConcat(a: seq<Message>, b: seq<Message>, p: nat)
    ensures OfKind(a + b, p) == OfKind(a, p) + OfKind(b, p)
  {
    if a == [] {
      assert a + b == b;
    } else {
      var first, rest := a[0], a[1..];
      OfKindConcat(rest, b, p);
      assert (a + b)[0] == first && (a + b)[1..] == rest + b;
      Regroup(IfOfKind(first, p), OfKind(rest, p), OfKind(b, p));
    }
  }

  lemma OfKindLast(a: seq<Message>, x: Message, p: nat)
    ensures OfKind(a + [x], p) == if TxPriority(x.kind) == p then OfKind(a, p) + [x] else OfKind(a, p)
  {
    OfKindConcat(a, [x], p);
    assert [x][1..] == [];
    assert OfKind([x], p) == IfOfKind(x, p);
  }

  lemma {:induction false} OfKindMembers(msgs: seq<Message>, p: nat)
    ensures forall x :: x in OfKind(msgs, p) ==> TxPriority(x.kind) == p
  {
    if msgs != [] {
      OfKindMembers(msgs[1..], p);
    }
  }

  /** Leaving out the other kinds on both sides. */
  lemma {:induction false} SubsequenceOfKind(a: seq<Message>, b: seq<Message>, p: nat)
    requires Subsequence(a, b)
    ensures Subsequence(OfKind(a, p), OfKind(b, p))
    decreases |b|
  {
    if a != [] {
      var x, y, last := a[..|a| - 1], b[..|b| - 1], b[|b| - 1];
      assert a == x + [a[|a| - 1]] && b == y + [last];
      if a[|a| - 1] == last && Subsequence(x, y) {
        SubsequenceOfKind(x, y, p);
        BothOfKind(x, y, last, p);
      } else {
        SubsequenceOfKind(a, y, p);
        OneOfKind(OfKind(a, p), y, last, p);
      }
    }
  }

  lemma BothOfKind(x: seq<Message>, y: seq<Message>, last: Message, p: nat)
    requires Subsequence(OfKind(x, p), OfKind(y, p))
    ensures Subsequence(OfKind(x + [last], p), OfKind(y + [last], p))
  {
    OfKindLast(x, last, p);
    OfKindLast(y, last, p);
    SubsequenceGrows(OfKind(x, p), OfKind(y, p), last);
  }

  lemma OneOfKind(some: seq<Message>, y: seq<Message>, last: Message, p: nat)
    requires Subsequence(some, OfKind(y, p))
    ensures Subsequence(some, OfKind(y + [last], p))
  {
    OfKindLast(y, last, p);
    SubsequenceSkips(some, OfKind(y, p), last);
  }

  // ---------------------------------------------------------------- entering once

  /** Nothing is accepted, and what enters the queue is added to what entered before. */
  ghost predicate OnlyPutsBack(m: Messenger, m': Messenger) {
    m'.accepted == m.accepted && m.entered <= m'.entered
  }

  lemma {:induction false} IrqsOnlyPutBack(m: Messenger, irqs: seq<Irq>)
    ensures OnlyPutsBack(m, OnIrqs(m, irqs))
    decreases |irqs|
  {
    if irqs != [] {
      IrqsOnlyPutBack(OnIrq(m, irqs[0]), irqs[1..]);
    }
  }

  lemma HandOverOnlyPutsBack(m: Messenger, msg: Message, r: Reply, inside: seq<Irq>)
    ensures OnlyPutsBack(m, HandOver(m, msg, r, inside).1)
  {
    IrqsOnlyPutBack(Sending(m, msg), inside);
  }

  lemma GiveBackOnlyPutsBack(m: Messenger, item: Item<Message>, s: Status, env: Env, k: nat)
    ensures OnlyPutsBack(m, GiveBack(m, item, s, env, k))
  {
    IrqsOnlyPutBack(m, env(k).irqs);
    IrqsOnlyPutBack(Push(OnIrqs(m, env(k).irqs), item), env(k + 1).irqs);
  }

  lemma PassOnlyPutsBack(m: Messenger, env: Env, k: nat)
    ensures OnlyPutsBack(m, OnePass(m, env, k).m)
  {
    IrqsOnlyPutBack(m, env(k).irqs);
    var m0 := OnIrqs(m, env(k).irqs);
    if m0.queue != [] {
      var item := m0.queue[0];
      IrqsOnlyPutBack(Pop(m0), env(k + 1).irqs);
      var held := OnIrqs(Pop(m0), env(k + 1).irqs);
      HandOverOnlyPutsBack(held, item.payload, env(k + 1).reply, env(k + 1).inside);
      var (s, m1) := HandOver(held, item.payload, env(k + 1).reply, env(k + 1).inside);
      if s != Ok {
        GiveBackOnlyPutsBack(m1, item, s, env, k + 2);
      }
    }
  }

  lemma {:induction false} DrainOnlyPutsBack(m: Messenger, env: Env, k: nat, n: nat)
    requires n <= MAX_TICK_MESSAGES
    ensures OnlyPutsBack(m, Drain(m, env, k, n))
    decreases MAX_TICK_MESSAGES - n
  {
    if n == MAX_TICK_MESSAGES {
      IrqsOnlyPutBack(m, env(k).irqs);
    } else {
      PassOnlyPutsBack(m, env, k);
      DrainStep(m, env, k, n);
      var pass := OnePass(m, env, k);
      if pass.SentOne? {
        DrainOnlyPutsBack(pass.m, env, k + 2, n + 1);
      }
    }
  }

  lemma TickOnlyPutsBack(m: Messenger, env: Env)
    ensures OnlyPutsBack(m, FromTick(m, env))
  {
    IrqsOnlyPutBack(m, env(0).irqs);
    var m0 := OnIrqs(m, env(0).irqs);
    var m1 := m0.(tx := Recover(m0.tx, false, env(0).reply).1);
    IrqsOnlyPutBack(m1, env(1).irqs);
    DrainOnlyPutsBack(m0, env, 2, 0);
    DrainOnlyPutsBack(OnIrqs(m1, env(1).irqs), env, 2, 0);
  }

  function Fresh(msgs: seq<Message>): (q: seq<Item<Message>>)
    ensures |q| == |msgs|
  {
    seq(|msgs|, i requires 0 <= i < |msgs| => Item(TxPriority(msgs[i].kind), msgs[i]))
  }

  /** As long as nothing has been put back, what entered the queue is what was accepted. */
  ghost predicate Traced(m: Messenger) {
    && |m.entered| >= |m.accepted|
    && (|m.entered| == |m.accepted| ==> m.entered == Fresh(m.accepted))
  }

  lemma PuttingBackIsTraced(m: Messenger, m': Messenger)
    requires Traced(m) && OnlyPutsBack(m, m')
    ensures Traced(m')
  {
  }

  lemma EnqueueIsTraced(m: Messenger, msg: Message, r: Reply)
    requires Traced(m)
    ensures Traced(Enqueue(m, msg, r).1)
  {
    assert Fresh(m.accepted + [msg]) == Fresh(m.accepted) + [Item(TxPriority(msg.kind), msg)];
  }

  lemma {:induction false} RunsAreTraced(steps: seq<Step>)
    ensures Traced(Run(steps))
    decreases |steps|
  {
    if steps != [] {
      var m, s := Run(steps[..|steps| - 1]), steps[|steps| - 1];
      RunsAreTraced(steps[..|steps| - 1]);
      match s
      case Enqueues(msg, r) => EnqueueIsTraced(m, msg, r);
      case Ticks(env) => TickOnlyPutsBack(m, env);
      case Interrupts(irq) =>
        IrqsOnlyPutBack(m, [irq]);
        assert OnIrqs(m, [irq]) == OnIrq(m, irq);
      case DirectSends(r, inside) =>
        IrqsOnlyPutBack(if m.tx.available then m else m.(tx := Recover(m.tx, false, r).1), inside);
    }
  }

  // ---------------------------------------------------------------- arriving and leaving

  lemma {:induction false} FreshOfKind(msgs: seq<Message>, p: nat)
    ensures OfPriority(Fresh(msgs), p) == OfKind(msgs, p)
  {
    if msgs != [] {
      assert Fresh(msgs)[1..] == Fresh(msgs[1..]);
      FreshOfKind(msgs[1..], p);
    }
  }

  ghost predicate OwnPriorities(q: seq<Item<Message>>) {
    forall i :: 0 <= i < |q| ==> q[i].priority == TxPriority(q[i].payload.kind)
  }

  lemma {:induction false} MemberOfPriority(q: seq<Item<Message>>, i: nat)
    requires i < |q|
    ensures q[i].payload in OfPriority(q, q[i].priority)
  {
    if i > 0 {
      MemberOfPriority(q[1..], i - 1);
    }
  }

  lemma {:induction false} PayloadsOfKind(q: seq<Item<Message>>, p: nat)
    requires OwnPriorities(q)
    ensures OfKind(Payloads(q), p) == OfPriority(q, p)
  {
    if q != [] {
      PayloadsOfKind(q[1..], p);
      assert Payloads(q)[1..] == Payloads(q[1..]);
    }
  }

  lemma LeftWithOwnPriorities(m: Messenger)
    requires InSequence(m) && m.entered == Fresh(m.accepted)
    ensures OwnPriorities(m.left)
  {
    forall i | 0 <= i < |m.left| ensures m.left[i].priority == TxPriority(m.left[i].payload.kind) {
      var p := m.left[i].priority;
      MemberOfPriority(m.left, i);
      FreshOfKind(m.accepted, p);
      OfKindMembers(m.accepted, p);
      assert m.left[i].payload in OfPriority(m.entered, p);
    }
  }

  /** In a run in which nothing is put back, and at most one transmission completes while a tick
      holds a frame, the frames of one priority are sent in the order in which they were
      accepted. */
  lemma SentInArrivalOrder(steps: seq<Step>, p: nat)
    requires Allowed(steps, 1) && |Run(steps).entered| == |Run(steps).accepted|
    ensures Subsequence(OfKind(Run(steps).sent, p), OfKind(Run(steps).accepted, p))
  {
    var m := Run(steps);
    SentInOrder(steps);
    RunsAreTraced(steps);
    RunsConserve(steps);
    Opened(m, NOTHING);
    LeftWithOwnPriorities(m);
    SubsequenceOfKind(m.sent, Payloads(m.left), p);
    PayloadsOfKind(m.left, p);
    FreshOfKind(m.accepted, p);
    SubsequenceOfMore(OfKind(m.sent, p), OfPriority(m.left, p), OfPriority(m.queue, p));
  }
}
