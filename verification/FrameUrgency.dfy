/** How urgent the kinds of frames are, and that the most urgent frame is the next to be sent. */
module FrameUrgency {
  import opened Interface
  import opened CanTransmitter
  import opened PriorityOrder
  import opened MessengerSpec
  import opened MessengerRuns
  import opened MessengerProgress
  import opened ArrivalOrder

  predicate IsMetadata(k: Kind) {
    k == ControllerMetaData || k == BluelinkVersion
  }

  /** Programming commands go before metadata, metadata before the reverser's telemetry, that before
      its analog channels, and those before everything else. */
  ghost predicate ByUrgency(q: seq<Item<Message>>) {
    forall i, j :: 0 <= i < |q| && 0 <= j < |q| ==>
      var a, b := q[i].payload.kind, q[j].payload.kind;
      && (a == ProgrammingCommand && b != ProgrammingCommand ==> i < j)
      && (IsMetadata(a) && (b == ReverserTelemetry || b == ReverserAnalogTelemetry || b == OtherKind) ==> i < j)
      && (a == ReverserTelemetry && (b == ReverserAnalogTelemetry || b == OtherKind) ==> i < j)
      && (a == ReverserAnalogTelemetry && b == OtherKind ==> i < j)
  }

  lemma OwnPrioritiesAreByUrgency(q: seq<Item<Message>>)
    requires OwnPriorities(q) && Sorted(q)
    ensures ByUrgency(q)
  {
  }

  /** As long as nothing has been put back, every queued frame has the priority of its kind. */
  lemma QueuedWithOwnPriorities(m: Messenger)
    requires InSequence(m) && m.entered == ArrivalOrder.Fresh(m.accepted)
    ensures OwnPriorities(m.queue)
  {
    forall i | 0 <= i < |m.queue| ensures m.queue[i].priority == TxPriority(m.queue[i].payload.kind) {
      var p := m.queue[i].priority;
      MemberOfPriority(m.queue, i);
      FreshOfKind(m.accepted, p);
      OfKindMembers(m.accepted, p);
      assert m.queue[i].payload in OfPriority(m.entered, p);
    }
  }

  lemma UrgentFramesFirst(steps: seq<Step>)
    requires |Run(steps).entered| == |Run(steps).accepted|
    ensures ByUrgency(Run(steps).queue)
  {
    var m := Run(steps);
    RunsAreTraced(steps);
    RunsConserve(steps);
    Opened(m, NOTHING);
    InOrderIsSorted(m.queue);
    QueuedWithOwnPriorities(m);
    OwnPrioritiesAreByUrgency(m.queue);
  }

  // ---------------------------------------------------------------- the same urgency

  /** The frames of some kinds, in order. */
  function OfKinds(msgs: seq<Message>, kinds: set<Kind>): seq<Message> {
    if msgs == [] then []
    else (if msgs[0].kind in kinds then [msgs[0]] else []) + OfKinds(msgs[1..], kinds)
  }

  /** Kinds of one urgency. */
  predicate SameUrgency(kinds: set<Kind>) {
    || kinds == {ProgrammingCommand} || kinds == {ControllerMetaData, BluelinkVersion}
    || kinds == {ReverserTelemetry} || kinds == {ReverserAnalogTelemetry} || kinds == {OtherKind}
  }

  lemma {:induction false} OfKindsIsOfKind(msgs: seq<Message>, kinds: set<Kind>, p: nat)
    requires forall k: Kind :: k in kinds <==> TxPriority(k) == p
    ensures OfKinds(msgs, kinds) == OfKind(msgs, p)
  {
    if msgs != [] {
      OfKindsIsOfKind(msgs[1..], kinds, p);
    }
  }

  lemma PriorityOfKinds(kinds: set<Kind>) returns (p: nat)
    requires SameUrgency(kinds)
    ensures forall k: Kind :: k in kinds <==> TxPriority(k) == p
  {
    p := if kinds == {ProgrammingCommand} then 0
         else if kinds == {ControllerMetaData, BluelinkVersion} then 1
         else if kinds == {ReverserTelemetry} then 2
         else if kinds == {ReverserAnalogTelemetry} then 3 else 4;
  }

  /** Frames of the same urgency leave the queue in the order in which they were accepted, metadata
      and version frames as one class, as long as nothing is put back. */
  lemma SameUrgencyInArrivalOrder(steps: seq<Step>, kinds: set<Kind>)
    requires |Run(steps).entered| == |Run(steps).accepted| && SameUrgency(kinds)
    ensures var m := Run(steps);
            OfKinds(m.accepted, kinds) == OfKinds(Payloads(m.left), kinds) + OfKinds(Payloads(m.queue), kinds)
  {
    var m := Run(steps);
    var p := PriorityOfKinds(kinds);
    RunsAreTraced(steps);
    RunsConserve(steps);
    Opened(m, NOTHING);
    QueuedWithOwnPriorities(m);
    LeftWithOwnPriorities(m);
    FreshOfKind(m.accepted, p);
    PayloadsOfKind(m.left, p);
    PayloadsOfKind(m.queue, p);
    OfKindsIsOfKind(m.accepted, kinds, p);
    OfKindsIsOfKind(Payloads(m.left), kinds, p);
    OfKindsIsOfKind(Payloads(m.queue), kinds, p);
  }

  // ---------------------------------------------------------------- what is sent next

  /** After a completed transmission the head of the queue is the next frame the hardware takes. */
  lemma InterruptSendsHead(m: Messenger, r: Reply)
    requires m.queue != [] && r.hal == Ok
    ensures var m' := OnIrq(m, TxDone(r));
            m'.sent == m.sent + [m.queue[0].payload] && m'.queue == m.queue[1..]
  {
  }

  lemma {:induction false} SentOnlyGrowsInIrqs(m: Messenger, irqs: seq<Irq>)
    ensures m.sent <= OnIrqs(m, irqs).sent
    decreases |irqs|
  {
    if irqs != [] {
      SentOnlyGrowsInIrqs(OnIrq(m, irqs[0]), irqs[1..]);
    }
  }

  lemma {:induction false} SentOnlyGrows(m: Messenger, env: Env, k: nat, n: nat)
    requires n <= MAX_TICK_MESSAGES
    ensures m.sent <= Drain(m, env, k, n).sent
    decreases MAX_TICK_MESSAGES - n
  {
    if n == MAX_TICK_MESSAGES {
      SentOnlyGrowsInIrqs(m, env(k).irqs);
    } else {
      PassOnlySends(m, env, k);
      DrainStep(m, env, k, n);
      var pass := OnePass(m, env, k);
      if pass.SentOne? {
        SentOnlyGrows(pass.m, env, k + 2, n + 1);
      }
    }
  }

  lemma PassOnlySends(m: Messenger, env: Env, k: nat)
    ensures m.sent <= OnePass(m, env, k).m.sent
  {
    SentOnlyGrowsInIrqs(m, env(k).irqs);
    var m0 := OnIrqs(m, env(k).irqs);
    if m0.queue != [] {
      var item, at := m0.queue[0], env(k + 1);
      var held := OnIrqs(Pop(m0), at.irqs);
      SentOnlyGrowsInIrqs(Pop(m0), at.irqs);
      SentOnlyGrowsInIrqs(Sending(held, item.payload), at.inside);
      var (s, m1) := HandOver(held, item.payload, at.reply, at.inside);
      if s != Ok {
        var m2 := OnIrqs(m1, env(k + 2).irqs);
        SentOnlyGrowsInIrqs(m1, env(k + 2).irqs);
        SentOnlyGrowsInIrqs(Push(m2, item), env(k + 3).irqs);
      }
    }
  }

  /** A tick that finds the flag up and is not interrupted before its first hand-over sends the
      head of the queue first. */
  lemma TickSendsHead(m: Messenger, env: Env)
    requires m.queue != [] && m.tx.available && Coherent(m.tx) && m.tx.state != Faulted
    requires BeforeSend(env) == [] && env(3).reply.hal == Ok
    ensures m.sent + [m.queue[0].payload] <= FromTick(m, env).sent
  {
    assert env(0).irqs == env(2).irqs == env(3).irqs == [];
    var held := Pop(m);
    SentOnlyGrowsInIrqs(Sending(held, m.queue[0].payload), env(3).inside);
    var m1 := HandOver(held, m.queue[0].payload, env(3).reply, env(3).inside).1;
    assert OnePass(m, env, 2) == SentOne(m1);
    DrainStep(m, env, 2, 0);
    SentOnlyGrows(m1, env, 4, 1);
  }

  /** So the next frame sent is a most urgent one: no queued frame is of a more urgent kind. */
  lemma MostUrgentIsSentNext(steps: seq<Step>, r: Reply)
    requires |Run(steps).entered| == |Run(steps).accepted| && Run(steps).queue != [] && r.hal == Ok
    ensures var m, m' := Run(steps), OnIrq(Run(steps), TxDone(r));
            && |m'.sent| == |m.sent| + 1
            && var k := m'.sent[|m.sent|].kind;
            forall x :: x in Payloads(m'.queue) ==>
              && (x.kind == ProgrammingCommand ==> k == ProgrammingCommand)
              && (IsMetadata(x.kind) ==> k == ProgrammingCommand || IsMetadata(k))
              && (x.kind == ReverserTelemetry ==> k != ReverserAnalogTelemetry && k != OtherKind)
              && (x.kind == ReverserAnalogTelemetry ==> k != OtherKind)
  {
    var m := Run(steps);
    UrgentFramesFirst(steps);
    InterruptSendsHead(m, r);
    forall x | x in Payloads(m.queue[1..]) ensures exists j :: 1 <= j < |m.queue| && m.queue[j].payload == x {
      var j := PayloadIsQueued(m.queue[1..], x);
      assert m.queue[j + 1] == m.queue[1..][j];
    }
  }

  lemma {:induction false} PayloadIsQueued(q: seq<Item<Message>>, x: Message) returns (j: nat)
    requires x in Payloads(q)
    ensures j < |q| && q[j].payload == x
  {
    if q[0].payload == x {
      j := 0;
    } else {
      var i := PayloadIsQueued(q[1..], x);
      j := i + 1;
    }
  }
}
