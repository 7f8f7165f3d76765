/** The messenger object: the transmit queue is a priority ring of 32 slots whose shifts
    wrap (see `Ring.wraps`), and the transmitter is the CAN driver. */
module CanMessenger {
  import opened Guards
  import opened Interface
  import opened CanTransmitter
  import opened PriorityOrder
  import opened PriorityRing
  import opened MessengerSpec

  /** An interrupt takes a frame out before it puts one back. */
  lemma {:induction false} IrqsNeverGrow(m: Messenger, irqs: seq<Irq>)
    ensures |OnIrqs(m, irqs).queue| <= |m.queue|
    decreases |irqs|
  {
    if irqs != [] {
      IrqsNeverGrow(OnIrq(m, irqs[0]), irqs[1..]);
    }
  }

  /** `goal` is what the loop still has to reach. `Open(j)` is always true; it keeps the
      definition closed in the loop itself. */
  ghost predicate Leads(m: Messenger, env: Env, k: nat, n: nat, goal: Messenger)
    requires n <= MAX_TICK_MESSAGES
    decreases MAX_TICK_MESSAGES - n, m.attempts
  {
    forall j: nat :: Open(j) ==>
      if n == MAX_TICK_MESSAGES then goal == OnIrqs(m, env(k).irqs)
      else
        var pass := OnePass(m, env, k);
        if pass.SentOne? then Leads(pass.m, env, k + 2, n + 1, goal) else goal == pass.m
  }

  lemma {:induction false} LeadsToDrain(m: Messenger, env: Env, k: nat, n: nat)
    requires n <= MAX_TICK_MESSAGES
    ensures Leads(m, env, k, n, Drain(m, env, k, n))
    decreases MAX_TICK_MESSAGES - n
  {
    if n < MAX_TICK_MESSAGES {
      var pass := OnePass(m, env, k);
      if pass.SentOne? {
        LeadsToDrain(pass.m, env, k + 2, n + 1);
      }
    }
  }

  lemma LeadsOn(m: Messenger, env: Env, k: nat, n: nat, goal: Messenger)
    requires n < MAX_TICK_MESSAGES && Leads(m, env, k, n, goal)
    ensures var pass := OnePass(m, env, k);
            if pass.SentOne? then Leads(pass.m, env, k + 2, n + 1, goal) else goal == pass.m
  {
    assert Open(0);
  }

  lemma LeadsHome(m: Messenger, env: Env, k: nat, goal: Messenger)
    requires Leads(m, env, k, MAX_TICK_MESSAGES, goal)
    ensures goal == OnIrqs(m, env(k).irqs)
  {
    assert Open(0);
  }

  class CanMessengerObject {
    const ring: Ring<Message>
    const comm: CommCan
    ghost var accepted: seq<Message>
    ghost var sent: seq<Message>
    ghost var discarded: seq<Message>
    ghost var entered: seq<Item<Message>>
    ghost var left: seq<Item<Message>>
    ghost var attempts: nat

    constructor (comm: CommCan)
      requires comm.Fields() == STARTED
      ensures Valid() && Fields() == POWER_ON && this.comm == comm && fresh(ring) && fresh(ring.buf)
    {
      ring := new Ring<Message>(TX_QUEUE_SIZE, true);
      this.comm := comm;
      accepted, sent, discarded, entered, left, attempts := [], [], [], [], [], 0;
    }

    ghost predicate Valid()
      reads this, ring, ring.buf
    {
      ring.Valid() && ring.wraps && ring.buf.Length == TX_QUEUE_SIZE && Sorted(ring.Contents())
    }

    ghost function Fields(): Messenger
      requires Valid()
      reads this, ring, ring.buf, comm
    {
      Messenger(ring.Contents(), comm.Fields(), accepted, sent, discarded, entered, left, attempts)
    }

    method Insert(item: Item<Message>)
      requires Valid() && |Fields().queue| < TX_QUEUE_SIZE
      modifies this, ring, ring.buf
      ensures Valid() && Fields() == Push(old(Fields()), item)
    {
      InsertionIsStable(ring.Contents(), item);
      var _ := ring.InsertWithPriority(item);
      entered := entered + [item];
    }

    method Take() returns (found: bool, item: Item<Message>)
      requires Valid()
      modifies this, ring, ring.buf
      ensures Valid() && (found <==> old(Fields()).queue != [])
      ensures if found then item == old(Fields()).queue[0] && Fields() == Pop(old(Fields()))
              else Fields() == old(Fields())
    {
      ghost var q := ring.Contents();
      found, item := ring.Dequeue();
      if found {
        ghost var b: nat :| IsBest(q, b) && item == q[b] && ring.Contents() == Without(q, b);
        SortedPop(q, b);
        left := left + [item];
      }
    }

    /** `sendQueuedMessage` as an interrupt calls it. */
    method SendFromInterrupt(msg: Message, r: Reply) returns (s: Status)
      requires Valid()
      modifies this, comm
      ensures Valid() && (s, Fields()) == SendFrame(old(Fields()), msg, r)
    {
      attempts := attempts + if ReachesHardware(comm.Fields()) then 1 else 0;
      s := comm.StartTransmitInterrupt(r);
      sent := if s == Ok then sent + [msg] else sent;
    }

    /** And as the tick calls it: with interrupts inside the driver's call. */
    method SendQueuedMessage(msg: Message, r: Reply, inside: seq<Irq>) returns (s: Status)
      requires Valid()
      modifies this, ring, ring.buf, comm
      ensures Valid() && (s, Fields()) == HandOver(old(Fields()), msg, r, inside)
    {
      attempts := attempts + if ReachesHardware(comm.Fields()) then 1 else 0;
      s := comm.OfferFrame(r);
      if s != Ok {
        return;
      }
      sent := sent + [msg];
      HandleIrqs(inside);
      comm.RecordTaken(r.now);
    }

    method ForceRecovery(r: Reply)
      requires Valid()
      modifies comm
      ensures Valid() && Fields() == ForceRecover(old(Fields()), r)
    {
      var _ := comm.RecoverStuckTransmit(true, r);
    }

    method ProcessQueueFromInterrupt(r: Reply)
      requires Valid()
      modifies this, ring, ring.buf, comm
      ensures Valid() && Fields() == FromInterrupt(old(Fields()), r)
    {
      var found, item := Take();
      if !found {
        return;
      }
      var s := SendFromInterrupt(item.payload, r);
      if s == Busy {
        Insert(item);
      } else if s != Ok {
        Insert(item);
        ForceRecovery(r);
      }
    }

    method HandleIrq(irq: Irq)
      requires Valid()
      modifies this, ring, ring.buf, comm
      ensures Valid() && Fields() == OnIrq(old(Fields()), irq)
    {
      match irq
      case TxDone(r) =>
        comm.SetTransmitComplete();
        ProcessQueueFromInterrupt(r);
      case RxSucceeds => comm.ResetErrorCount();
      case RxFails => comm.HandleCanError();
    }

    /** The interrupts that arrive at one point of the tick. */
    method HandleIrqs(irqs: seq<Irq>)
      requires Valid()
      modifies this, ring, ring.buf, comm
      ensures Valid() && Fields() == OnIrqs(old(Fields()), irqs)
    {
      ghost var goal := OnIrqs(Fields(), irqs);
      var i := 0;
      while i < |irqs|
        invariant 0 <= i <= |irqs| && Valid() && goal == OnIrqs(Fields(), irqs[i..])
      {
        HandleIrq(irqs[i]);
        assert irqs[i..][1..] == irqs[i + 1..];
        i := i + 1;
      }
    }

    /** The answer and the new state of `Enqueue`; see there for frames that overrun. */
    method EnqueueTxMessage(msg: Message, r: Reply) returns (admission: Admission)
      requires Valid()
      modifies this, ring, ring.buf, comm
      ensures Valid() && (admission, Fields()) == Enqueue(old(Fields()), msg, r)
    {
      if |msg.data| == 0 || |msg.data| > MAX_LENGTH {
        return Refused;
      }
      if |msg.data| > ITEM_BYTES {
        return Overruns;
      }
      if ring.count >= TX_QUEUE_SIZE {
        discarded := discarded + Payloads(ring.Contents());
        left := left + ring.Contents();
        ring.Clear();
        ForceRecovery(r);
      }
      accepted := accepted + [msg];
      Insert(Item(TxPriority(msg.kind), msg));
      admission := Accepted;
    }

    method ProcessQueueFromTick(env: Env)
      requires Valid()
      modifies this, ring, ring.buf, comm
      ensures Valid() && Fields() == FromTick(old(Fields()), env)
    {
      HandleIrqs(env(0).irqs);
      if !comm.available {
        var _ := comm.RecoverStuckTransmit(false, env(0).reply);
        HandleIrqs(env(1).irqs);
        if !comm.available {
          return;
        }
      }
      DrainQueue(env);
    }

    method DrainQueue(env: Env)
      requires Valid()
      modifies this, ring, ring.buf, comm
      ensures Valid() && Fields() == Drain(old(Fields()), env, 2, 0)
    {
      ghost var goal := Drain(Fields(), env, 2, 0);
      LeadsToDrain(Fields(), env, 2, 0);
      var processed: nat, k: nat := 0, 2;
      while processed < MAX_TICK_MESSAGES
        invariant processed <= MAX_TICK_MESSAGES && Valid()
        invariant Leads(Fields(), env, k, processed, goal)
      {
        LeadsOn(Fields(), env, k, processed, goal);
        var more := ProcessOne(env, k);
        if !more {
          return;
        }
        processed, k := processed + 1, k + 2;
      }
      LeadsHome(Fields(), env, k, goal);
      HandleIrqs(env(k).irqs);
    }

    /** One pass of the loop: whether a frame was sent. */
    method ProcessOne(env: Env, k: nat) returns (more: bool)
      requires Valid()
      modifies this, ring, ring.buf, comm
      ensures Valid()
      ensures OnePass(old(Fields()), env, k) == if more then SentOne(Fields()) else Stopped(Fields())
    {
      HandleIrqs(env(k).irqs);
      var found, item := Take();
      if !found {
        return false;
      }
      ghost var popped := Fields();
      HandleIrqs(env(k + 1).irqs);
      IrqsNeverGrow(popped, env(k + 1).irqs);
      var s := SendQueuedMessage(item.payload, env(k + 1).reply, env(k + 1).inside);
      if s == Ok {
        return true;
      }
      GiveItemBack(item, s, env, k + 2);
      more := false;
    }

    method GiveItemBack(item: Item<Message>, s: Status, env: Env, k: nat)
      requires Valid() && |Fields().queue| < TX_QUEUE_SIZE
      modifies this, ring, ring.buf, comm
      ensures Valid() && Fields() == GiveBack(old(Fields()), item, s, env, k)
    {
      IrqsNeverGrow(Fields(), env(k).irqs);
      HandleIrqs(env(k).irqs);
      if s == Busy {
        Insert(Item(RetryPriority(item.priority), item.payload));
      } else {
        Insert(item);
        HandleIrqs(env(k + 1).irqs);
        ForceRecovery(env(k + 1).reply);
      }
    }
  }
}
