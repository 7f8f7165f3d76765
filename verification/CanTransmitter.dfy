/** The transmit side of the CAN driver: when a frame may be handed to the hardware, what
    an interrupt, an error or a timeout changes, and when it recovers. */
module CanTransmitter {
  import opened Bytes
  import opened Interface

  const TX_TIMEOUT := 100
  const MAX_CONSECUTIVE_ERRORS := 10

  datatype CanState = InitState | Ready | BusyTx | Faulted

  /** `available` is the shared transmit flag. */
  datatype Transmitter = Transmitter(state: CanState, available: bool, errors: nat, started: uint32)

  /** One answer of the hardware driver, and the clock when it was asked. */
  datatype Reply = Reply(hal: Status, fifoFull: bool, now: uint32)

  function Succeed(t: Transmitter): Transmitter {
    t.(errors := 0)
  }

  function Fail(t: Transmitter): Transmitter {
    var e := if t.errors < MAX_CONSECUTIVE_ERRORS then t.errors + 1 else t.errors;
    t.(errors := e, state := if e >= MAX_CONSECUTIVE_ERRORS then Faulted else t.state)
  }

  function ReachesHardware(t: Transmitter): bool {
    t.state == Ready || t.state == InitState
  }

  function StartTransmit(t: Transmitter, r: Reply): (Status, Transmitter) {
    if t.state == Faulted then (Error, t)
    else if t.state == BusyTx then (Busy, t)
    else if r.hal == Ok then (Ok, Taken(r.now))
    else if r.fifoFull then (Busy, t)
    else (r.hal, Fail(t))
  }

  /** The driver is asked and takes the frame; what it does to its own fields comes after. */
  predicate Accepts(t: Transmitter, r: Reply) {
    ReachesHardware(t) && r.hal == Ok
  }

  /** The fields once a frame that was taken at `now` is recorded. */
  function Taken(now: uint32): Transmitter {
    Transmitter(BusyTx, false, 0, now)
  }

  predicate TimedOut(t: Transmitter, now: uint32) {
    t.state == BusyTx && (now - t.started) % TWO_32 >= TX_TIMEOUT
  }

  function Abort(t: Transmitter, hal: Status): Transmitter {
    if hal == Ok then Succeed(t) else Fail(t)
  }

  function Recover(t: Transmitter, force: bool, r: Reply): (bool, Transmitter) {
    if !force && !TimedOut(t, r.now) && t.state != Faulted then (false, t)
    else (true, Abort(t, r.hal).(state := Ready, errors := 0, available := true))
  }

  function Complete(t: Transmitter): Transmitter {
    t.(state := Ready, available := true)
  }

  /** Starting the peripheral and then raising the flag, as the constructor's caller does. */
  const STARTED := Transmitter(Ready, true, 0, 0)

  /** The state and the flag agree. */
  predicate Coherent(t: Transmitter) {
    && t.state != InitState && t.errors <= MAX_CONSECUTIVE_ERRORS
    && (t.state == BusyTx ==> !t.available)
    && (!t.available ==> t.state == BusyTx || t.state == Faulted)
  }

  datatype TxEvent =
    | Sends(reply: Reply)
    | Recovers(force: bool, reply: Reply)
    | Completes
    | DriverSucceeds
    | DriverFails

  function On(t: Transmitter, e: TxEvent): Transmitter {
    match e
    case Sends(r) => StartTransmit(t, r).1
    case Recovers(force, r) => Recover(t, force, r).1
    case Completes => Complete(t)
    case DriverSucceeds => Succeed(t)
    case DriverFails => Fail(t)
  }

  /** A transmitter with the number of failures since its error count was last reset. */
  datatype Watched = Watched(t: Transmitter, failures: nat)

  /** Whether an event is a failure that is not followed by a reset within the event. */
  predicate IsFailure(t: Transmitter, e: TxEvent) {
    e.DriverFails? || (e.Sends? && ReachesHardware(t) && e.reply.hal != Ok && !e.reply.fifoFull)
  }

  predicate IsReset(t: Transmitter, e: TxEvent) {
    || e.DriverSucceeds?
    || (e.Sends? && ReachesHardware(t) && e.reply.hal == Ok)
    || (e.Recovers? && Recover(t, e.force, e.reply).0)
  }

  function Watch(w: Watched, e: TxEvent): Watched {
    Watched(On(w.t, e), if IsFailure(w.t, e) then w.failures + 1 else if IsReset(w.t, e) then 0 else w.failures)
  }

  function Runs(events: seq<TxEvent>): Watched {
    if events == [] then Watched(STARTED, 0)
    else Watch(Runs(events[..|events| - 1]), events[|events| - 1])
  }

  lemma EventsKeepCoherent(t: Transmitter, e: TxEvent)
    requires Coherent(t)
    ensures Coherent(On(t, e))
  {
  }

  /** After start, in every reachable state: transmitting means the flag is down, the flag is
      down only while transmitting or in error, and the error count is the number of
      failures since the last reset, capped at ten. */
  lemma {:induction false} ReachableTransmitters(events: seq<TxEvent>)
    ensures var w := Runs(events);
            && Coherent(w.t)
            && w.t.errors == if w.failures < 10 then w.failures else 10
  {
    if events != [] {
      var n := |events| - 1;
      ReachableTransmitters(events[..n]);
      EventsKeepCoherent(Runs(events[..n]).t, events[n]);
    }
  }

  /** The error state is entered exactly by a failure that is at least the tenth since the
      last reset. */
  lemma EnteringError(events: seq<TxEvent>, e: TxEvent)
    ensures var w := Runs(events);
            (w.t.state != Faulted && On(w.t, e).state == Faulted) <==>
              (w.t.state != Faulted && IsFailure(w.t, e) && w.failures + 1 >= 10)
  {
    ReachableTransmitters(events);
  }

  /** Once a hundred milliseconds have passed since a frame was accepted, on a clock that
      has not gone all the way round, a plain recovery makes the transmitter available. */
  lemma StuckFrameTimesOut(t: Transmitter, begun: nat, now: nat, r: Reply)
    requires Coherent(t) && !t.available
    requires t.started == begun % TWO_32 && r.now == now % TWO_32
    requires begun + 100 <= now < begun + TWO_32
    ensures var t' := Recover(t, false, r).1;
            t'.state == Ready && t'.available
  {
    ClockDifference(begun, now);
  }

  /** And not before that: a frame on its way is left alone. */
  lemma FrameInTimeIsLeftAlone(t: Transmitter, begun: nat, now: nat, r: Reply)
    requires t.state == BusyTx && t.started == begun % TWO_32 && r.now == now % TWO_32
    requires begun <= now < begun + 100
    ensures Recover(t, false, r) == (false, t)
  {
    ClockDifference(begun, now);
  }

  class CommCan {
    var state: CanState
    var available: bool
    var errors: nat
    var started: uint32

    constructor ()
      ensures Fields() == Transmitter(InitState, true, 0, 0)
    {
      state, available, errors, started := InitState, true, 0, 0;
    }

    function Fields(): Transmitter
      reads this
    {
      Transmitter(state, available, errors, started)
    }

    method ResetErrorCount()
      modifies this
      ensures Fields() == Succeed(old(Fields()))
    {
      errors := 0;
    }

    method HandleCanError()
      modifies this
      ensures Fields() == Fail(old(Fields()))
    {
      if errors < MAX_CONSECUTIVE_ERRORS {
        errors := errors + 1;
      }
      if errors >= MAX_CONSECUTIVE_ERRORS {
        state := Faulted;
      }
    }

    method KickStartTxInterrupts()
      modifies this
      ensures Fields() == old(Fields()).(available := true)
    {
      available := true;
    }

    method StartCanPeripheral(hal: Status) returns (s: Status)
      modifies this
      ensures s == hal
      ensures Fields() == if hal == Ok then old(Fields()).(state := Ready, errors := 0) else Fail(old(Fields()))
    {
      if hal != Ok {
        HandleCanError();
        return hal;
      }
      state := Ready;
      ResetErrorCount();
      s := Ok;
    }

    method StartTransmitInterrupt(r: Reply) returns (s: Status)
      modifies this
      ensures (s, Fields()) == StartTransmit(old(Fields()), r)
    {
      s := OfferFrame(r);
      if s == Ok {
        RecordTaken(r.now);
      }
    }

    /** The first half: up to the answer of the hardware. */
    method OfferFrame(r: Reply) returns (s: Status)
      modifies this
      ensures s == StartTransmit(old(Fields()), r).0 && (s == Ok <==> Accepts(old(Fields()), r))
      ensures Fields() == if s == Ok then old(Fields()) else StartTransmit(old(Fields()), r).1
    {
      if state == Faulted {
        return Error;
      }
      if state == BusyTx {
        return Busy;
      }
      if r.hal == Ok {
        return Ok;
      }
      if r.fifoFull {
        return Busy;
      }
      HandleCanError();
      s := r.hal;
    }

    /** The second half, when the hardware took the frame. */
    method RecordTaken(now: uint32)
      modifies this
      ensures Fields() == Taken(now)
    {
      started, state, available := now, BusyTx, false;
      ResetErrorCount();
    }

    method AbortAllTransmissions(hal: Status)
      modifies this
      ensures Fields() == Abort(old(Fields()), hal)
    {
      if hal == Ok {
        ResetErrorCount();
      } else {
        HandleCanError();
      }
    }

    method RecoverStuckTransmit(force: bool, r: Reply) returns (done: bool)
      modifies this
      ensures (done, Fields()) == Recover(old(Fields()), force, r)
    {
      var timedOut := state == BusyTx && (r.now - started) % TWO_32 >= TX_TIMEOUT;
      if !force && !timedOut && state != Faulted {
        return false;
      }
      AbortAllTransmissions(r.hal);
      state := Ready;
      ResetErrorCount();
      KickStartTxInterrupts();
      done := true;
    }

    method SetTransmitComplete()
      modifies this
      ensures Fields() == Complete(old(Fields()))
    {
      state, available := Ready, true;
    }
  }
}
