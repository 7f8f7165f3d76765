/** The controller object, with its two executors on one store and bus. */
module GpcController {
  import opened MicroOps
  import opened MicroVarStore
  import opened ExecutorSpec
  import opened MicroSequenceExecutor
  import opened ControllerSpec

  class ControllerObject {
    const cfg: Sequences
    const main: Executor
    const seqx: Executor
    var state: State
    var started: bool

    constructor (cfg: Sequences, store: VarStore?, bus: Peripherals, wiring: Wiring)
      ensures this.cfg == cfg && Sound() && Fields() == POWER_ON
      ensures main.machine == Board(bus.oracle, wiring)
      ensures fresh(main) && fresh(seqx) && main.bus == bus && main.store == store
    {
      this.cfg := cfg;
      main := new Executor(store, bus, wiring);
      seqx := new Executor(store, bus, wiring);
      state, started := Manual, false;
    }

    function Fields(): Controller
      reads this, main, seqx
    {
      Controller(state, started, main.Fields(), seqx.Fields())
    }

    /** Two executors, linked to the same board, in a valid position. */
    ghost predicate Sound()
      reads this, main, seqx
    {
      && main != seqx && main.bus == seqx.bus && main.store == seqx.store
      && main.machine == seqx.machine && main.Linked() && seqx.Linked()
      && Valid(Fields())
    }

    method EnterState(s: State)
      requires Sound()
      modifies this, seqx
      ensures Sound() && Fields() == Enter(old(Fields()), s)
    {
      if state == Emergency {
        return;
      }
      state := s;
      seqx.Stop();
      started := false;
    }

    method SendSetStateRequest(req: State) returns (ok: bool)
      requires Sound()
      modifies this, seqx
      ensures Sound() && (ok, Fields()) == Request(old(Fields()), req)
    {
      if state == req || (state == Operational && req == PowerUpBit) {
        return true;
      }
      if state == Emergency {
        return false;
      }
      if req == Init && state == Engaged {
        return true;
      }
      if req == Disengagement && state == Manual {
        return true;
      }
      if state == Manual && (req == PowerUpBit || req == Engaged) {
        return false;
      }
      if req == Operational || req == ErrorState || req == Emergency || req == Technician {
        return false;
      }
      EnterState(req);
      ok := true;
    }

    method Follow(request: MoveRequest)
      requires Sound()
      modifies this, seqx
      ensures Sound() && Fields() == Obey(old(Fields()), request)
    {
      match request
      case NoMove =>
      case Requested(mv) => EnterState(MoveTarget(mv));
    }

    method OnOneShotSequenceComplete()
      requires Sound()
      modifies this, seqx
      ensures Sound() && Fields() == OneShotComplete(old(Fields()))
    {
      var next := NextAfterSequence(state);
      if next != state {
        EnterState(next);
      }
    }

    method TickMainSequence(at: Moment)
      requires Sound()
      modifies this, main, seqx, main.Shared()
      ensures Sound()
      ensures (Fields(), main.Surroundings())
           == TickMain(old(Fields()), cfg, old(main.Surroundings()), main.machine, at)
    {
      var request := main.TickOnce(at.now, at.begin);
      Follow(request);
      if !(main.phase == Running || main.phase == WaitingDelay) && |cfg.mainTick| > 0 {
        var _ := main.StartSequence(cfg.mainTick, true);
      }
    }

    method TickStateSequence(at: Moment)
      requires Sound()
      modifies this, seqx, seqx.Shared()
      ensures Sound()
      ensures (Fields(), seqx.Surroundings())
           == TickState(old(Fields()), cfg, old(seqx.Surroundings()), seqx.machine, at)
    {
      var program := StateSequence(cfg, state);
      if program.NoSequence? {
        return;
      }
      var loop := IsTickLoop(state);
      if |program.steps| == 0 {
        if !loop {
          OnOneShotSequenceComplete();
        }
        return;
      }
      var request := seqx.TickOnce(at.now, at.begin);
      Follow(request);
      ContinueStateSequence(program.steps, loop);
    }

    /** The rest of the tick, after the executor's. */
    method ContinueStateSequence(steps: seq<Op>, loop: bool)
      requires Sound()
      modifies this, seqx
      ensures Sound() && Fields() == GoOn(old(Fields()), steps, loop)
    {
      if seqx.phase == Running || seqx.phase == WaitingDelay {
        return;
      }
      if started && !loop {
        started := false;
        OnOneShotSequenceComplete();
        return;
      }
      if !started {
        started := seqx.StartSequence(steps, loop);
      }
    }

    method TickController(a: Moment, b: Moment)
      requires Sound()
      modifies this, main, seqx, main.Shared()
      ensures Sound()
      ensures (Fields(), main.Surroundings())
           == TickBoth(old(Fields()), cfg, old(main.Surroundings()), main.machine, a, b)
    {
      TickMainSequence(a);
      TickStateSequence(b);
    }
  }
}
