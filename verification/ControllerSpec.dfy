/** The controller's state machine, composed with its two executors, as functions. */
module ControllerSpec {
  import opened MicroOps
  import opened ExecutorSpec

  datatype State =
    | Init | Manual | Disengagement | Engaged | PowerUpBit
    | Operational | ErrorState | Emergency | Technician

  /** The sequences stored in flash. */
  datatype Sequences = Sequences(
    mainTick: seq<Op>, init: seq<Op>, manual: seq<Op>, disengagement: seq<Op>, engaged: seq<Op>,
    powerUpBit: seq<Op>, operational: seq<Op>, error: seq<Op>, emergency: seq<Op>)

  function StateSequence(cfg: Sequences, s: State): Program {
    match s
    case Init => Sequence(cfg.init)
    case Manual => Sequence(cfg.manual)
    case Disengagement => Sequence(cfg.disengagement)
    case Engaged => Sequence(cfg.engaged)
    case PowerUpBit => Sequence(cfg.powerUpBit)
    case Operational => Sequence(cfg.operational)
    case ErrorState => Sequence(cfg.error)
    case Emergency => Sequence(cfg.emergency)
    case Technician => NoSequence
  }

  predicate IsTickLoop(s: State) {
    s.Manual? || s.Engaged? || s.Operational? || s.ErrorState? || s.Emergency?
  }

  function NextAfterSequence(s: State): State {
    match s
    case Init => Engaged
    case Disengagement => Manual
    case PowerUpBit => Operational
    case _ => s
  }

  /** The fields of the controller: its state, whether the state's sequence was started,
      and the main-tick and state-sequence executors. */
  datatype Controller = Controller(state: State, started: bool, main: Core, seqx: Core)

  const POWER_ON := Controller(Manual, false, STOPPED, STOPPED)

  ghost predicate Valid(c: Controller) {
    WellFormed(c.main) && WellFormed(c.seqx)
  }

  function Enter(c: Controller, s: State): (r: Controller)
    ensures r.main == c.main
  {
    if c.state == Emergency then c else c.(state := s, started := false, seqx := STOPPED)
  }

  function MoveTarget(mv: Move): State {
    if mv.ToError? then ErrorState else Emergency
  }

  function Obey(c: Controller, r: MoveRequest): Controller {
    if r.NoMove? then c else Enter(c, MoveTarget(r.move))
  }

  /** A request to set the state: what is answered and what happens. */
  function Request(c: Controller, req: State): (bool, Controller) {
    if c.state == req || (c.state == Operational && req == PowerUpBit) then (true, c)
    else if c.state == Emergency then (false, c)
    else if req == Init && c.state == Engaged then (true, c)
    else if req == Disengagement && c.state == Manual then (true, c)
    else if c.state == Manual && (req == PowerUpBit || req == Engaged) then (false, c)
    else if req == Operational || req == ErrorState || req == Emergency || req == Technician then (false, c)
    else (true, Enter(c, req))
  }

  function OneShotComplete(c: Controller): Controller {
    if NextAfterSequence(c.state) != c.state then Enter(c, NextAfterSequence(c.state)) else c
  }

  function TickMain(c: Controller, cfg: Sequences, w: World, m: Machine, at: Moment): (r: (Controller, World))
    requires Valid(c)
    ensures Valid(r.0)
  {
    var (main, w') := Tick(c.main, w, m, at.now, at.begin);
    var c' := Obey(c, TickMove(c.main, w, m, at.now)).(main := main);
    (if !IsRunning(main) && |cfg.mainTick| > 0 then c'.(main := Start(main, cfg.mainTick, true).1) else c', w')
  }

  /** One tick of the state's sequence. The sequence and the loop flag are chosen before
      the executor's tick, so a state sequence that moves the controller is restarted. */
  function TickState(c: Controller, cfg: Sequences, w: World, m: Machine, at: Moment): (r: (Controller, World))
    requires Valid(c)
    ensures Valid(r.0)
  {
    var program := StateSequence(cfg, c.state);
    var loop := IsTickLoop(c.state);
    if program.NoSequence? then (c, w)
    else if |program.steps| == 0 then (if loop then c else OneShotComplete(c), w)
    else
      var (seqx, w') := Tick(c.seqx, w, m, at.now, at.begin);
      (GoOn(Obey(c, TickMove(c.seqx, w, m, at.now)).(seqx := seqx), program.steps, loop), w')
  }

  /** What follows the executor's tick: complete a one-shot state, or start the sequence. */
  function GoOn(c: Controller, steps: seq<Op>, loop: bool): (r: Controller)
    requires Valid(c)
    ensures Valid(r)
  {
    if IsRunning(c.seqx) then c
    else if c.started && !loop then OneShotComplete(c.(started := false))
    else if !c.started then
      var (ok, seqx') := Start(c.seqx, steps, loop);
      c.(started := ok, seqx := seqx')
    else c
  }

  function TickBoth(c: Controller, cfg: Sequences, w: World, m: Machine, a: Moment, b: Moment): (r: (Controller, World))
    requires Valid(c)
    ensures Valid(r.0)
  {
    var (c', w') := TickMain(c, cfg, w, m, a);
    TickState(c', cfg, w', m, b)
  }

  /** What can happen to a controller: a command, a tick (in any surroundings), or a move
      asked for by a power-up or command sequence, which another executor runs. */
  datatype Input =
    | Command(req: State)
    | Ticked(w: World, m: Machine, a: Moment, b: Moment)
    | ForeignMove(move: Move)

  function Step(c: Controller, cfg: Sequences, input: Input): (r: Controller)
    requires Valid(c)
    ensures Valid(r)
  {
    match input
    case Command(req) => Request(c, req).1
    case Ticked(w, m, a, b) => TickBoth(c, cfg, w, m, a, b).0
    case ForeignMove(mv) => Enter(c, MoveTarget(mv))
  }

  function Run(c: Controller, cfg: Sequences, inputs: seq<Input>): (r: Controller)
    requires Valid(c)
    ensures Valid(r)
  {
    if inputs == [] then c
    else Step(Run(c, cfg, inputs[..|inputs| - 1]), cfg, inputs[|inputs| - 1])
  }
}
