/** Which of the stored sequences the controller runs, field by field. */
module StateSequences {
  import opened MicroOps
  import opened ExecutorSpec
  import opened ControllerSpec
  import opened ControllerRuns

  /** No sequence of a state moves the controller. */
  predicate FieldsStay(cfg: Sequences) {
    && NoMoves(cfg.init) && NoMoves(cfg.manual) && NoMoves(cfg.disengagement) && NoMoves(cfg.engaged)
    && NoMoves(cfg.powerUpBit) && NoMoves(cfg.operational) && NoMoves(cfg.error) && NoMoves(cfg.emergency)
  }

  predicate RunsLooping(c: Core, steps: seq<Op>) {
    c.active == Sequence(steps) && c.loop
  }

  predicate RunsOnce(c: Core, steps: seq<Op>) {
    c.active == Sequence(steps) && !c.loop
  }

  /** In every reachable state, what the state executor runs is the sequence stored for the
      state, looping except in the three one-shot states. */
  lemma StatesRunTheirFields(cfg: Sequences, inputs: seq<Input>)
    requires FieldsStay(cfg)
    ensures var c := Run(POWER_ON, cfg, inputs);
            && c.state != Technician
            && (IsRunning(c.seqx) && c.state == Init ==> RunsOnce(c.seqx, cfg.init))
            && (IsRunning(c.seqx) && c.state == Manual ==> RunsLooping(c.seqx, cfg.manual))
            && (IsRunning(c.seqx) && c.state == Disengagement ==> RunsOnce(c.seqx, cfg.disengagement))
            && (IsRunning(c.seqx) && c.state == Engaged ==> RunsLooping(c.seqx, cfg.engaged))
            && (IsRunning(c.seqx) && c.state == PowerUpBit ==> RunsOnce(c.seqx, cfg.powerUpBit))
            && (IsRunning(c.seqx) && c.state == Operational ==> RunsLooping(c.seqx, cfg.operational))
            && (IsRunning(c.seqx) && c.state == ErrorState ==> RunsLooping(c.seqx, cfg.error))
            && (IsRunning(c.seqx) && c.state == Emergency ==> RunsLooping(c.seqx, cfg.emergency))
  {
    StateAndSequenceAgree(cfg, inputs);
    TechnicianIsUnreachable(cfg, inputs);
  }

  // ---------------------------------------------------------------- the first steps

  /** A state that has just been entered: its executor is stopped and not marked as started. */
  predicate Fresh(c: Controller) {
    c.seqx == STOPPED && !c.started
  }

  /** Of two ticks, between which anything may happen to the surroundings, the first starts the
      sequence and the second executes it from its first step on. */
  ghost predicate TakesUp(
    c: Controller, cfg: Sequences, steps: seq<Op>, loop: bool, w: World, a: Moment, w2: World, b: Moment, m: Machine)
    requires Valid(c)
  {
    0 < |steps| <= MAX_STEPS ==>
      var (c1, w1) := TickState(c, cfg, w, m, a);
      && w1 == w && c1 == c.(started := true, seqx := Core(Sequence(steps), 0, loop, Running, 0, 0))
      && TickState(c1, cfg, w2, m, b).1 == Advance(steps, 0, w2, m).w
  }

  lemma FreshStateTakesUpItsField(
    c: Controller, cfg: Sequences, w: World, a: Moment, w2: World, b: Moment, m: Machine)
    requires Fresh(c) && Valid(c)
    ensures c.state == Init ==> TakesUp(c, cfg, cfg.init, false, w, a, w2, b, m)
    ensures c.state == Manual ==> TakesUp(c, cfg, cfg.manual, true, w, a, w2, b, m)
    ensures c.state == Disengagement ==> TakesUp(c, cfg, cfg.disengagement, false, w, a, w2, b, m)
    ensures c.state == Engaged ==> TakesUp(c, cfg, cfg.engaged, true, w, a, w2, b, m)
    ensures c.state == PowerUpBit ==> TakesUp(c, cfg, cfg.powerUpBit, false, w, a, w2, b, m)
    ensures c.state == Operational ==> TakesUp(c, cfg, cfg.operational, true, w, a, w2, b, m)
    ensures c.state == ErrorState ==> TakesUp(c, cfg, cfg.error, true, w, a, w2, b, m)
    ensures c.state == Emergency ==> TakesUp(c, cfg, cfg.emergency, true, w, a, w2, b, m)
    ensures c.state == Technician ==> TickState(c, cfg, w, m, a) == (c, w)
  {
    if c.state != Technician {
      FreshStateTakesUp(c, cfg, StateSequence(cfg, c.state).steps, w, a, w2, b, m);
    }
  }

  lemma FreshStateTakesUp(
    c: Controller, cfg: Sequences, steps: seq<Op>, w: World, a: Moment, w2: World, b: Moment, m: Machine)
    requires Fresh(c) && Valid(c) && StateSequence(cfg, c.state) == Sequence(steps)
    ensures TakesUp(c, cfg, steps, IsTickLoop(c.state), w, a, w2, b, m)
  {
  }

  /** A command, a move from outside or the end of a one-shot sequence that changes the state
      leaves it fresh. */
  lemma ChangedStateIsFresh(c: Controller, cfg: Sequences, input: Input)
    requires Valid(c) && Step(c, cfg, input).state != c.state
    requires input.Ticked? ==> CompletionEdge(c.state, Step(c, cfg, input).state)
    ensures Fresh(Step(c, cfg, input))
  {
    if input.Ticked? {
      MainTickMoves(c, cfg, input.w, input.m, input.a);
    }
  }

  // ---------------------------------------------------------------- the main sequence

  ghost predicate MainBound(c: Controller, cfg: Sequences) {
    && Valid(c) && (IsRunning(c.main) ==> c.main.active.Sequence?)
    && (c.main.active.Sequence? ==> RunsLooping(c.main, cfg.mainTick) && 0 < |cfg.mainTick| <= MAX_STEPS)
  }

  lemma StepKeepsMainBound(c: Controller, cfg: Sequences, input: Input)
    requires MainBound(c, cfg)
    ensures MainBound(Step(c, cfg, input), cfg)
  {
    match input
    case Command(_) =>
    case ForeignMove(_) =>
    case Ticked(w, m, a, b) =>
      var (c1, w1) := TickMain(c, cfg, w, m, a);
      assert TickState(c1, cfg, w1, m, b).0.main == c1.main;
  }

  /** The main executor runs the main sequence and nothing else, looping, whatever the state. */
  lemma {:induction false} MainRunsMainTick(cfg: Sequences, inputs: seq<Input>)
    ensures var c := Run(POWER_ON, cfg, inputs);
            && MainBound(c, cfg)
            && (IsRunning(c.main) ==> c.main.active == Sequence(cfg.mainTick) && c.main.loop)
  {
    if inputs != [] {
      var n := |inputs| - 1;
      MainRunsMainTick(cfg, inputs[..n]);
      StepKeepsMainBound(Run(POWER_ON, cfg, inputs[..n]), cfg, inputs[n]);
    }
  }

  /** After any tick it is running, from the first step on if it was not running before: a main
      sequence that fails or moves the controller is started again at once. */
  lemma MainAlwaysRuns(c: Controller, cfg: Sequences, w: World, m: Machine, at: Moment)
    requires MainBound(c, cfg) && 0 < |cfg.mainTick| <= MAX_STEPS
    ensures var main := TickMain(c, cfg, w, m, at).0.main;
            && IsRunning(main)
            && (!IsRunning(Tick(c.main, w, m, at.now, at.begin).0) ==>
                  main == Core(Sequence(cfg.mainTick), 0, true, Running, 0, 0))
  {
  }

  /** In one tick the main sequence comes first: the state's sequence goes on in the world that it
      has left. */
  lemma MainComesFirst(c: Controller, cfg: Sequences, w: World, m: Machine, a: Moment, b: Moment)
    requires Valid(c) && c.main.phase == Running && c.main.active.Sequence? && NoMoves(c.main.active.steps)
    requires c.seqx.phase == Running && c.seqx.active.Sequence?
    requires StateSequence(cfg, c.state).Sequence? && |StateSequence(cfg, c.state).steps| > 0
    ensures var between := Advance(c.main.active.steps, c.main.index, w, m).w;
            TickBoth(c, cfg, w, m, a, b).1 == Advance(c.seqx.active.steps, c.seqx.index, between, m).w
  {
    NoMoveNoMoved(c.main.active.steps, c.main.index, w, m);
  }
}
