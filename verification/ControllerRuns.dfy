/** What holds of the controller over every run of commands, ticks and moves. */
module ControllerRuns {
  import opened Interface
  import opened MicroOps
  import opened ExecutorSpec
  import opened ControllerSpec

  // ---------------------------------------------------------------- transitions

  predicate CommandEdge(s: State, t: State) {
    && (t == Init || t == Manual || t == Disengagement || t == Engaged || t == PowerUpBit)
    && s != t && s != Emergency
    && !(s == Operational && t == PowerUpBit) && !(s == Engaged && t == Init)
    && !(s == Manual && t != Init)
  }

  predicate CompletionEdge(s: State, t: State) {
    (s == Init && t == Engaged) || (s == Disengagement && t == Manual) || (s == PowerUpBit && t == Operational)
  }

  predicate MoveEdge(s: State, t: State) {
    s != Emergency && s != t && (t == ErrorState || t == Emergency)
  }

  /** A command changes the state exactly along the command edges. */
  lemma CommandsTakeCommandEdges(c: Controller, t: State)
    ensures (c.state != t && Request(c, t).1.state == t) <==> CommandEdge(c.state, t)
    ensures Request(c, t).1.state == c.state || Request(c, t).1.state == t
  {
  }

  /** A request is answered true exactly when, afterwards, the controller is in the
      requested state or in the state that follows it. */
  lemma RequestAnswer(c: Controller, req: State)
    ensures var (ok, c') := Request(c, req);
            ok <==> c'.state == req || c'.state == NextAfterSequence(req)
  {
  }

  lemma MainTickMoves(c: Controller, cfg: Sequences, w: World, m: Machine, at: Moment)
    requires Valid(c)
    ensures var t := TickMain(c, cfg, w, m, at).0.state;
            t == c.state || MoveEdge(c.state, t)
  {
  }

  lemma StateTickMoves(c: Controller, cfg: Sequences, w: World, m: Machine, at: Moment)
    requires Valid(c)
    ensures var t := TickState(c, cfg, w, m, at).0.state;
            t == c.state || MoveEdge(c.state, t) || CompletionEdge(c.state, t)
  {
  }

  /** Every step keeps the state or follows one edge of its kind; a tick in which the
      main-tick sequence moves the controller completes nothing. */
  lemma StepTakesAnEdge(c: Controller, cfg: Sequences, input: Input)
    requires Valid(c)
    ensures var t := Step(c, cfg, input).state;
            || t == c.state
            || (input.Command? && t == input.req && CommandEdge(c.state, t))
            || (input.Ticked? && (CompletionEdge(c.state, t) || MoveEdge(c.state, t)))
            || (input.ForeignMove? && MoveEdge(c.state, t))
  {
    match input
    case Command(req) => CommandsTakeCommandEdges(c, req);
    case ForeignMove(_) =>
    case Ticked(w, m, a, b) =>
      MainTickMoves(c, cfg, w, m, a);
      var (c1, w1) := TickMain(c, cfg, w, m, a);
      StateTickMoves(c1, cfg, w1, m, b);
  }

  lemma {:induction false} EmergencyIsFinal(c: Controller, cfg: Sequences, inputs: seq<Input>)
    requires Valid(c) && c.state == Emergency
    ensures Run(c, cfg, inputs).state == Emergency
  {
    if inputs != [] {
      var n := |inputs| - 1;
      EmergencyIsFinal(c, cfg, inputs[..n]);
      StepTakesAnEdge(Run(c, cfg, inputs[..n]), cfg, inputs[n]);
    }
  }

  lemma {:induction false} TechnicianIsUnreachable(cfg: Sequences, inputs: seq<Input>)
    ensures Run(POWER_ON, cfg, inputs).state != Technician
  {
    if inputs != [] {
      var n := |inputs| - 1;
      TechnicianIsUnreachable(cfg, inputs[..n]);
      StepTakesAnEdge(Run(POWER_ON, cfg, inputs[..n]), cfg, inputs[n]);
    }
  }

  /** OPERATIONAL is entered only by a tick in POWER_UP_BIT; MANUAL is left only to INIT
      (by a command), ERROR or EMERGENCY. */
  lemma OperationalAndManual(c: Controller, cfg: Sequences, input: Input)
    requires Valid(c)
    ensures var t := Step(c, cfg, input).state;
            && (t == Operational && c.state != Operational ==> c.state == PowerUpBit && input.Ticked?)
            && (c.state == Manual && t != Manual ==>
                  (t == Init && input == Command(Init)) || t == ErrorState || t == Emergency)
  {
    StepTakesAnEdge(c, cfg, input);
  }

  /** A tick completes a state exactly when the state has a successor and its sequence is empty,
      or was started and is not running after the tick, whether it succeeded or failed, and
      has not moved the controller in it. */
  lemma CompletionNeedsSequenceEnd(c: Controller, cfg: Sequences, w: World, m: Machine, at: Moment)
    requires Valid(c)
    ensures CompletionEdge(c.state, TickState(c, cfg, w, m, at).0.state) <==>
              && NextAfterSequence(c.state) != c.state
              && (StateSequence(cfg, c.state).steps == []
                  || (c.started && TickMove(c.seqx, w, m, at.now).NoMove?
                      && !IsRunning(Tick(c.seqx, w, m, at.now, at.begin).0)))
  {
  }

  /** A failed sequence completes its state like a successful one: INIT, with a step that no
      executor knows, goes on to ENGAGED in the tick in which it fails. */
  lemma FailedSequenceCompletes(w: World, o: Oracle, wiring: Wiring, at: Moment)
    ensures var cfg := Sequences([], [UnknownOp], [], [], [], [], [], [], []);
            var m := Board(o, wiring);
            var c := Run(POWER_ON, cfg, [Command(Init), Ticked(w, m, at, at)]);
            && c.state == Init && Tick(c.seqx, w, m, at.now, at.begin).0.phase == Failed
            && Step(c, cfg, Ticked(w, m, at, at)).state == Engaged
  {
    var cfg := Sequences([], [UnknownOp], [], [], [], [], [], [], []);
    var m := Board(o, wiring);
    EnteringInit(cfg, Ticked(w, m, at, at));
    assert m(UnknownOp, w).0 == Error;
    FailingTicks(cfg, w, m, at);
  }

  lemma EnteringInit(cfg: Sequences, next: Input)
    ensures Run(POWER_ON, cfg, [Command(Init), next]) == Step(POWER_ON.(state := Init), cfg, next)
  {
    var inputs := [Command(Init), next];
    assert inputs[..1] == [Command(Init)] && inputs[..1][..0] == [];
    assert Run(POWER_ON, cfg, []) == POWER_ON;
    assert Run(POWER_ON, cfg, inputs[..1]) == POWER_ON.(state := Init);
  }

  lemma FailingTicks(cfg: Sequences, w: World, m: Machine, at: Moment)
    requires cfg == Sequences([], [UnknownOp], [], [], [], [], [], [], []) && m(UnknownOp, w).0 == Error
    ensures var c := Step(POWER_ON.(state := Init), cfg, Ticked(w, m, at, at));
            && c.state == Init && Tick(c.seqx, w, m, at.now, at.begin).0.phase == Failed
            && Step(c, cfg, Ticked(w, m, at, at)).state == Engaged
  {
    var running := Core(Sequence([UnknownOp]), 0, false, Running, 0, 0);
    assert Step(POWER_ON.(state := Init), cfg, Ticked(w, m, at, at))
        == POWER_ON.(state := Init, started := true, seqx := running);
    assert Advance([UnknownOp], 0, w, m).Aborted?;
  }

  // ---------------------------------------------------------------- state and sequence

  ghost predicate StateSequencesStay(cfg: Sequences) {
    forall s: State :: StateSequence(cfg, s).Sequence? ==> NoMoves(StateSequence(cfg, s).steps)
  }

  /** The state executor is stopped, or it runs the sequence of the current state with
      that state's loop flag. */
  ghost predicate Bound(c: Controller, cfg: Sequences) {
    && Valid(c)
    && (c.seqx.active.Sequence? ==>
          IsRunning(c.seqx) && c.started && 0 < |c.seqx.active.steps| <= MAX_STEPS
          && c.seqx.active == StateSequence(cfg, c.state) && c.seqx.loop == IsTickLoop(c.state))
    && (IsRunning(c.seqx) ==> c.seqx.active.Sequence?)
  }

  lemma {:induction false} NoMoveNoMoved(steps: seq<Op>, i: nat, w: World, m: Machine)
    requires i <= |steps| && NoMoves(steps)
    ensures !Advance(steps, i, w, m).Moved?
    decreases |steps| - i
  {
    if i < |steps| && !steps[i].DelayMs? {
      if steps[i].IfCondition? {
        if ConditionAllowed(steps[i], |w.vars|) && i + steps[i].bodyCount < |steps| {
          NoMoveNoMoved(steps, NextAfterIf(steps[i], i, w), w, m);
        }
      } else if m(steps[i], w).0 == Ok {
        NoMoveNoMoved(steps, i + 1, m(steps[i], w).1, m);
      }
    }
  }

  lemma MainTickKeepsBound(c: Controller, cfg: Sequences, w: World, m: Machine, at: Moment)
    requires Bound(c, cfg)
    ensures Bound(TickMain(c, cfg, w, m, at).0, cfg)
  {
  }

  /** In any state, a tick of the state's sequence keeps the binding exactly when it does
      not end in a move to another state whose sequence or loop flag differs. */
  lemma StateTickKeepsBound(c: Controller, cfg: Sequences, w: World, m: Machine, at: Moment)
    requires Bound(c, cfg)
    ensures var move := TickMove(c.seqx, w, m, at.now);
            Bound(TickState(c, cfg, w, m, at).0, cfg) <==>
              (move.Requested? && c.state != Emergency ==>
                 StateSequence(cfg, MoveTarget(move.move)) == StateSequence(cfg, c.state) && IsTickLoop(c.state))
  {
    var move := TickMove(c.seqx, w, m, at.now);
    if move.Requested? {
      assert Tick(c.seqx, w, m, at.now, at.begin).0 == STOPPED;
      assert Start(STOPPED, c.seqx.active.steps, IsTickLoop(c.state)).0;
    }
  }

  /** As long as no state sequence moves the controller, the binding holds in every
      reachable state, whatever commands, main-tick sequences and other executors do. */
  lemma {:induction false} StateAndSequenceAgree(cfg: Sequences, inputs: seq<Input>)
    requires StateSequencesStay(cfg)
    ensures Bound(Run(POWER_ON, cfg, inputs), cfg)
  {
    if inputs != [] {
      var n := |inputs| - 1;
      StateAndSequenceAgree(cfg, inputs[..n]);
      StepKeepsBound(Run(POWER_ON, cfg, inputs[..n]), cfg, inputs[n]);
    }
  }

  lemma StepKeepsBound(c: Controller, cfg: Sequences, input: Input)
    requires StateSequencesStay(cfg) && Bound(c, cfg)
    ensures Bound(Step(c, cfg, input), cfg)
  {
    match input
    case Command(_) =>
    case ForeignMove(_) =>
    case Ticked(w, m, a, b) =>
      MainTickKeepsBound(c, cfg, w, m, a);
      var (c1, w1) := TickMain(c, cfg, w, m, a);
      if Advances(c1.seqx, b.now) {
        NoMoveNoMoved(c1.seqx.active.steps, Resumed(c1.seqx).index, w1, m);
      }
      StateTickKeepsBound(c1, cfg, w1, m, b);
  }

  /** A state sequence that moves the controller is restarted in the new state: here the
      MANUAL sequence keeps running in ERROR. */
  lemma MovingSequenceIsRestarted(w: World, o: Oracle, at: Moment)
    ensures var cfg := Sequences([], [], [MoveToError], [], [], [], [], [], []);
            var m := Board(o, Wiring(false, true, false, {}));
            var c := Run(POWER_ON, cfg, [Ticked(w, m, at, at), Ticked(w, m, at, at)]);
            c.state == ErrorState && c.seqx.active == Sequence([MoveToError]) && !Bound(c, cfg)
  {
    var cfg := Sequences([], [], [MoveToError], [], [], [], [], [], []);
    var m := Board(o, Wiring(false, true, false, {}));
    var tick := Ticked(w, m, at, at);
    var c1 := Step(POWER_ON, cfg, tick);
    assert c1 == POWER_ON.(started := true, seqx := Core(Sequence([MoveToError]), 0, true, Running, 0, 0));
    assert Advance([MoveToError], 0, w, m).Moved?;
    assert [tick, tick][..1] == [tick] && [tick][..0] == [];
    assert Run(POWER_ON, cfg, []) == POWER_ON;
    assert Run(POWER_ON, cfg, [tick]) == c1;
  }
}
