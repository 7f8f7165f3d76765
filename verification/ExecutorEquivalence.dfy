/** The resumable interpreter does what the blocking one does: a run of ticks under any
    clock has the same variables, driver calls, pauses and verdict as one blocking run,
    once the CAN transmissions that were answered BUSY are deleted. */
module ExecutorEquivalence {
  import opened Bytes
  import opened Interface
  import opened MicroOps
  import opened ExecutorSpec

  predicate BusyCan(e: Event) {
    e.call.Send? && e.call.link.Can? && e.answer.status == Busy
  }

  /** The calls that were not CAN transmissions answered BUSY. */
  function Accepted(log: seq<Event>): seq<Event> {
    if log == [] then []
    else if BusyCan(log[0]) then Accepted(log[1..])
    else [log[0]] + Accepted(log[1..])
  }

  function Quiet(w: World): World {
    w.(log := Accepted(w.log))
  }

  /** The n-th accepted call is answered the same way by `f`. */
  ghost predicate Agrees(f: Oracle, log: seq<Event>) {
    forall k :: 0 <= k < |Accepted(log)| ==> f(k) == Accepted(log)[k].answer
  }

  /** An oracle that repeats the answers of a recorded run. */
  function Replay(log: seq<Event>): Oracle {
    (k: nat) => if k < |Accepted(log)| then Accepted(log)[k].answer else Answer(Error, 0, [])
  }

  predicate NoBusyCan(events: seq<Event>) {
    forall e :: e in events ==> !BusyCan(e)
  }

  lemma {:induction false} AcceptedConcat(log: seq<Event>, more: seq<Event>)
    ensures Accepted(log + more) == Accepted(log) + Accepted(more)
  {
    if log == [] {
      assert log + more == more;
    } else {
      assert (log + more)[1..] == log[1..] + more;
      AcceptedConcat(log[1..], more);
    }
  }

  lemma {:induction false} AllAccepted(events: seq<Event>)
    requires NoBusyCan(events)
    ensures Accepted(events) == events
  {
    if events != [] {
      AllAccepted(events[1..]);
    }
  }

  /** From call `n` on, `f` gives these (at most two) answers. */
  ghost predicate Answers(f: Oracle, n: nat, events: seq<Event>) {
    && |events| <= 2
    && (|events| > 0 ==> f(n) == events[0].answer)
    && (|events| > 1 ==> f(n + 1) == events[1].answer)
  }

  /** An operation sees the oracle only through the answers it logs. */
  lemma EffectSeesItsAnswers(op: Op, vars: seq<int64>, n: nat, g: Oracle, m: nat, f: Oracle, wiring: Wiring)
    requires var e := EffectOf(op, vars, n, g, wiring);
             Answers(f, m, e.events)
    ensures EffectOf(op, vars, m, f, wiring) == EffectOf(op, vars, n, g, wiring)
  {
  }

  lemma QuietApply(w: World, e: Effect, f: Oracle)
    requires NoBusyCan(e.events) && |e.events| <= 2 && Agrees(f, Apply(w, e).log)
    ensures Accepted(Apply(w, e).log) == Accepted(w.log) + e.events
    ensures Answers(f, |Accepted(w.log)|, e.events)
  {
    AcceptedConcat(w.log, e.events);
    AllAccepted(e.events);
    var m, full := |Accepted(w.log)|, Accepted(Apply(w, e).log);
    if |e.events| > 0 {
      assert f(m) == full[m].answer && full[m] == e.events[0];
    }
    if |e.events| > 1 {
      assert f(m + 1) == full[m + 1].answer && full[m + 1] == e.events[1];
    }
  }

  lemma OnlyBusyStatusLogsBusy(op: Op, vars: seq<int64>, n: nat, g: Oracle, wiring: Wiring)
    requires EffectOf(op, vars, n, g, wiring).status != Busy
    ensures NoBusyCan(EffectOf(op, vars, n, g, wiring).events)
  {
  }

  /** A step that was not answered BUSY has the same effect in the quiet world. */
  lemma StepMatches(op: Op, w: World, g: Oracle, f: Oracle, wiring: Wiring)
    requires var r := Board(g, wiring)(op, w); r.0 != Busy && Agrees(f, r.1.log)
    ensures var r := Board(g, wiring)(op, w);
            Board(f, wiring)(op, Quiet(w)) == (r.0, Quiet(r.1))
  {
    EffectMatches(op, w, g, f, wiring);
  }

  lemma EffectMatches(op: Op, w: World, g: Oracle, f: Oracle, wiring: Wiring)
    requires var e := EffectOf(op, w.vars, |w.log|, g, wiring);
             e.status != Busy && Agrees(f, Apply(w, e).log)
    ensures var e := EffectOf(op, w.vars, |w.log|, g, wiring);
            && EffectOf(op, w.vars, |Accepted(w.log)|, f, wiring) == e
            && Quiet(Apply(w, e)) == Apply(Quiet(w), e)
  {
    var e := EffectOf(op, w.vars, |w.log|, g, wiring);
    OnlyBusyStatusLogsBusy(op, w.vars, |w.log|, g, wiring);
    QuietApply(w, e, f);
    EffectSeesItsAnswers(op, w.vars, |w.log|, g, |Accepted(w.log)|, f, wiring);
  }

  /** A BUSY transmission leaves no mark on the quiet world. */
  lemma BusyIsInvisible(op: Op, w: World, g: Oracle, wiring: Wiring)
    requires Board(g, wiring)(op, w).0 == Busy
    ensures Quiet(Board(g, wiring)(op, w).1) == Quiet(w)
  {
    var e := EffectOf(op, w.vars, |w.log|, g, wiring);
    assert |e.events| == 1 && BusyCan(e.events[0]) && e.moves == [];
    AcceptedConcat(w.log, e.events);
    assert Accepted(e.events) == Accepted(e.events[1..]) == [];
    assert w.moves + e.moves == w.moves;
  }

  lemma StepLogGrows(op: Op, w: World, g: Oracle, wiring: Wiring)
    ensures w.log <= Board(g, wiring)(op, w).1.log
  {
  }

  lemma LogPrefix(a: seq<Event>, b: seq<Event>, c: seq<Event>)
    requires a <= b <= c
    ensures a <= c
  {
  }

  lemma {:induction false} LogGrows(steps: seq<Op>, i: nat, w: World, g: Oracle, wiring: Wiring)
    requires i <= |steps|
    ensures w.log <= Advance(steps, i, w, Board(g, wiring)).w.log
    decreases |steps| - i
  {
    if i < |steps| && !steps[i].DelayMs? {
      if steps[i].IfCondition? {
        if ConditionAllowed(steps[i], |w.vars|) && i + steps[i].bodyCount < |steps| {
          AdvanceOverIf(steps, i, w, Board(g, wiring));
          LogGrows(steps, NextAfterIf(steps[i], i, w), w, g, wiring);
        }
      } else {
        var (status, w') := Board(g, wiring)(steps[i], w);
        StepLogGrows(steps[i], w, g, wiring);
        if status == Ok && !IsMove(steps[i]) {
          AdvanceOverStep(steps, i, w, Board(g, wiring));
          LogGrows(steps, i + 1, w', g, wiring);
          LogPrefix(w.log, w'.log, Advance(steps, i + 1, w', Board(g, wiring)).w.log);
        }
      }
    }
  }

  lemma AgreesOnPrefix(f: Oracle, log: seq<Event>, longer: seq<Event>)
    requires log <= longer && Agrees(f, longer)
    ensures Agrees(f, log)
  {
    AcceptedConcat(log, longer[|log|..]);
    assert log + longer[|log|..] == longer;
    forall k | 0 <= k < |Accepted(log)| ensures f(k) == Accepted(log)[k].answer {
      assert Accepted(log)[k] == Accepted(longer)[k];
    }
  }

  /** What is left to do, for the blocking interpreter, when a tick gives control back. */
  function Remainder(steps: seq<Op>, x: Exit, m: Machine): (bool, World)
    requires x.Sleeping? || x.Stalled? ==> x.at < |steps|
  {
    match x
    case Finished(w) => (true, Quiet(w))
    case Sleeping(at, _, w) => RunImmediate(steps, at + 1, Quiet(w), m)
    case Stalled(at, w) => RunImmediate(steps, at, Quiet(w), m)
    case Aborted(_, w) => (false, Quiet(w))
    case Moved(_, w) => (true, Quiet(w))
  }

  lemma {:induction false} AdvanceMatches(
    steps: seq<Op>, i: nat, w: World, g: Oracle, f: Oracle, wiring: Wiring)
    requires i <= |steps| && NoMoves(steps)
    requires Agrees(f, Advance(steps, i, w, Board(g, wiring)).w.log)
    ensures var x := Advance(steps, i, w, Board(g, wiring));
            !x.Moved? && RunImmediate(steps, i, Quiet(w), Board(f, wiring)) == Remainder(steps, x, Board(f, wiring))
    decreases |steps| - i
  {
    if i < |steps| && !steps[i].DelayMs? {
      if steps[i].IfCondition? {
        if ConditionAllowed(steps[i], |w.vars|) && i + steps[i].bodyCount < |steps| {
          AdvanceMatches(steps, NextAfterIf(steps[i], i, w), w, g, f, wiring);
        }
      } else {
        AdvanceOneMatches(steps, i, w, g, f, wiring);
        if Board(g, wiring)(steps[i], w).0 == Ok {
          var w' := Board(g, wiring)(steps[i], w).1;
          AdvanceOverStep(steps, i, w, Board(g, wiring));
          AdvanceMatches(steps, i + 1, w', g, f, wiring);
        }
      }
    }
  }

  lemma AdvanceOneMatches(steps: seq<Op>, i: nat, w: World, g: Oracle, f: Oracle, wiring: Wiring)
    requires i < |steps| && !steps[i].DelayMs? && !steps[i].IfCondition? && NoMoves(steps)
    requires Agrees(f, Advance(steps, i, w, Board(g, wiring)).w.log)
    ensures var r := Board(g, wiring)(steps[i], w);
            RunImmediate(steps, i, Quiet(w), Board(f, wiring)) ==
              if r.0 == Ok then RunImmediate(steps, i + 1, Quiet(r.1), Board(f, wiring))
              else if r.0 == Busy then RunImmediate(steps, i, Quiet(r.1), Board(f, wiring))
              else (false, Quiet(r.1))
  {
    var (status, w') := Board(g, wiring)(steps[i], w);
    if status == Busy {
      BusyIsInvisible(steps[i], w, g, wiring);
    } else {
      AgreesAfterStep(steps, i, w, g, f, wiring);
      StepMatches(steps[i], w, g, f, wiring);
    }
  }

  lemma AgreesAfterStep(steps: seq<Op>, i: nat, w: World, g: Oracle, f: Oracle, wiring: Wiring)
    requires i < |steps| && !steps[i].DelayMs? && !steps[i].IfCondition? && NoMoves(steps)
    requires Agrees(f, Advance(steps, i, w, Board(g, wiring)).w.log)
    ensures Agrees(f, Board(g, wiring)(steps[i], w).1.log)
  {
    var (status, w') := Board(g, wiring)(steps[i], w);
    if status == Ok {
      AdvanceOverStep(steps, i, w, Board(g, wiring));
      LogGrows(steps, i + 1, w', g, wiring);
      AgreesOnPrefix(f, w'.log, Advance(steps, i, w, Board(g, wiring)).w.log);
    }
  }

  /** How far a non-looping run of ticks has got: `whole` is what is left for the blocking run. */
  ghost predicate InStep(steps: seq<Op>, whole: (bool, World), c: Core, w: World, m: Machine) {
    match c.phase
    case Idle => whole == (true, Quiet(w))
    case Failed => whole == (false, Quiet(w))
    case Completed => false
    case _ =>
      && WellFormed(c) && c.active == Sequence(steps) && !c.loop
      && whole == RunImmediate(steps, Resumed(c).index, Quiet(w), m)
  }

  lemma SettledInStep(steps: seq<Op>, whole: (bool, World), c: Core, x: Exit, begin: uint32, m: Machine)
    requires x.Sleeping? || x.Stalled? || x.Aborted? ==> x.at < |steps|
    requires c.active == Sequence(steps) && !c.loop && c.phase == Running && !x.Moved?
    requires whole == Remainder(steps, x, m)
    ensures InStep(steps, whole, Settle(c, x, begin), x.w, m)
  {
    var c' := Settle(c, x, begin);
    match x
    case Finished(_) =>
    case Sleeping(at, _, _) => assert Resumed(c').index == at + 1;
    case Stalled(at, _) => assert Resumed(c').index == at;
    case Aborted(_, _) =>
    case Moved(_, _) =>
  }

  lemma TickKeepsStep(
    steps: seq<Op>, whole: (bool, World), c: Core, w: World, g: Oracle, f: Oracle, wiring: Wiring, at: Moment)
    requires WellFormed(c) && NoMoves(steps)
    requires var r := Tick(c, w, Board(g, wiring), at.now, at.begin);
             Agrees(f, r.1.log) && InStep(steps, whole, c, w, Board(f, wiring))
    ensures var r := Tick(c, w, Board(g, wiring), at.now, at.begin);
            InStep(steps, whole, r.0, r.1, Board(f, wiring))
  {
    if Advances(c, at.now) {
      AdvanceMatches(steps, Resumed(c).index, w, g, f, wiring);
      SettledInStep(steps, whole, Resumed(c), ExitOf(c, w, Board(g, wiring)), at.begin, Board(f, wiring));
    }
  }

  lemma TickLogGrows(c: Core, w: World, g: Oracle, wiring: Wiring, at: Moment)
    requires WellFormed(c)
    ensures w.log <= Tick(c, w, Board(g, wiring), at.now, at.begin).1.log
  {
    if Advances(c, at.now) {
      LogGrows(c.active.steps, Resumed(c).index, w, g, wiring);
    }
  }

  lemma {:induction false} TicksKeepStep(
    steps: seq<Op>, w0: World, g: Oracle, f: Oracle, wiring: Wiring, clock: seq<Moment>)
    requires NoMoves(steps) && 0 < |steps| <= MAX_STEPS
    requires Agrees(f, RunTicks(Start(STOPPED, steps, false).1, w0, Board(g, wiring), clock).1.log)
    ensures var r := RunTicks(Start(STOPPED, steps, false).1, w0, Board(g, wiring), clock);
            InStep(steps, RunImmediate(steps, 0, Quiet(w0), Board(f, wiring)), r.0, r.1, Board(f, wiring))
  {
    if clock != [] {
      var n := |clock| - 1;
      var (c, w) := RunTicks(Start(STOPPED, steps, false).1, w0, Board(g, wiring), clock[..n]);
      TickLogGrows(c, w, g, wiring, clock[n]);
      AgreesOnPrefix(f, w.log, Tick(c, w, Board(g, wiring), clock[n].now, clock[n].begin).1.log);
      TicksKeepStep(steps, w0, g, f, wiring, clock[..n]);
      TickKeepsStep(steps, RunImmediate(steps, 0, Quiet(w0), Board(f, wiring)), c, w, g, f, wiring, clock[n]);
    }
  }

  /** The resumable run ends IDLE exactly when the blocking run returns true and ERROR
      exactly when it returns false, and then nothing but BUSY answers tells them apart. */
  lemma TicksRefineImmediate(
    steps: seq<Op>, w0: World, g: Oracle, f: Oracle, wiring: Wiring, clock: seq<Moment>)
    requires NoMoves(steps) && 0 < |steps| <= MAX_STEPS
    requires var r := RunTicks(Start(STOPPED, steps, false).1, w0, Board(g, wiring), clock);
             !IsRunning(r.0) && Agrees(f, r.1.log)
    ensures var r := RunTicks(Start(STOPPED, steps, false).1, w0, Board(g, wiring), clock);
            var (ok, w) := RunImmediate(steps, 0, Quiet(w0), Board(f, wiring));
            && w == Quiet(r.1)
            && (ok <==> r.0.phase == Idle) && (!ok <==> r.0.phase == Failed)
  {
    TicksKeepStep(steps, w0, g, f, wiring, clock);
  }

  /** The recorded answers of any finished run of ticks drive the blocking run to the same end. */
  lemma ReplayedRunAgrees(steps: seq<Op>, w0: World, g: Oracle, wiring: Wiring, clock: seq<Moment>)
    requires NoMoves(steps) && 0 < |steps| <= MAX_STEPS
    requires !IsRunning(RunTicks(Start(STOPPED, steps, false).1, w0, Board(g, wiring), clock).0)
    ensures var r := RunTicks(Start(STOPPED, steps, false).1, w0, Board(g, wiring), clock);
            RunImmediate(steps, 0, Quiet(w0), Board(Replay(r.1.log), wiring)) == (r.0.phase == Idle, Quiet(r.1))
  {
    var r := RunTicks(Start(STOPPED, steps, false).1, w0, Board(g, wiring), clock);
    TicksRefineImmediate(steps, w0, g, Replay(r.1.log), wiring, clock);
  }
}
