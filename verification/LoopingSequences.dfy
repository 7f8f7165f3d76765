/** A looping sequence is the blocking run repeated: every pass starts at the first step, in the
    world the pass before it has left, and passes go on ending for ever. */
module LoopingSequences {
  import opened Bytes
  import opened MicroOps
  import opened ExecutorSpec
  import opened ExecutorEquivalence
  import opened ExecutorProgress
  import opened StructuredPrograms

  /** `n` blocking runs one after the other; the first that fails ends everything. */
  function Passes(steps: seq<Op>, n: nat, w: World, m: Machine): (bool, World) {
    if n == 0 then (true, w)
    else
      var (ok, w') := Passes(steps, n - 1, w, m);
      if ok then RunImmediate(steps, 0, w', m) else (false, w')
  }

  predicate EndsPass(c: Core, w: World, m: Machine, now: uint32)
    requires WellFormed(c)
  {
    Advances(c, now) && ExitOf(c, w, m).Finished?
  }

  /** How many ticks came to the end of the sequence. */
  function PassesEnded(c: Core, w: World, m: Machine, clock: seq<Moment>): nat
    requires WellFormed(c)
  {
    if clock == [] then 0
    else
      var n := |clock| - 1;
      var (c', w') := RunTicks(c, w, m, clock[..n]);
      PassesEnded(c, w, m, clock[..n]) + if EndsPass(c', w', m, clock[n].now) then 1 else 0
  }

  // ---------------------------------------------------------------- what a loop does

  /** `ended` passes are over, and what is left of the next one leads where all of it would. */
  ghost predicate InPass(steps: seq<Op>, ended: nat, w0: World, c: Core, w: World, m: Machine) {
    match c.phase
    case Idle => false
    case Completed => false
    case Failed => Passes(steps, ended + 1, w0, m) == (false, Quiet(w))
    case _ =>
      && WellFormed(c) && c.active == Sequence(steps) && c.loop && Passes(steps, ended, w0, m).0
      && Passes(steps, ended + 1, w0, m) == RunImmediate(steps, Resumed(c).index, Quiet(w), m)
  }

  /** A tick that ends a pass leaves the world of so many blocking runs, and the executor at the
      first step. */
  ghost predicate AtPassEnd(steps: seq<Op>, ended: nat, w0: World, c: Core, w: World, m: Machine) {
    Passes(steps, ended, w0, m) == (true, Quiet(w)) && c.phase == Running && c.index == 0
  }

  lemma TickKeepsPass(
    steps: seq<Op>, ended: nat, w0: World, c: Core, w: World, g: Oracle, f: Oracle, wiring: Wiring, at: Moment)
    requires WellFormed(c) && NoMoves(steps) && InPass(steps, ended, w0, c, w, Board(f, wiring))
    requires Agrees(f, Tick(c, w, Board(g, wiring), at.now, at.begin).1.log)
    ensures var (c', w') := Tick(c, w, Board(g, wiring), at.now, at.begin);
            if EndsPass(c, w, Board(g, wiring), at.now)
            then InPass(steps, ended + 1, w0, c', w', Board(f, wiring))
                 && AtPassEnd(steps, ended + 1, w0, c', w', Board(f, wiring))
            else InPass(steps, ended, w0, c', w', Board(f, wiring))
  {
    if Advances(c, at.now) {
      AdvanceMatches(steps, Resumed(c).index, w, g, f, wiring);
      SettledInPass(steps, ended, w0, Resumed(c), ExitOf(c, w, Board(g, wiring)), at.begin, Board(f, wiring));
    }
  }

  lemma SettledInPass(steps: seq<Op>, ended: nat, w0: World, c: Core, x: Exit, begin: uint32, m: Machine)
    requires x.Sleeping? || x.Stalled? || x.Aborted? ==> x.at < |steps|
    requires c.active == Sequence(steps) && c.loop && c.phase == Running && !x.Moved?
    requires Passes(steps, ended, w0, m).0 && Passes(steps, ended + 1, w0, m) == Remainder(steps, x, m)
    ensures var c' := Settle(c, x, begin);
            if x.Finished? then InPass(steps, ended + 1, w0, c', x.w, m) && AtPassEnd(steps, ended + 1, w0, c', x.w, m)
            else InPass(steps, ended, w0, c', x.w, m)
  {
    var c' := Settle(c, x, begin);
    match x
    case Finished(w) => PassAgain(steps, ended + 1, w0, m);
    case Sleeping(at, _, _) => assert Resumed(c').index == at + 1;
    case Stalled(at, _) => assert Resumed(c').index == at;
    case Aborted(_, _) =>
    case Moved(_, _) =>
  }

  lemma PassAgain(steps: seq<Op>, n: nat, w: World, m: Machine)
    requires Passes(steps, n, w, m).0
    ensures Passes(steps, n + 1, w, m) == RunImmediate(steps, 0, Passes(steps, n, w, m).1, m)
  {
  }

  /** After any ticks in which `k` passes have ended, the quiet world is that of `k` blocking runs,
      each begun at the first step in the world the one before it left, followed by the part of
      the next one that is done; the loop stops only when one of these runs fails. */
  lemma {:induction false} LoopRepeatsBlockingRun(
    steps: seq<Op>, w0: World, g: Oracle, f: Oracle, wiring: Wiring, clock: seq<Moment>)
    requires NoMoves(steps) && 0 < |steps| <= MAX_STEPS
    requires Agrees(f, RunTicks(Start(STOPPED, steps, true).1, w0, Board(g, wiring), clock).1.log)
    ensures var c0, m := Start(STOPPED, steps, true).1, Board(g, wiring);
            var (c, w) := RunTicks(c0, w0, m, clock);
            InPass(steps, PassesEnded(c0, w0, m, clock), Quiet(w0), c, w, Board(f, wiring))
  {
    var c0, m := Start(STOPPED, steps, true).1, Board(g, wiring);
    if clock == [] {
      PassAgain(steps, 0, Quiet(w0), Board(f, wiring));
    } else {
      var n := |clock| - 1;
      var (c, w) := RunTicks(c0, w0, m, clock[..n]);
      TickLogGrows(c, w, g, wiring, clock[n]);
      AgreesOnPrefix(f, w.log, Tick(c, w, m, clock[n].now, clock[n].begin).1.log);
      LoopRepeatsBlockingRun(steps, w0, g, f, wiring, clock[..n]);
      TickKeepsPass(steps, PassesEnded(c0, w0, m, clock[..n]), Quiet(w0), c, w, g, f, wiring, clock[n]);
    }
  }

  /** A tick that ends a pass leaves exactly the world of so many blocking runs, and the next tick
      runs the steps from the first one on. With the lemma above this holds at any time of a run. */
  lemma EndedPassStartsOver(
    steps: seq<Op>, ended: nat, w0: World, c: Core, w: World, g: Oracle, f: Oracle, wiring: Wiring, at: Moment, next: Moment)
    requires WellFormed(c) && NoMoves(steps) && InPass(steps, ended, w0, c, w, Board(f, wiring))
    requires Agrees(f, Tick(c, w, Board(g, wiring), at.now, at.begin).1.log) && EndsPass(c, w, Board(g, wiring), at.now)
    ensures var m := Board(g, wiring);
            var (c', w') := Tick(c, w, m, at.now, at.begin);
            && Passes(steps, ended + 1, w0, Board(f, wiring)) == (true, Quiet(w'))
            && Tick(c', w', m, next.now, next.begin).1 == Advance(steps, 0, w', m).w
  {
    TickKeepsPass(steps, ended, w0, c, w, g, f, wiring, at);
    var r := Tick(c, w, Board(g, wiring), at.now, at.begin);
    RunsFromFirstStep(steps, r.0, r.1, Board(g, wiring), next);
  }

  lemma RunsFromFirstStep(steps: seq<Op>, c: Core, w: World, m: Machine, at: Moment)
    requires WellFormed(c) && c.active == Sequence(steps) && c.phase == Running && c.index == 0
    ensures Tick(c, w, m, at.now, at.begin).1 == Advance(steps, 0, w, m).w
  {
  }

  // ---------------------------------------------------------------- nested programs

  /** The meaning of a nested program, `n` times over. */
  function Repeated(b: Block, n: nat, w: World, m: Machine): (bool, World) {
    if n == 0 then (true, w)
    else
      var (ok, w') := Repeated(b, n - 1, w, m);
      if ok then Meaning(b, w', m) else (false, w')
  }

  /** Repeating the flat form of a program is repeating the program. */
  lemma {:induction false} PassesRepeatMeaning(b: Block, n: nat, w: World, m: Machine)
    requires Proper(b)
    ensures Passes(Flatten(b), n, w, m) == Repeated(b, n, w, m)
  {
    if n > 0 {
      PassesRepeatMeaning(b, n - 1, w, m);
      FlatteningPreservesMeaning(b, Repeated(b, n - 1, w, m).1, m);
    }
  }

  // ---------------------------------------------------------------- that it goes on

  function UnstalledTicks(c: Core, w: World, m: Machine, clock: seq<Moment>): nat
    requires WellFormed(c)
  {
    if clock == [] then 0
    else
      var n := |clock| - 1;
      var (c', w') := RunTicks(c, w, m, clock[..n]);
      UnstalledTicks(c, w, m, clock[..n]) + if Stalls(c', w', m, clock[n].now) then 0 else 1
  }

  /** Every unstalled tick of a looping sequence uses up budget or ends the pass, and only the end
      of a pass gives a new budget. */
  lemma LoopSpendsBudget(c: Core, w: World, m: Machine, at: Moment)
    requires WellFormed(c) && IsRunning(c) && c.active.Sequence? && c.loop
    ensures var c' := Tick(c, w, m, at.now, at.begin).0;
            IsRunning(c') ==>
              && c'.active == c.active && c'.loop
              && if EndsPass(c, w, m, at.now) then Budget(c') == 1 + DelaysFrom(c.active.steps, 0) && Budget(c) >= 1
                 else Budget(c') + (if Stalls(c, w, m, at.now) then 0 else 1) <= Budget(c)
  {
    if Advances(c, at.now) {
      var steps, i := c.active.steps, Resumed(c).index;
      var x := ExitOf(c, w, m);
      if x.Stalled? {
        FewerDelaysLater(steps, i, x.at);
      } else if x.Sleeping? {
        StopsAtDelay(steps, i, w, m);
        FewerDelaysLater(steps, i, x.at);
      }
    }
  }

  /** A looping sequence with D delays that is still running has ended a pass for every D + 1
      unstalled ticks. */
  lemma {:induction false} LoopKeepsEndingPasses(steps: seq<Op>, w0: World, m: Machine, clock: seq<Moment>, passes: nat)
    requires 0 < |steps| <= MAX_STEPS
    requires IsRunning(RunTicks(Start(STOPPED, steps, true).1, w0, m, clock).0)
    ensures var c0, d := Start(STOPPED, steps, true).1, DelaysFrom(steps, 0);
            UnstalledTicks(c0, w0, m, clock) >= passes * (d + 1) ==> PassesEnded(c0, w0, m, clock) >= passes
  {
    var c0, d := Start(STOPPED, steps, true).1, DelaysFrom(steps, 0);
    TicksPayForPasses(steps, w0, m, clock);
    var ended := PassesEnded(c0, w0, m, clock);
    if UnstalledTicks(c0, w0, m, clock) >= passes * (d + 1) && ended < passes {
      Multiples(ended, passes, d + 1);
    }
  }

  lemma {:induction false} Multiples(a: nat, b: nat, k: nat)
    requires a < b
    ensures a * k + k <= b * k
  {
    OneMore(b - 1, k);
    if a < b - 1 {
      Multiples(a, b - 1, k);
    }
  }

  lemma OneMore(a: nat, k: nat)
    ensures (a + 1) * k == a * k + k
  {
  }

  /** So many passes, and the one going on, have had a budget for these ticks. */
  predicate Paid(ticks: nat, budget: nat, ended: nat, delays: nat) {
    ticks + budget <= ended * (delays + 1) + (delays + 1)
  }

  lemma PaidOn(ticks: nat, budget: nat, ended: nat, delays: nat, spent: nat, left: nat)
    requires Paid(ticks, budget, ended, delays) && spent <= 1
    ensures left + spent <= budget ==> Paid(ticks + spent, left, ended, delays)
    ensures budget >= 1 && left == delays + 1 ==> Paid(ticks + spent, left, ended + 1, delays)
  {
    OneMore(ended, delays + 1);
  }

  lemma {:induction false} TicksPayForPasses(steps: seq<Op>, w0: World, m: Machine, clock: seq<Moment>)
    requires 0 < |steps| <= MAX_STEPS
    requires IsRunning(RunTicks(Start(STOPPED, steps, true).1, w0, m, clock).0)
    ensures var c0 := Start(STOPPED, steps, true).1;
            var c := RunTicks(c0, w0, m, clock).0;
            && c.active == Sequence(steps) && c.loop && Budget(c) >= 1
            && Paid(UnstalledTicks(c0, w0, m, clock), Budget(c), PassesEnded(c0, w0, m, clock), DelaysFrom(steps, 0))
  {
    var c0, d := Start(STOPPED, steps, true).1, DelaysFrom(steps, 0);
    if clock != [] {
      var n := |clock| - 1;
      var (c, w) := RunTicks(c0, w0, m, clock[..n]);
      assert IsRunning(c);
      TicksPayForPasses(steps, w0, m, clock[..n]);
      LoopSpendsBudget(c, w, m, clock[n]);
      var c' := Tick(c, w, m, clock[n].now, clock[n].begin).0;
      PaidOn(UnstalledTicks(c0, w0, m, clock[..n]), Budget(c), PassesEnded(c0, w0, m, clock[..n]), d,
             if Stalls(c, w, m, clock[n].now) then 0 else 1, Budget(c'));
    }
  }
}
