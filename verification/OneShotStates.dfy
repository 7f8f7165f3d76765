/** A one-shot state runs its sequence once and then advances: in how many ticks, and
    after how much time. */
module OneShotStates {
  import opened MicroOps
  import opened ExecutorSpec
  import opened ExecutorProgress
  import opened ControllerSpec
  import opened ControllerRuns

  predicate OneShot(s: State) {
    NextAfterSequence(s) != s
  }

  /** One tick on a real clock; the main-tick executor reads the clock at `a`. */
  datatype TimedTick = TimedTick(w: World, m: Machine, a: Moment, at: Instant)

  function AsInput(t: TimedTick): Input {
    Ticked(t.w, t.m, t.a, Seen(t.at))
  }

  function After(c: Controller, cfg: Sequences, ticks: seq<TimedTick>): (r: Controller)
    requires Valid(c)
    ensures Valid(r)
  {
    if ticks == [] then c
    else Step(After(c, cfg, ticks[..|ticks| - 1]), cfg, AsInput(ticks[|ticks| - 1]))
  }

  lemma {:induction false} AfterIsRun(c: Controller, cfg: Sequences, ticks: seq<TimedTick>)
    requires Valid(c)
    ensures After(c, cfg, ticks) == Run(c, cfg, seq(|ticks|, i requires 0 <= i < |ticks| => AsInput(ticks[i])))
  {
    if ticks != [] {
      var n := |ticks| - 1;
      var inputs := seq(|ticks|, i requires 0 <= i < |ticks| => AsInput(ticks[i]));
      AfterIsRun(c, cfg, ticks[..n]);
      assert inputs[..n] == seq(n, i requires 0 <= i < n => AsInput(ticks[..n][i]));
    }
  }

  /** The main-tick sequence does not move the controller in this tick. */
  predicate MainStays(c: Controller, t: TimedTick)
    requires Valid(c)
  {
    TickMove(c.main, t.w, t.m, t.a.now).NoMove?
  }

  function MainDone(c: Controller, cfg: Sequences, t: TimedTick): (r: (Controller, World))
    requires Valid(c)
    ensures Valid(r.0)
  {
    TickMain(c, cfg, t.w, t.m, t.a)
  }

  predicate TickStalls(c: Controller, cfg: Sequences, t: TimedTick)
    requires Valid(c)
  {
    var (c1, w1) := MainDone(c, cfg, t);
    Stalls(c1.seqx, w1, t.m, Seen(t.at).now)
  }

  function TickDelay(c: Controller, cfg: Sequences, t: TimedTick): nat
    requires Valid(c)
  {
    var (c1, w1) := MainDone(c, cfg, t);
    DelayStarted(c1.seqx, w1, t.m, Seen(t.at).now)
  }

  /** Only these ticks act on the controller: time goes on and nothing else changes its state. */
  ghost predicate Undisturbed(c: Controller, cfg: Sequences, ticks: seq<TimedTick>)
    requires Valid(c)
  {
    ticks != [] ==>
      var n := |ticks| - 1;
      && Undisturbed(c, cfg, ticks[..n])
      && MainStays(After(c, cfg, ticks[..n]), ticks[n])
      && (if n == 0 then 0 else ticks[n - 1].at.begin) <= ticks[n].at.now <= ticks[n].at.begin
  }

  function UnstalledTicks(c: Controller, cfg: Sequences, ticks: seq<TimedTick>): nat
    requires Valid(c)
  {
    if ticks == [] then 0
    else
      var n := |ticks| - 1;
      UnstalledTicks(c, cfg, ticks[..n]) + if TickStalls(After(c, cfg, ticks[..n]), cfg, ticks[n]) then 0 else 1
  }

  /** The length of all delays the state's sequence has started. */
  function DelaysTaken(c: Controller, cfg: Sequences, ticks: seq<TimedTick>): nat
    requires Valid(c)
  {
    if ticks == [] then 0
    else
      var n := |ticks| - 1;
      DelaysTaken(c, cfg, ticks[..n]) + TickDelay(After(c, cfg, ticks[..n]), cfg, ticks[n])
  }

  /** The controller has just entered `s`, or is running the sequence of `s`. */
  ghost predicate Inside(c: Controller, cfg: Sequences, s: State) {
    && Bound(c, cfg) && c.state == s
    && (if c.started then IsRunning(c.seqx) else c.seqx == STOPPED)
  }

  ghost function Left(c: Controller, cfg: Sequences): nat
    requires Valid(c) && StateSequence(cfg, c.state).Sequence?
  {
    if c.started then Budget(c.seqx) else 2 + DelaysFrom(StateSequence(cfg, c.state).steps, 0)
  }

  ghost predicate Runnable(cfg: Sequences, s: State) {
    && OneShot(s)
    && NoMoves(StateSequence(cfg, s).steps) && |StateSequence(cfg, s).steps| <= MAX_STEPS
  }

  /** The tick `t` finds the controller running the one-shot state it is in. */
  ghost predicate InRun(c: Controller, cfg: Sequences, t: TimedTick)
    requires Valid(c)
  {
    Inside(c, cfg, c.state) && Runnable(cfg, c.state) && MainStays(c, t)
  }

  /** One tick in a one-shot state: on to the successor, or one unstalled tick less to go. */
  lemma TickInside(c: Controller, cfg: Sequences, t: TimedTick)
    requires Valid(c) && InRun(c, cfg, t)
    ensures var c' := Step(c, cfg, AsInput(t));
            || c'.state == NextAfterSequence(c.state)
            || (Inside(c', cfg, c.state) && Left(c', cfg) + (if TickStalls(c, cfg, t) then 0 else 1) <= Left(c, cfg))
  {
    var (c1, w1) := MainDone(c, cfg, t);
    assert c1.state == c.state && c1.seqx == c.seqx && c1.started == c.started;
    if c1.started {
      var steps := c1.seqx.active.steps;
      TickSpendsBudget(c1.seqx, w1, t.m, Seen(t.at));
      if Advances(c1.seqx, Seen(t.at).now) {
        NoMoveNoMoved(steps, Resumed(c1.seqx).index, w1, t.m);
      }
    }
    StepKeepsBoundHere(c, cfg, t);
  }

  lemma StepKeepsBoundHere(c: Controller, cfg: Sequences, t: TimedTick)
    requires Bound(c, cfg) && Runnable(cfg, c.state) && MainStays(c, t)
    ensures Bound(Step(c, cfg, AsInput(t)), cfg)
  {
    var (c1, w1) := MainDone(c, cfg, t);
    MainTickKeepsBound(c, cfg, t.w, t.m, t.a);
    if Advances(c1.seqx, Seen(t.at).now) {
      NoMoveNoMoved(c1.seqx.active.steps, Resumed(c1.seqx).index, w1, t.m);
    }
    StateTickKeepsBound(c1, cfg, w1, t.m, Seen(t.at));
  }

  ghost predicate Entered(c: Controller, cfg: Sequences) {
    Inside(c, cfg, c.state) && !c.started && Runnable(cfg, c.state)
  }

  /** A command that changes the state to a one-shot state leaves the controller at the
      start of that state's run. */
  lemma CommandsEnter(c: Controller, cfg: Sequences, s: State)
    requires Bound(c, cfg) && c.state != s && Runnable(cfg, s) && Request(c, s).1.state == s
    ensures Entered(Request(c, s).1, cfg)
  {
  }

  /** A tick never leads into a one-shot state. */
  lemma TicksNeverEnter(c: Controller, cfg: Sequences, t: TimedTick, s: State)
    requires Valid(c) && OneShot(s) && Step(c, cfg, AsInput(t)).state == s
    ensures c.state == s
  {
    StepTakesAnEdge(c, cfg, AsInput(t));
  }

  lemma {:induction false} StillInside(c: Controller, cfg: Sequences, ticks: seq<TimedTick>)
    requires Entered(c, cfg) && Undisturbed(c, cfg, ticks)
    requires After(c, cfg, ticks).state == c.state
    ensures var c' := After(c, cfg, ticks);
            && Inside(c', cfg, c.state)
            && UnstalledTicks(c, cfg, ticks) + Left(c', cfg) <= Left(c, cfg)
  {
    if ticks != [] {
      var n := |ticks| - 1;
      var b := After(c, cfg, ticks[..n]);
      TicksNeverEnter(b, cfg, ticks[n], c.state);
      StillInside(c, cfg, ticks[..n]);
      TickInside(b, cfg, ticks[n]);
    }
  }

  /** Just before the last tick, the controller was inside the state. */
  lemma BeforeLastTick(c: Controller, cfg: Sequences, ticks: seq<TimedTick>)
    requires Entered(c, cfg) && Undisturbed(c, cfg, ticks) && ticks != []
    requires After(c, cfg, ticks[..|ticks| - 1]).state == c.state || After(c, cfg, ticks).state == c.state
    ensures var n := |ticks| - 1;
            var b := After(c, cfg, ticks[..n]);
            && Undisturbed(c, cfg, ticks[..n])
            && b.state == c.state && InRun(b, cfg, ticks[n])
            && After(c, cfg, ticks) == Step(b, cfg, AsInput(ticks[n]))
  {
    var n := |ticks| - 1;
    if After(c, cfg, ticks).state == c.state {
      TicksNeverEnter(After(c, cfg, ticks[..n]), cfg, ticks[n], c.state);
    }
    StillInside(c, cfg, ticks[..n]);
  }

  /** A one-shot state whose sequence has D delays is left, and left to its successor,
      within D + 2 ticks that are not stalled by a pending delay or a busy bus - whether
      the sequence succeeds or fails. */
  lemma OneShotAdvances(c: Controller, cfg: Sequences, ticks: seq<TimedTick>)
    requires Entered(c, cfg) && Undisturbed(c, cfg, ticks)
    ensures UnstalledTicks(c, cfg, ticks) >= DelaysFrom(StateSequence(cfg, c.state).steps, 0) + 2 ==>
              After(c, cfg, ticks).state != c.state
    ensures ticks != [] && After(c, cfg, ticks[..|ticks| - 1]).state == c.state ==>
              After(c, cfg, ticks).state == c.state || After(c, cfg, ticks).state == NextAfterSequence(c.state)
  {
    if After(c, cfg, ticks).state == c.state {
      StillInside(c, cfg, ticks);
    }
    if ticks != [] && After(c, cfg, ticks[..|ticks| - 1]).state == c.state {
      BeforeLastTick(c, cfg, ticks);
      TickInside(After(c, cfg, ticks[..|ticks| - 1]), cfg, ticks[|ticks| - 1]);
    }
  }

  lemma OverlongTickStays(c: Controller, cfg: Sequences, t: TimedTick)
    requires Valid(c) && !c.started && c.seqx == STOPPED && MainStays(c, t)
    requires OneShot(c.state) && |StateSequence(cfg, c.state).steps| > MAX_STEPS
    ensures var c' := Step(c, cfg, AsInput(t));
            c'.state == c.state && !c'.started && c'.seqx == STOPPED
  {
  }

  /** The limit on the length is sharp: a longer sequence is never started, and the
      controller stays in the state. */
  lemma {:induction false} OverlongOneShotStays(c: Controller, cfg: Sequences, ticks: seq<TimedTick>)
    requires Inside(c, cfg, c.state) && !c.started && Undisturbed(c, cfg, ticks)
    requires OneShot(c.state) && |StateSequence(cfg, c.state).steps| > MAX_STEPS
    ensures var c' := After(c, cfg, ticks);
            c'.state == c.state && !c'.started && c'.seqx == STOPPED
    decreases |ticks|
  {
    if ticks != [] {
      var n := |ticks| - 1;
      OverlongOneShotStays(c, cfg, ticks[..n]);
      OverlongTickStays(After(c, cfg, ticks[..n]), cfg, ticks[n]);
    }
  }

  // ---------------------------------------------------------------- time

  /** The delays of the state's sequence fit into the time spent, tick by tick. */
  lemma {:induction false} DelaysAccounted(c: Controller, cfg: Sequences, ticks: seq<TimedTick>) returns (since: nat)
    requires Entered(c, cfg) && Undisturbed(c, cfg, ticks) && ticks != []
    requires After(c, cfg, ticks).state == c.state
    ensures Accounted(After(c, cfg, ticks).seqx, DelaysTaken(c, cfg, ticks), since,
                      ticks[0].at.now, ticks[|ticks| - 1].at.begin)
    decreases |ticks|, 1
  {
    var b, total, before, t := AccountedBefore(c, cfg, ticks);
    since := TickDelaysAccounted(b, cfg, ticks[|ticks| - 1], total, before, ticks[0].at.now, t);
  }

  /** The controller `b` before the last tick, the delays `total` up to then, and the time `t`
      where that tick begins at the earliest. */
  lemma AccountedBefore(c: Controller, cfg: Sequences, ticks: seq<TimedTick>)
    returns (b: Controller, total: nat, since: nat, t: nat)
    requires Entered(c, cfg) && Undisturbed(c, cfg, ticks) && ticks != []
    requires After(c, cfg, ticks[..|ticks| - 1]).state == c.state || After(c, cfg, ticks).state == c.state
    ensures var last := ticks[|ticks| - 1];
            && Valid(b) && b.state == c.state && InRun(b, cfg, last)
            && After(c, cfg, ticks) == Step(b, cfg, AsInput(last))
            && DelaysTaken(c, cfg, ticks) == total + TickDelay(b, cfg, last)
            && Accounted(b.seqx, total, since, ticks[0].at.now, t) && t <= last.at.now <= last.at.begin
    decreases |ticks|, 0
  {
    var n := |ticks| - 1;
    b, total := After(c, cfg, ticks[..n]), DelaysTaken(c, cfg, ticks[..n]);
    BeforeLastTick(c, cfg, ticks);
    DelaysGrow(c, cfg, ticks);
    since, t := 0, ticks[0].at.now;
    if n > 0 {
      since := DelaysAccounted(c, cfg, ticks[..n]);
      t := ticks[n - 1].at.begin;
      assert ticks[..n][0] == ticks[0] && ticks[..n][n - 1] == ticks[n - 1];
    }
  }

  lemma DelaysGrow(c: Controller, cfg: Sequences, ticks: seq<TimedTick>)
    requires Valid(c) && ticks != []
    ensures var n := |ticks| - 1;
            DelaysTaken(c, cfg, ticks)
              == DelaysTaken(c, cfg, ticks[..n]) + TickDelay(After(c, cfg, ticks[..n]), cfg, ticks[n])
  {
  }

  lemma TickDelaysAccounted(
    c: Controller, cfg: Sequences, t: TimedTick, total: nat, before: nat, first: nat, last: nat)
    returns (since: nat)
    requires Valid(c) && InRun(c, cfg, t)
    requires Accounted(c.seqx, total, before, first, last) && last <= t.at.now <= t.at.begin
    ensures Accounted(Tick(c.seqx, MainDone(c, cfg, t).1, t.m, Seen(t.at).now, Seen(t.at).begin).0,
                      total + TickDelay(c, cfg, t), since, first, t.at.begin)
    ensures Step(c, cfg, AsInput(t)).state == c.state ==>
            Accounted(Step(c, cfg, AsInput(t)).seqx, total + TickDelay(c, cfg, t), since, first, t.at.begin)
  {
    var (c1, w1) := MainDone(c, cfg, t);
    assert c1.state == c.state && c1.seqx == c.seqx && c1.started == c.started;
    TickAccounts(c1.seqx, w1, t.m, total, before, first, last, t.at);
    since := if Advances(c1.seqx, Seen(t.at).now) && ExitOf(c1.seqx, w1, t.m).Sleeping? then t.at.begin else before;
    if Advances(c1.seqx, Seen(t.at).now) {
      NoMoveNoMoved(c1.seqx.active.steps, Resumed(c1.seqx).index, w1, t.m);
    }
  }

  /** When a one-shot state is left, at least the sum of the delays its sequence started
      has passed since its first tick, even across a wrap of the 32-bit clock. */
  lemma OneShotTakesItsDelays(c: Controller, cfg: Sequences, ticks: seq<TimedTick>)
    requires Entered(c, cfg) && Undisturbed(c, cfg, ticks) && ticks != []
    requires After(c, cfg, ticks[..|ticks| - 1]).state == c.state
    requires After(c, cfg, ticks).state != c.state
    ensures DelaysTaken(c, cfg, ticks) <= ticks[|ticks| - 1].at.begin - ticks[0].at.now
  {
    var last := ticks[|ticks| - 1];
    var b, total, before, t := AccountedBefore(c, cfg, ticks);
    var _ := TickDelaysAccounted(b, cfg, last, total, before, ticks[0].at.now, t);
    LeavingMeansDone(b, cfg, last);
  }

  lemma LeavingMeansDone(c: Controller, cfg: Sequences, t: TimedTick)
    requires Valid(c) && InRun(c, cfg, t)
    requires Step(c, cfg, AsInput(t)).state != c.state
    ensures !IsRunning(Tick(c.seqx, MainDone(c, cfg, t).1, t.m, Seen(t.at).now, Seen(t.at).begin).0)
  {
    var (c1, w1) := MainDone(c, cfg, t);
    assert c1.state == c.state && c1.seqx == c.seqx && c1.started == c.started;
    if Advances(c1.seqx, Seen(t.at).now) {
      NoMoveNoMoved(c1.seqx.active.steps, Resumed(c1.seqx).index, w1, t.m);
    }
  }
}
