/** Nested IF blocks and their flat form: an IF step carries the flattened length of its
    body and jumps over it. */
module StructuredPrograms {
  import opened Bytes
  import opened Interface
  import opened MicroOps
  import opened ExecutorSpec
  import opened ExecutorEquivalence

  datatype Block =
    | End
    | Then(op: Op, rest: Block)
    | When(first: byte, compare: Compare, second: byte, body: Block, rest: Block)

  /** Conditions appear only as blocks. */
  predicate Proper(b: Block) {
    match b
    case End => true
    case Then(op, rest) => !op.IfCondition? && Proper(rest)
    case When(_, _, _, body, rest) => Proper(body) && Proper(rest)
  }

  function Flatten(b: Block): seq<Op> {
    match b
    case End => []
    case Then(op, rest) => [op] + Flatten(rest)
    case When(first, compare, second, body, rest) =>
      [IfCondition(first, compare, second, |Flatten(body)|)] + Flatten(body) + Flatten(rest)
  }

  /** What a block does: a body runs iff its condition holds, and the first failing step
      ends everything. There are no positions and no jumps here. */
  function Meaning(b: Block, w: World, m: Machine): (bool, World) {
    match b
    case End => (true, w)
    case Then(op, rest) =>
      if op.DelayMs? then Meaning(rest, w.(pauses := w.pauses + [op.ms]), m)
      else
        var (status, w') := m(op, w);
        if status == Ok then Meaning(rest, w', m) else (false, w')
    case When(first, compare, second, body, rest) =>
      var test := IfCondition(first, compare, second, 0);
      if !ConditionAllowed(test, |w.vars|) then (false, w)
      else if !Holds(test, w.vars) then Meaning(rest, w, m)
      else
        var (ok, w') := Meaning(body, w, m);
        if ok then Meaning(rest, w', m) else (false, w')
  }

  /** Continue the flat program at `i` if the block so far succeeded. */
  function Continue(r: (bool, World), steps: seq<Op>, i: nat, m: Machine): (bool, World)
    requires i <= |steps|
  {
    if r.0 then RunImmediate(steps, i, r.1, m) else r
  }

  /** The flat program has block `b` at position `i`. */
  ghost predicate BlockAt(steps: seq<Op>, i: nat, b: Block) {
    i + |Flatten(b)| <= |steps| && steps[i..i + |Flatten(b)|] == Flatten(b)
  }

  /** A flattened block placed anywhere in a flat program does what the block means. */
  lemma {:induction false} FlatBlockRuns(
    steps: seq<Op>, i: nat, b: Block, w: World, m: Machine)
    requires Proper(b) && BlockAt(steps, i, b)
    ensures RunImmediate(steps, i, w, m)
         == Continue(Meaning(b, w, m), steps, i + |Flatten(b)|, m)
    decreases b, 2
  {
    match b
    case End =>
    case Then(_, _) => FlatThenRuns(steps, i, b, w, m);
    case When(_, _, _, _, _) => FlatWhenRuns(steps, i, b, w, m);
  }

  lemma {:induction false} FlatThenRuns(
    steps: seq<Op>, i: nat, b: Block, w: World, m: Machine)
    requires b.Then? && Proper(b) && BlockAt(steps, i, b)
    ensures RunImmediate(steps, i, w, m)
         == Continue(Meaning(b, w, m), steps, i + |Flatten(b)|, m)
    decreases b, 0
  {
    var flat := steps[i..i + |Flatten(b)|];
    assert steps[i] == flat[0] == b.op;
    assert steps[i + 1..i + |Flatten(b)|] == flat[1..];
    if b.op.DelayMs? {
      FlatBlockRuns(steps, i + 1, b.rest, w.(pauses := w.pauses + [b.op.ms]), m);
    } else {
      var (status, w') := m(b.op, w);
      if status == Ok {
        FlatBlockRuns(steps, i + 1, b.rest, w', m);
      }
    }
  }

  lemma {:induction false} FlatWhenRuns(
    steps: seq<Op>, i: nat, b: Block, w: World, m: Machine)
    requires b.When? && Proper(b) && BlockAt(steps, i, b)
    ensures RunImmediate(steps, i, w, m)
         == Continue(Meaning(b, w, m), steps, i + |Flatten(b)|, m)
    decreases b, 1
  {
    WhenLayout(steps, i, b);
    WhenMeans(b, w, m);
    RunOverIf(steps, i, w, m);
    if ConditionAllowed(steps[i], |w.vars|) {
      if Holds(steps[i], w.vars) {
        BodyThenRestRun(steps, i + 1, b, w, m);
      } else {
        RestRuns(steps, i + 1 + |Flatten(b.body)|, b, w, m, i + |Flatten(b)|);
      }
    }
  }

  lemma {:induction false} RestRuns(steps: seq<Op>, i: nat, b: Block, w: World, m: Machine, end: nat)
    requires b.When? && Proper(b) && BlockAt(steps, i, b.rest) && end == i + |Flatten(b.rest)|
    ensures RunImmediate(steps, i, w, m) == Continue(Meaning(b.rest, w, m), steps, end, m)
    decreases b, 0
  {
    FlatBlockRuns(steps, i, b.rest, w, m);
  }

  lemma {:induction false} BodyThenRestRun(steps: seq<Op>, i: nat, b: Block, w: World, m: Machine)
    requires b.When? && Proper(b)
    requires BlockAt(steps, i, b.body) && BlockAt(steps, i + |Flatten(b.body)|, b.rest)
    ensures var r := Meaning(b.body, w, m);
            var all := if r.0 then Meaning(b.rest, r.1, m) else r;
            RunImmediate(steps, i, w, m) == Continue(all, steps, i + |Flatten(b.body)| + |Flatten(b.rest)|, m)
    decreases b, 0
  {
    FlatBlockRuns(steps, i, b.body, w, m);
    var r := Meaning(b.body, w, m);
    if r.0 {
      FlatBlockRuns(steps, i + |Flatten(b.body)|, b.rest, r.1, m);
    }
  }

  lemma WhenMeans(b: Block, w: World, m: Machine)
    requires b.When?
    ensures var test := IfCondition(b.first, b.compare, b.second, |Flatten(b.body)|);
            Meaning(b, w, m) ==
              if !ConditionAllowed(test, |w.vars|) then (false, w)
              else if !Holds(test, w.vars) then Meaning(b.rest, w, m)
              else
                var r := Meaning(b.body, w, m);
                if r.0 then Meaning(b.rest, r.1, m) else r
  {
    var r := Meaning(b.body, w, m);
    assert r == (r.0, r.1);
  }

  lemma WhenLayout(steps: seq<Op>, i: nat, b: Block)
    requires b.When? && BlockAt(steps, i, b)
    ensures var n := |Flatten(b.body)|;
            && |Flatten(b)| == 1 + n + |Flatten(b.rest)|
            && steps[i] == IfCondition(b.first, b.compare, b.second, n)
            && BlockAt(steps, i + 1, b.body) && BlockAt(steps, i + 1 + n, b.rest)
  {
    WhenFlattened(b);
    var x, y := Flatten(b.body), Flatten(b.rest);
    SliceParts(steps, i, IfCondition(b.first, b.compare, b.second, |x|), x, y);
    assert steps[i + 1 + |x|..i + 1 + |x| + |y|] == y;
  }

  lemma WhenFlattened(b: Block)
    requires b.When?
    ensures Flatten(b) == [IfCondition(b.first, b.compare, b.second, |Flatten(b.body)|)] + Flatten(b.body) + Flatten(b.rest)
  {
  }

  lemma SliceParts<T>(s: seq<T>, i: nat, head: T, x: seq<T>, y: seq<T>)
    requires i + 1 + |x| + |y| <= |s| && s[i..i + 1 + |x| + |y|] == [head] + x + y
    ensures s[i] == head && s[i + 1..i + 1 + |x|] == x && s[i + 1 + |x|..i + 1 + |x| + |y|] == y
  {
    var t := s[i..i + 1 + |x| + |y|];
    assert s[i] == t[0] == head;
    forall k | 0 <= k < |x| ensures s[i + 1..i + 1 + |x|][k] == x[k] {
      assert s[i + (1 + k)] == t[1 + k];
    }
    forall k | 0 <= k < |y| ensures s[i + 1 + |x|..i + |t|][k] == y[k] {
      assert s[i + (1 + |x| + k)] == t[1 + |x| + k];
    }
  }

  /** The blocking interpreter gives every flattened program its structured meaning; in
      particular the check of an IF step's length never fails. */
  lemma FlatteningPreservesMeaning(b: Block, w: World, m: Machine)
    requires Proper(b)
    ensures RunImmediate(Flatten(b), 0, w, m) == Meaning(b, w, m)
  {
    FlatBlockRuns(Flatten(b), 0, b, w, m);
  }

  /** So does the resumable interpreter, over any number of ticks and any BUSY answers. */
  lemma TicksPreserveMeaning(
    b: Block, w0: World, g: Oracle, f: Oracle, wiring: Wiring, clock: seq<Moment>)
    requires Proper(b) && NoMoves(Flatten(b)) && 0 < |Flatten(b)| <= MAX_STEPS
    requires var r := RunTicks(Start(STOPPED, Flatten(b), false).1, w0, Board(g, wiring), clock);
             !IsRunning(r.0) && Agrees(f, r.1.log)
    ensures var r := RunTicks(Start(STOPPED, Flatten(b), false).1, w0, Board(g, wiring), clock);
            Meaning(b, Quiet(w0), Board(f, wiring)) == (r.0.phase == Idle, Quiet(r.1))
  {
    FlatteningPreservesMeaning(b, Quiet(w0), Board(f, wiring));
    TicksRefineImmediate(Flatten(b), w0, g, f, wiring, clock);
  }

  /** Every IF step's body lies inside the block it is in. */
  predicate WellNested(steps: seq<Op>)
    decreases |steps|
  {
    if steps == [] then true
    else if !steps[0].IfCondition? then WellNested(steps[1..])
    else
      var n := steps[0].bodyCount;
      n < |steps| && WellNested(steps[1..n + 1]) && WellNested(steps[n + 1..])
  }

  /** Reading a flat list back as nested blocks. */
  function Unflatten(steps: seq<Op>): (b: Block)
    requires WellNested(steps)
    ensures Proper(b) && Flatten(b) == steps
    decreases |steps|
  {
    if steps == [] then End
    else if !steps[0].IfCondition? then
      assert steps == [steps[0]] + steps[1..];
      Then(steps[0], Unflatten(steps[1..]))
    else
      var n := steps[0].bodyCount;
      assert steps == [steps[0]] + steps[1..n + 1] + steps[n + 1..];
      When(steps[0].first, steps[0].compare, steps[0].second,
           Unflatten(steps[1..n + 1]), Unflatten(steps[n + 1..]))
  }

  /** The flat lists with a structured meaning are exactly the well nested ones. */
  lemma {:induction false} FlatteningsAreWellNested(b: Block)
    requires Proper(b)
    ensures WellNested(Flatten(b)) && Unflatten(Flatten(b)) == b
  {
    var flat := Flatten(b);
    match b
    case End =>
    case Then(op, rest) =>
      FlatteningsAreWellNested(rest);
      assert flat[1..] == Flatten(rest);
    case When(_, _, _, body, rest) =>
      FlatteningsAreWellNested(body);
      FlatteningsAreWellNested(rest);
      assert flat[1..|Flatten(body)| + 1] == Flatten(body);
      assert flat[|Flatten(body)| + 1..] == Flatten(rest);
  }
}
