/** The host-side recorder: recording commands into a flat step list, checking the list,
    and printing it back as bracketed commands. */
module SequenceRecorder {
  import opened Bytes
  import opened Concatenation
  import ExecutorSpec
  import opened MicroOps
  import opened StructuredPrograms

  /** A recorded step; a list that is edited by hand may also hold a stray end marker. */
  datatype RecStep = Op(op: MicroOps.Op) | EndMark

  datatype Command = Do(op: MicroOps.Op) | BeginIf(first: byte, compare: Compare, second: byte) | EndIf

  predicate IsIf(s: RecStep) {
    s.Op? && s.op.IfCondition?
  }

  // ---------------------------------------------------------------- checking a list

  /** The length of what the first step claims: itself, and for an IF step its body. */
  function FirstLength(steps: seq<RecStep>): (n: nat)
    requires steps != []
    ensures n > 0
  {
    if IsIf(steps[0]) then steps[0].op.bodyCount + 1 else 1
  }

  predicate Accepts(steps: seq<RecStep>)
    decreases |steps|
  {
    steps == [] ||
      (steps[0].Op? && FirstLength(steps) <= |steps| && Accepts(steps[FirstLength(steps)..]))
  }

  /** `openBlocks` is the number of conditions still open in the recorder. */
  method ValidateConditionBlocks(steps: seq<RecStep>, openBlocks: nat) returns (ok: bool)
    ensures ok <==> openBlocks == 0 && Accepts(steps)
  {
    if openBlocks > 0 {
      return false;
    }
    var i := 0;
    while i < |steps|
      invariant 0 <= i <= |steps| && Accepts(steps) == Accepts(steps[i..])
    {
      var step := steps[i];
      if step.EndMark? {
        return false;
      }
      if IsIf(step) {
        if i + 1 + step.op.bodyCount > |steps| {
          return false;
        }
        AcceptsTail(steps, i, step.op.bodyCount + 1);
        i := i + 1 + step.op.bodyCount;
      } else {
        AcceptsTail(steps, i, 1);
        i := i + 1;
      }
    }
    ok := true;
  }

  lemma AcceptsTail(steps: seq<RecStep>, i: nat, n: nat)
    requires i < |steps| && steps[i].Op? && n == FirstLength(steps[i..]) && i + n <= |steps|
    ensures Accepts(steps[i..]) == Accepts(steps[i + n..])
  {
    assert steps[i..][n..] == steps[i + n..];
  }

  /** A list seen as top-level steps and conditional blocks; bodies are not looked into. */
  datatype Part = Single(op: MicroOps.Op) | Block(head: MicroOps.Op, body: seq<RecStep>)

  predicate IsPart(p: Part) {
    match p
    case Single(op) => !op.IfCondition?
    case Block(head, body) => head.IfCondition? && head.bodyCount == |body|
  }

  function OwnSteps(p: Part): seq<RecStep> {
    match p
    case Single(op) => [RecStep.Op(op)]
    case Block(head, body) => [RecStep.Op(head)] + body
  }

  function Spread(parts: seq<Part>): seq<RecStep> {
    if parts == [] then [] else OwnSteps(parts[0]) + Spread(parts[1..])
  }

  function FirstPart(steps: seq<RecStep>): Part
    requires steps != [] && steps[0].Op? && FirstLength(steps) <= |steps|
  {
    if IsIf(steps[0]) then Block(steps[0].op, steps[1..FirstLength(steps)]) else Single(steps[0].op)
  }

  function Parts(steps: seq<RecStep>): seq<Part>
    requires Accepts(steps)
    decreases |steps|
  {
    if steps == [] then [] else [FirstPart(steps)] + Parts(steps[FirstLength(steps)..])
  }

  lemma FirstPartIsSpread(steps: seq<RecStep>)
    requires steps != [] && steps[0].Op? && FirstLength(steps) <= |steps|
    ensures IsPart(FirstPart(steps)) && OwnSteps(FirstPart(steps)) == steps[..FirstLength(steps)]
  {
  }

  lemma SpreadCons(p: Part, rest: seq<Part>)
    ensures Spread([p] + rest) == OwnSteps(p) + Spread(rest)
  {
    assert ([p] + rest)[1..] == rest;
  }

  /** An accepted list is made of its parts. */
  lemma {:induction false} PartsAreSpread(steps: seq<RecStep>)
    requires Accepts(steps)
    ensures Spread(Parts(steps)) == steps && forall p :: p in Parts(steps) ==> IsPart(p)
    decreases |steps|
  {
    if steps != [] {
      var n := FirstLength(steps);
      var rest := steps[n..];
      PartsAreSpread(rest);
      FirstPartIsSpread(steps);
      SpreadCons(FirstPart(steps), Parts(rest));
      assert steps == steps[..n] + rest;
    }
  }

  lemma {:induction false} SpreadIsAccepted(parts: seq<Part>)
    requires forall p :: p in parts ==> IsPart(p)
    ensures Accepts(Spread(parts)) && Parts(Spread(parts)) == parts
  {
    if parts != [] {
      var p, rest := parts[0], Spread(parts[1..]);
      assert IsPart(p);
      SpreadIsAccepted(parts[1..]);
      var steps := Spread(parts);
      if p.Single? {
        assert steps[1..] == rest;
      } else {
        assert steps == [RecStep.Op(p.head)] + p.body + rest;
        assert steps[|p.body| + 1..] == rest && steps[1..|p.body| + 1] == p.body;
      }
    }
  }

  /** The check accepts exactly the lists made of top-level steps and complete blocks. */
  lemma AcceptsExactlyParts(steps: seq<RecStep>)
    ensures Accepts(steps) <==> exists parts: seq<Part> :: (forall p :: p in parts ==> IsPart(p)) && Spread(parts) == steps
  {
    if Accepts(steps) {
      PartsAreSpread(steps);
    }
    forall parts: seq<Part> | (forall p :: p in parts ==> IsPart(p)) && Spread(parts) == steps
      ensures Accepts(steps)
    {
      SpreadIsAccepted(parts);
    }
  }

  // ---------------------------------------------------------------- printing a list

  /** Receive operations and unknown members have no command. */
  predicate Convertible(op: MicroOps.Op) {
    !op.Nop? && !op.Receive? && !op.UnknownOp?
  }

  function StepCommand(s: RecStep): seq<Command> {
    if s.EndMark? || !Convertible(s.op) then []
    else if s.op.IfCondition? then [BeginIf(s.op.first, s.op.compare, s.op.second)]
    else [Do(s.op)]
  }

  function BodyCommands(body: seq<RecStep>): seq<Command> {
    if body == [] then [] else StepCommand(body[0]) + BodyCommands(body[1..])
  }

  function OwnCommands(p: Part): seq<Command> {
    match p
    case Single(op) => StepCommand(RecStep.Op(op))
    case Block(head, body) => StepCommand(RecStep.Op(head)) + (BodyCommands(body) + [EndIf])
  }

  function PrintParts(parts: seq<Part>): seq<Command> {
    if parts == [] then [] else OwnCommands(parts[0]) + PrintParts(parts[1..])
  }

  lemma PrintPartsCons(p: Part, rest: seq<Part>)
    ensures PrintParts([p] + rest) == OwnCommands(p) + PrintParts(rest)
  {
    assert ([p] + rest)[1..] == rest;
  }

  function CutBody(steps: seq<RecStep>, i: nat, n: nat): seq<RecStep>
    requires i <= |steps|
  {
    steps[i..if i + n <= |steps| then i + n else |steps|]
  }

  function PrintedBlock(steps: seq<RecStep>, i: nat): seq<Command>
    requires i < |steps| && IsIf(steps[i])
  {
    StepCommand(steps[i]) + (BodyCommands(CutBody(steps, i + 1, steps[i].op.bodyCount)) + [EndIf])
  }

  /** What the step at `i` is printed as, and where printing goes on. */
  function OwnAt(steps: seq<RecStep>, i: nat): seq<Command>
    requires i < |steps|
  {
    if IsIf(steps[i]) then PrintedBlock(steps, i) else StepCommand(steps[i])
  }

  function NextAt(steps: seq<RecStep>, i: nat): (next: nat)
    requires i < |steps|
    ensures next > i
  {
    if IsIf(steps[i]) then i + 1 + steps[i].op.bodyCount else i + 1
  }

  /** What the printer emits from position `i` on, for any list. */
  function Printed(steps: seq<RecStep>, i: nat): seq<Command>
    decreases |steps| - i
  {
    if i >= |steps| then [] else OwnAt(steps, i) + Printed(steps, NextAt(steps, i))
  }

  /** The same with the commands emitted so far, as the loop sees it. */
  function PrintedFrom(out: seq<Command>, steps: seq<RecStep>, i: nat): seq<Command>
    decreases |steps| - i
  {
    if i >= |steps| then out else PrintedFrom(out + OwnAt(steps, i), steps, NextAt(steps, i))
  }

  lemma {:induction false} PrintedFromAppends(out: seq<Command>, steps: seq<RecStep>, i: nat)
    ensures PrintedFrom(out, steps, i) == out + Printed(steps, i)
    decreases |steps| - i
  {
    if i < |steps| {
      var own, next := OwnAt(steps, i), NextAt(steps, i);
      PrintedFromAppends(out + own, steps, next);
      Regroup(out, own, Printed(steps, next));
    }
  }

  method StepsToCommands(steps: seq<RecStep>) returns (out: seq<Command>)
    ensures out == Printed(steps, 0)
  {
    out := [];
    var i: nat := 0;
    ghost var whole := PrintedFrom(out, steps, i);
    PrintedFromAppends(out, steps, i);
    assert whole == Printed(steps, 0);
    while i < |steps|
      invariant PrintedFrom(out, steps, i) == whole
      decreases |steps| - i
    {
      PrintedFromStep(out, steps, i);
      out, i := PrintOne(out, steps, i);
    }
  }

  lemma PrintedFromStep(out: seq<Command>, steps: seq<RecStep>, i: nat)
    requires i < |steps|
    ensures PrintedFrom(out, steps, i) == PrintedFrom(out + OwnAt(steps, i), steps, NextAt(steps, i))
  {
  }

  /** One round: a plain step, or an IF step with its body and end mark. */
  method PrintOne(before: seq<Command>, steps: seq<RecStep>, i: nat) returns (out: seq<Command>, next: nat)
    requires i < |steps|
    ensures out == before + OwnAt(steps, i) && next == NextAt(steps, i)
  {
    var step := steps[i];
    if !IsIf(step) {
      out := before + StepCommand(step);
      next := i + 1;
    } else {
      out := AppendBlock(before, steps, i);
      next := i + 1 + step.op.bodyCount;
    }
  }

  /** The inner loop takes at most as many steps as the IF step claims, and none past the end. */
  method AppendBlock(before: seq<Command>, steps: seq<RecStep>, i: nat) returns (out: seq<Command>)
    requires i < |steps| && IsIf(steps[i])
    ensures out == before + PrintedBlock(steps, i)
  {
    var n := steps[i].op.bodyCount;
    out := before + StepCommand(steps[i]);
    ghost var headed := out;
    var j: nat := 0;
    while j < n && i + 1 + j < |steps|
      invariant j <= n && BodyFrom(out, steps, i + 1 + j, n - j) == BodyFrom(headed, steps, i + 1, n)
    {
      out := out + StepCommand(steps[i + 1 + j]);
      j := j + 1;
    }
    BlockAppended(before, steps, i);
    out := out + [EndIf];
  }

  /** At most `n` steps from position `i` on, appended one by one. */
  function BodyFrom(out: seq<Command>, steps: seq<RecStep>, i: nat, n: nat): seq<Command>
    decreases n
  {
    if n == 0 || i >= |steps| then out else BodyFrom(out + StepCommand(steps[i]), steps, i + 1, n - 1)
  }

  lemma {:induction false} BodyFromAppends(out: seq<Command>, steps: seq<RecStep>, i: nat, n: nat)
    requires i <= |steps|
    ensures BodyFrom(out, steps, i, n) == out + BodyCommands(CutBody(steps, i, n))
    decreases n
  {
    if n > 0 && i < |steps| {
      var own := StepCommand(steps[i]);
      BodyFromAppends(out + own, steps, i + 1, n - 1);
      Regroup(out, own, BodyCommands(CutBody(steps, i + 1, n - 1)));
      assert CutBody(steps, i, n)[1..] == CutBody(steps, i + 1, n - 1);
    }
  }

  lemma BlockAppended(before: seq<Command>, steps: seq<RecStep>, i: nat)
    requires i < |steps| && IsIf(steps[i])
    ensures BodyFrom(before + StepCommand(steps[i]), steps, i + 1, steps[i].op.bodyCount) + [EndIf]
         == before + PrintedBlock(steps, i)
  {
    var head, body := StepCommand(steps[i]), BodyCommands(CutBody(steps, i + 1, steps[i].op.bodyCount));
    BodyFromAppends(before + head, steps, i + 1, steps[i].op.bodyCount);
    Regroup(before + head, body, [EndIf]);
    Regroup(before, head, body + [EndIf]);
  }

  lemma {:induction false} PrintedParts(steps: seq<RecStep>, i: nat)
    requires i <= |steps| && Accepts(steps[i..])
    ensures Printed(steps, i) == PrintParts(Parts(steps[i..]))
    decreases |steps| - i
  {
    if i < |steps| {
      var next := NextAt(steps, i);
      PartsAt(steps, i);
      PartPrintsOwn(steps, i);
      PrintedParts(steps, next);
      PrintPartsCons(PartAt(steps, i), Parts(steps[next..]));
    }
  }

  function PartAt(steps: seq<RecStep>, i: nat): Part
    requires i < |steps| && steps[i].Op?
  {
    if IsIf(steps[i]) then Block(steps[i].op, CutBody(steps, i + 1, steps[i].op.bodyCount)) else Single(steps[i].op)
  }

  lemma PartsAt(steps: seq<RecStep>, i: nat)
    requires i < |steps| && Accepts(steps[i..])
    ensures var next := NextAt(steps, i);
            && steps[i].Op? && next <= |steps| && Accepts(steps[next..])
            && Parts(steps[i..]) == [PartAt(steps, i)] + Parts(steps[next..])
  {
    PartsUnfold(steps[i..]);
    TailFirst(steps, i);
    FirstPartAt(steps, i);
  }

  lemma PartsUnfold(steps: seq<RecStep>)
    requires steps != [] && Accepts(steps)
    ensures var n := FirstLength(steps);
            && steps[0].Op? && n <= |steps| && Accepts(steps[n..])
            && Parts(steps) == [FirstPart(steps)] + Parts(steps[n..])
  {
  }

  lemma TailFirst(steps: seq<RecStep>, i: nat)
    requires i < |steps|
    ensures steps[i..][0] == steps[i] && FirstLength(steps[i..]) == NextAt(steps, i) - i
    ensures NextAt(steps, i) <= |steps| ==> steps[i..][NextAt(steps, i) - i..] == steps[NextAt(steps, i)..]
  {
  }

  lemma FirstPartAt(steps: seq<RecStep>, i: nat)
    requires i < |steps| && steps[i].Op? && FirstLength(steps[i..]) <= |steps| - i
    ensures FirstPart(steps[i..]) == PartAt(steps, i)
  {
    if IsIf(steps[i]) {
      var n := steps[i].op.bodyCount;
      assert steps[i..][1..n + 1] == CutBody(steps, i + 1, n);
    }
  }

  lemma PartPrintsOwn(steps: seq<RecStep>, i: nat)
    requires i < |steps| && steps[i].Op?
    ensures OwnCommands(PartAt(steps, i)) == OwnAt(steps, i)
  {
  }

  function Count(cmds: seq<Command>, c: Command -> bool): nat {
    if cmds == [] then 0 else (if c(cmds[0]) then 1 else 0) + Count(cmds[1..], c)
  }

  const OPENS: Command -> bool := (c: Command) => c.BeginIf?
  const CLOSES: Command -> bool := (c: Command) => c.EndIf?

  /** The IF steps inside the bodies of an accepted list. */
  function NestedIfs(parts: seq<Part>): nat {
    if parts == [] then 0
    else (if parts[0].Block? then Count(BodyCommands(parts[0].body), OPENS) else 0) + NestedIfs(parts[1..])
  }

  lemma {:induction false} CountConcat(a: seq<Command>, b: seq<Command>, c: Command -> bool)
    ensures Count(a + b, c) == Count(a, c) + Count(b, c)
  {
    if a == [] {
      assert a + b == b;
    } else {
      assert (a + b)[1..] == a[1..] + b;
      CountConcat(a[1..], b, c);
    }
  }

  lemma {:induction false} BodiesNeverClose(body: seq<RecStep>)
    ensures Count(BodyCommands(body), CLOSES) == 0
  {
    if body != [] {
      BodiesNeverClose(body[1..]);
      CountConcat(StepCommand(body[0]), BodyCommands(body[1..]), CLOSES);
    }
  }

  /** Every IF inside a body leaves one bracket open: the printed brackets match exactly when
      no body contains an IF. */
  lemma {:induction false} BracketsMissNestedIfs(parts: seq<Part>)
    requires forall p :: p in parts ==> IsPart(p)
    ensures var cmds := PrintParts(parts);
            Count(cmds, OPENS) == Count(cmds, CLOSES) + NestedIfs(parts)
  {
    if parts != [] {
      var p, rest := parts[0], PrintParts(parts[1..]);
      assert IsPart(p);
      BracketsMissNestedIfs(parts[1..]);
      if p.Single? {
        CountConcat(StepCommand(RecStep.Op(p.op)), rest, OPENS);
        CountConcat(StepCommand(RecStep.Op(p.op)), rest, CLOSES);
      } else {
        BlockCounts(p, rest, OPENS);
        BlockCounts(p, rest, CLOSES);
        BodiesNeverClose(p.body);
      }
    }
  }

  lemma BlockCounts(p: Part, rest: seq<Command>, c: Command -> bool)
    requires p.Block?
    ensures Count(OwnCommands(p) + rest, c)
         == Count(StepCommand(RecStep.Op(p.head)), c) + Count(BodyCommands(p.body), c)
            + (if c(EndIf) then 1 else 0) + Count(rest, c)
  {
    var h, b := StepCommand(RecStep.Op(p.head)), BodyCommands(p.body);
    CountConcat(h + (b + [EndIf]), rest, c);
    CountConcat(h, b + [EndIf], c);
    CountConcat(b, [EndIf], c);
    assert [EndIf][1..] == [];
  }

  // ---------------------------------------------------------------- recording commands

  /** The steps recorded so far and the positions of the conditions still open. */
  datatype Recording = Recording(steps: seq<MicroOps.Op>, open: seq<nat>) | Refused

  function Record(r: Recording, c: Command): Recording {
    if r.Refused? then r
    else
      match c
      case Do(op) =>
        if op.IfCondition? || |r.steps| >= ExecutorSpec.MAX_STEPS then Refused else Recording(r.steps + [op], r.open)
      case BeginIf(first, compare, second) =>
        if |r.steps| >= ExecutorSpec.MAX_STEPS then Refused
        else Recording(r.steps + [IfCondition(first, compare, second, 0)], r.open + [|r.steps|])
      case EndIf =>
        if r.open == [] || r.open[|r.open| - 1] >= |r.steps| || !r.steps[r.open[|r.open| - 1]].IfCondition?
        then Refused
        else
          var i := r.open[|r.open| - 1];
          var count: nat := |r.steps| - i - 1;
          Recording(r.steps[i := r.steps[i].(bodyCount := count)], r.open[..|r.open| - 1])
  }

  function RecordAll(r: Recording, cmds: seq<Command>): Recording
    decreases |cmds|
  {
    if cmds == [] then r else RecordAll(Record(r, cmds[0]), cmds[1..])
  }

  /** Thirty steps can be recorded, and no more. */
  lemma {:induction false} RecordingsHaveThirtySteps(r: Recording, cmds: seq<Command>)
    requires r.Recording? && |r.steps| <= 30 && RecordAll(r, cmds).Recording?
    ensures |RecordAll(r, cmds).steps| <= 30
    decreases |cmds|
  {
    if cmds != [] {
      RefusedStays(Record(r, cmds[0]), cmds[1..]);
      RecordingsHaveThirtySteps(Record(r, cmds[0]), cmds[1..]);
    }
  }

  /** A step or a condition is refused exactly when there are thirty; an end mark exactly when no
      condition is open. */
  lemma CommandIsRefusedIff(r: Recording, c: Command)
    requires r.Recording? && Segmented(r.steps, r.open) && (c.Do? ==> !c.op.IfCondition?)
    ensures Record(r, c).Refused? <==> if c.EndIf? then r.open == [] else |r.steps| >= 30
  {
  }

  /** Between the open conditions, everything recorded is complete. */
  ghost predicate Segmented(steps: seq<MicroOps.Op>, open: seq<nat>)
    decreases |open|
  {
    if open == [] then WellNested(steps)
    else
      var i := open[|open| - 1];
      && i < |steps| && steps[i].IfCondition?
      && WellNested(steps[i + 1..])
      && Segmented(steps[..i], open[..|open| - 1])
  }

  lemma {:induction false} WellNestedConcat(a: seq<MicroOps.Op>, b: seq<MicroOps.Op>)
    requires WellNested(a) && WellNested(b)
    ensures WellNested(a + b)
    decreases |a|
  {
    if a == [] {
      assert a + b == b;
    } else if !a[0].IfCondition? {
      assert (a + b)[1..] == a[1..] + b;
      WellNestedConcat(a[1..], b);
    } else {
      var n := a[0].bodyCount;
      assert (a + b)[1..n + 1] == a[1..n + 1] && (a + b)[n + 1..] == a[n + 1..] + b;
      WellNestedConcat(a[n + 1..], b);
    }
  }

  lemma {:induction false} SegmentGrows(steps: seq<MicroOps.Op>, open: seq<nat>, more: seq<MicroOps.Op>)
    requires Segmented(steps, open) && WellNested(more)
    ensures Segmented(steps + more, open)
  {
    if open == [] {
      WellNestedConcat(steps, more);
    } else {
      var i := open[|open| - 1];
      assert (steps + more)[i + 1..] == steps[i + 1..] + more;
      assert (steps + more)[..i] == steps[..i];
      WellNestedConcat(steps[i + 1..], more);
    }
  }

  lemma RecordKeepsSegments(r: Recording, c: Command)
    requires r.Recording? && Segmented(r.steps, r.open) && Record(r, c).Recording?
    ensures Segmented(Record(r, c).steps, Record(r, c).open)
  {
    match c
    case Do(op) => SegmentGrowsByOne(r.steps, r.open, op);
    case BeginIf(first, compare, second) => SegmentOpens(r.steps, r.open, IfCondition(first, compare, second, 0));
    case EndIf => SegmentCloses(r.steps, r.open);
  }

  lemma SegmentGrowsByOne(steps: seq<MicroOps.Op>, open: seq<nat>, op: MicroOps.Op)
    requires Segmented(steps, open) && !op.IfCondition?
    ensures Segmented(steps + [op], open)
  {
    assert [op][1..] == [];
    SegmentGrows(steps, open, [op]);
  }

  lemma SegmentOpens(steps: seq<MicroOps.Op>, open: seq<nat>, head: MicroOps.Op)
    requires Segmented(steps, open) && head.IfCondition?
    ensures Segmented(steps + [head], open + [|steps|])
  {
    var n, all, now := |steps|, steps + [head], open + [|steps|];
    assert all[n + 1..] == [] && all[..n] == steps && now[..|open|] == open;
  }

  lemma SegmentCloses(steps: seq<MicroOps.Op>, open: seq<nat>)
    requires open != [] && Segmented(steps, open)
    ensures var i := open[|open| - 1];
            Segmented(steps[i := steps[i].(bodyCount := |steps| - i - 1)], open[..|open| - 1])
  {
    var i := open[|open| - 1];
    var block := [steps[i].(bodyCount := |steps| - i - 1)] + steps[i + 1..];
    ClosedBlock(steps[i], steps[i + 1..]);
    SegmentGrows(steps[..i], open[..|open| - 1], block);
    assert steps[i := block[0]] == steps[..i] + block;
  }

  lemma ClosedBlock(head: MicroOps.Op, body: seq<MicroOps.Op>)
    requires head.IfCondition? && WellNested(body)
    ensures WellNested([head.(bodyCount := |body|)] + body)
  {
    var closed, n := head.(bodyCount := |body|), |body|;
    BlockIsWellNested([closed] + body, n);
  }

  lemma BlockIsWellNested(block: seq<MicroOps.Op>, n: nat)
    requires |block| == n + 1 && block[0].IfCondition? && block[0].bodyCount == n && WellNested(block[1..])
    ensures WellNested(block)
  {
    assert block[1..n + 1] == block[1..] && block[n + 1..] == [];
  }

  lemma {:induction false} RecordingsAreSegmented(r: Recording, cmds: seq<Command>)
    requires r.Recording? && Segmented(r.steps, r.open) && RecordAll(r, cmds).Recording?
    ensures var e := RecordAll(r, cmds); Segmented(e.steps, e.open)
    decreases |cmds|
  {
    if cmds != [] {
      RefusedStays(Record(r, cmds[0]), cmds[1..]);
      RecordKeepsSegments(r, cmds[0]);
      RecordingsAreSegmented(Record(r, cmds[0]), cmds[1..]);
    }
  }

  lemma {:induction false} RefusedStays(r: Recording, cmds: seq<Command>)
    ensures r.Refused? ==> RecordAll(r, cmds).Refused?
    decreases |cmds|
  {
    if cmds != [] {
      RefusedStays(Record(r, cmds[0]), cmds[1..]);
    }
  }

  function AsSteps(ops: seq<MicroOps.Op>): (r: seq<RecStep>)
    ensures |r| == |ops| && forall i :: 0 <= i < |r| ==> r[i] == RecStep.Op(ops[i])
  {
    seq(|ops|, i requires 0 <= i < |ops| => RecStep.Op(ops[i]))
  }

  lemma {:induction false} WellNestedIsAccepted(ops: seq<MicroOps.Op>)
    requires WellNested(ops)
    ensures Accepts(AsSteps(ops))
    decreases |ops|
  {
    if ops != [] {
      var n := if ops[0].IfCondition? then ops[0].bodyCount else 0;
      assert FirstLength(AsSteps(ops)) == n + 1;
      assert AsSteps(ops)[n + 1..] == AsSteps(ops[n + 1..]);
      WellNestedIsAccepted(ops[n + 1..]);
    }
  }

  /** No IF step is inside the body of another. */
  predicate BodiesHoldNoIf(ops: seq<MicroOps.Op>)
    decreases |ops|
  {
    if ops == [] then true
    else if !ops[0].IfCondition? || ops[0].bodyCount >= |ops| then BodiesHoldNoIf(ops[1..])
    else
      var n := ops[0].bodyCount;
      (forall op :: op in ops[1..n + 1] ==> !op.IfCondition?) && BodiesHoldNoIf(ops[n + 1..])
  }

  lemma {:induction false} PlainIsWellNested(ops: seq<MicroOps.Op>)
    requires forall op :: op in ops ==> !op.IfCondition?
    ensures WellNested(ops)
  {
    if ops != [] {
      assert ops[0] in ops;
      PlainIsWellNested(ops[1..]);
    }
  }

  lemma {:induction false} AcceptedPlainBodies(ops: seq<MicroOps.Op>)
    requires BodiesHoldNoIf(ops) && Accepts(AsSteps(ops))
    ensures WellNested(ops)
    decreases |ops|
  {
    if ops != [] {
      var n := if ops[0].IfCondition? then ops[0].bodyCount else 0;
      assert FirstLength(AsSteps(ops)) == n + 1;
      assert AsSteps(ops)[n + 1..] == AsSteps(ops[n + 1..]);
      AcceptedPlainBodies(ops[n + 1..]);
      if ops[0].IfCondition? {
        PlainIsWellNested(ops[1..n + 1]);
      }
    }
  }

  /** Without an IF inside an IF body, the check accepts exactly the flat forms of
      structured programs. */
  lemma AcceptsExactlyFlattenings(ops: seq<MicroOps.Op>)
    requires BodiesHoldNoIf(ops)
    ensures Accepts(AsSteps(ops)) <==> exists b: StructuredPrograms.Block :: Proper(b) && Flatten(b) == ops
  {
    if Accepts(AsSteps(ops)) {
      AcceptedPlainBodies(ops);
      assert Proper(Unflatten(ops)) && Flatten(Unflatten(ops)) == ops;
    }
    if b: StructuredPrograms.Block :| Proper(b) && Flatten(b) == ops {
      FlatteningsAreWellNested(b);
      WellNestedIsAccepted(ops);
    }
  }

  /** Whatever is recorded with all conditions closed - nested ones included - is well nested,
      so it passes the check, and it is the flat form of a structured program, on which the
      firmware's own length check never fails. */
  lemma RecordedIsStructured(cmds: seq<Command>)
    requires var r := RecordAll(Recording([], []), cmds); r.Recording? && r.open == []
    ensures var r := RecordAll(Recording([], []), cmds);
            && WellNested(r.steps) && Accepts(AsSteps(r.steps))
            && Flatten(Unflatten(r.steps)) == r.steps
  {
    RecordingsAreSegmented(Recording([], []), cmds);
    WellNestedIsAccepted(RecordAll(Recording([], []), cmds).steps);
  }

  // ---------------------------------------------------------------- printing and recording again

  /** Steps that are written to the text; the others have no command there. */
  predicate IsWritten(op: MicroOps.Op) {
    !op.Nop? && !op.Receive? && !op.UnknownOp?
  }

  /** Every step is written, and no IF stands in a body. */
  predicate Reprintable(parts: seq<Part>) {
    forall p :: p in parts ==>
      match p
      case Single(op) => IsWritten(op)
      case Block(_, body) => forall s :: s in body ==> s.Op? && IsWritten(s.op) && !s.op.IfCondition?
  }

  /** The same, but with stray end marks in the bodies. */
  predicate LooseBody(body: seq<RecStep>) {
    body == [] || ((body[0].EndMark? || (Convertible(body[0].op) && !body[0].op.IfCondition?)) && LooseBody(body[1..]))
  }

  predicate LoosePart(p: Part) {
    IsPart(p) && (if p.Single? then Convertible(p.op) else LooseBody(p.body))
  }

  predicate Loose(parts: seq<Part>) {
    parts == [] || (LoosePart(parts[0]) && Loose(parts[1..]))
  }

  function Ops(steps: seq<RecStep>): seq<MicroOps.Op> {
    if steps == [] then []
    else if steps[0].EndMark? then Ops(steps[1..])
    else [steps[0].op] + Ops(steps[1..])
  }

  lemma {:induction false} OpsConcat(a: seq<RecStep>, b: seq<RecStep>)
    ensures Ops(a + b) == Ops(a) + Ops(b)
  {
    if a == [] {
      assert a + b == b;
    } else {
      assert (a + b)[1..] == a[1..] + b;
      OpsConcat(a[1..], b);
    }
  }

  lemma {:induction false} RecordAllConcat(r: Recording, a: seq<Command>, b: seq<Command>)
    ensures RecordAll(r, a + b) == RecordAll(RecordAll(r, a), b)
    decreases |a|
  {
    if a == [] {
      assert a + b == b;
    } else {
      assert (a + b)[1..] == a[1..] + b;
      RecordAllConcat(Record(r, a[0]), a[1..], b);
    }
  }

  lemma RecordOne(r: Recording, c: Command)
    ensures RecordAll(r, [c]) == Record(r, c)
  {
    assert [c][1..] == [];
  }

  lemma RecordTwice(r: Recording, a: seq<Command>, b: seq<Command>, mine: seq<MicroOps.Op>, rest: seq<MicroOps.Op>)
    requires r.Recording? && RecordAll(r, a) == Recording(r.steps + mine, r.open)
    requires RecordAll(Recording(r.steps + mine, r.open), b) == Recording((r.steps + mine) + rest, r.open)
    ensures RecordAll(r, a + b) == Recording(r.steps + (mine + rest), r.open)
  {
    RecordAllConcat(r, a, b);
    assert (r.steps + mine) + rest == r.steps + (mine + rest);
  }

  lemma {:induction false} RecordBody(r: Recording, body: seq<RecStep>)
    requires r.Recording? && LooseBody(body) && |r.steps| + |body| <= ExecutorSpec.MAX_STEPS
    ensures |Ops(body)| <= |body|
    ensures RecordAll(r, BodyCommands(body)) == Recording(r.steps + Ops(body), r.open)
    decreases |body|
  {
    if body == [] {
      assert r.steps + Ops(body) == r.steps;
    } else if body[0].EndMark? {
      RecordBody(r, body[1..]);
      assert [] + BodyCommands(body[1..]) == BodyCommands(body[1..]);
    } else {
      var op := body[0].op;
      var r1 := Recording(r.steps + [op], r.open);
      RecordOne(r, Do(op));
      RecordBody(r1, body[1..]);
      RecordTwice(r, [Do(op)], BodyCommands(body[1..]), [op], Ops(body[1..]));
    }
  }

  /** The end marker puts the length recorded since its condition into that condition. */
  lemma RecordEnd(r: Recording, head: MicroOps.Op, body: seq<MicroOps.Op>)
    requires r.Recording? && head.IfCondition?
    ensures Record(Recording(r.steps + [head] + body, r.open + [|r.steps|]), EndIf)
         == Recording(r.steps + ([head.(bodyCount := |body|)] + body), r.open)
  {
    var n, all := |r.steps|, r.steps + [head] + body;
    assert all[n] == head;
    assert all[n := head.(bodyCount := |body|)] == r.steps + ([head.(bodyCount := |body|)] + body);
    assert (r.open + [n])[..|r.open|] == r.open;
  }

  lemma RecordBlock(r: Recording, head: MicroOps.Op, body: seq<RecStep>)
    requires r.Recording? && head.IfCondition? && LooseBody(body)
    requires |r.steps| + 1 + |body| <= ExecutorSpec.MAX_STEPS
    ensures RecordAll(r, OwnCommands(Block(head, body))) == Recording(r.steps + Recounted(Block(head, body)), r.open)
  {
    var begin := BeginIf(head.first, head.compare, head.second);
    var r1 := Recording(r.steps + [head.(bodyCount := 0)], r.open + [|r.steps|]);
    RecordOne(r, begin);
    RecordAllConcat(r, [begin], BodyCommands(body) + [EndIf]);
    RecordAllConcat(r1, BodyCommands(body), [EndIf]);
    RecordBody(r1, body);
    RecordEnd(r, head.(bodyCount := 0), Ops(body));
    RecordOne(Recording(r1.steps + Ops(body), r1.open), EndIf);
  }

  /** What is recorded of a part: the body count becomes that of the recorded steps. */
  function Recounted(p: Part): seq<MicroOps.Op>
  {
    match p
    case Single(op) => [op]
    case Block(head, body) => [if head.IfCondition? then head.(bodyCount := |Ops(body)|) else head] + Ops(body)
  }

  function AllRecounted(parts: seq<Part>): seq<MicroOps.Op> {
    if parts == [] then [] else Recounted(parts[0]) + AllRecounted(parts[1..])
  }

  lemma RecordPart(r: Recording, p: Part)
    requires r.Recording? && LoosePart(p)
    requires |r.steps| + |OwnSteps(p)| <= ExecutorSpec.MAX_STEPS
    ensures |Recounted(p)| <= |OwnSteps(p)|
    ensures RecordAll(r, OwnCommands(p)) == Recording(r.steps + Recounted(p), r.open)
  {
    if p.Single? {
      RecordOne(r, Do(p.op));
    } else {
      RecordBlock(r, p.head, p.body);
      RecordBody(Recording([], []), p.body);
    }
  }

  lemma {:induction false} RecordParts(r: Recording, parts: seq<Part>)
    requires r.Recording? && Loose(parts) && |r.steps| + |Spread(parts)| <= ExecutorSpec.MAX_STEPS
    ensures RecordAll(r, PrintParts(parts)) == Recording(r.steps + AllRecounted(parts), r.open)
    decreases |parts|
  {
    if parts == [] {
      assert r.steps + [] == r.steps;
    } else {
      var p, later := parts[0], parts[1..];
      RecordPart(r, p);
      RecordParts(Recording(r.steps + Recounted(p), r.open), later);
      RecordTwice(r, OwnCommands(p), PrintParts(later), Recounted(p), AllRecounted(later));
    }
  }

  // Lists that can be printed back are loose, and recounting changes nothing in them.

  lemma {:induction false} WrittenBodyIsLoose(body: seq<RecStep>)
    requires forall s :: s in body ==> s.Op? && IsWritten(s.op) && !s.op.IfCondition?
    ensures LooseBody(body) && |Ops(body)| == |body|
  {
    if body != [] {
      assert body[0] in body && forall s :: s in body[1..] ==> s in body;
      WrittenBodyIsLoose(body[1..]);
    }
  }

  lemma {:induction false} ReprintableIsLoose(parts: seq<Part>)
    requires Reprintable(parts) && forall p :: p in parts ==> IsPart(p)
    ensures Loose(parts) && AllRecounted(parts) == Ops(Spread(parts))
  {
    if parts != [] {
      var p := parts[0];
      assert p in parts && forall x :: x in parts[1..] ==> x in parts;
      ReprintableIsLoose(parts[1..]);
      OpsConcat(OwnSteps(p), Spread(parts[1..]));
      OpsOfPart(p);
      if p.Block? {
        WrittenBodyIsLoose(p.body);
      }
    }
  }

  lemma OpsOfPart(p: Part)
    ensures Ops(OwnSteps(p)) == match p case Single(op) => [op] case Block(head, body) => [head] + Ops(body)
  {
    assert OwnSteps(p)[1..] == if p.Single? then [] else p.body;
  }

  // And the other way round.

  /** The number of steps that have a command. */
  function Written(ops: seq<MicroOps.Op>): nat {
    if ops == [] then 0 else (if Convertible(ops[0]) then 1 else 0) + Written(ops[1..])
  }

  lemma {:induction false} WrittenConcat(a: seq<MicroOps.Op>, b: seq<MicroOps.Op>)
    ensures Written(a + b) == Written(a) + Written(b)
  {
    if a == [] {
      assert a + b == b;
    } else {
      assert (a + b)[1..] == a[1..] + b;
      WrittenConcat(a[1..], b);
    }
  }

  lemma {:induction false} AllWritten(ops: seq<MicroOps.Op>)
    ensures Written(ops) <= |ops|
    ensures Written(ops) == |ops| ==> forall op :: op in ops ==> IsWritten(op)
  {
    if ops != [] {
      AllWritten(ops[1..]);
    }
  }

  const RECORDS: Command -> bool := (c: Command) => !c.EndIf?

  /** Every command but an end mark records one step, and conditions are opened and closed. */
  lemma {:induction false} RecordedCounts(r: Recording, cmds: seq<Command>)
    requires r.Recording? && RecordAll(r, cmds).Recording?
    ensures var r' := RecordAll(r, cmds);
            && |r'.steps| == |r.steps| + Count(cmds, RECORDS)
            && |r'.open| == |r.open| + Count(cmds, OPENS) - Count(cmds, CLOSES)
    decreases |cmds|
  {
    if cmds != [] {
      RefusedStays(Record(r, cmds[0]), cmds[1..]);
      RecordedCounts(Record(r, cmds[0]), cmds[1..]);
    }
  }

  lemma {:induction false} BodyCounts(body: seq<RecStep>)
    ensures Count(BodyCommands(body), RECORDS) == Written(Ops(body))
  {
    if body != [] {
      BodyCounts(body[1..]);
      CountConcat(StepCommand(body[0]), BodyCommands(body[1..]), RECORDS);
      StepCounts(body[0]);
    }
  }

  lemma StepCounts(s: RecStep)
    ensures Count(StepCommand(s), RECORDS) == if s.Op? && Convertible(s.op) then 1 else 0
  {
    assert StepCommand(s) != [] ==> StepCommand(s)[1..] == [];
  }

  lemma {:induction false} PartCounts(parts: seq<Part>)
    ensures Count(PrintParts(parts), RECORDS) == Written(Ops(Spread(parts)))
  {
    if parts != [] {
      var p, rest := parts[0], PrintParts(parts[1..]);
      PartCounts(parts[1..]);
      OpsConcat(OwnSteps(p), Spread(parts[1..]));
      OpsOfPart(p);
      WrittenConcat(Ops(OwnSteps(p)), Ops(Spread(parts[1..])));
      if p.Single? {
        StepCounts(RecStep.Op(p.op));
        CountConcat(StepCommand(RecStep.Op(p.op)), rest, RECORDS);
      } else {
        StepCounts(RecStep.Op(p.head));
        BlockCounts(p, rest, RECORDS);
        BodyCounts(p.body);
      }
    }
  }

  lemma {:induction false} BodyIsLoose(body: seq<RecStep>)
    requires forall op :: op in Ops(body) ==> IsWritten(op)
    requires Count(BodyCommands(body), OPENS) == 0
    ensures LooseBody(body) && |Ops(body)| <= |body|
    ensures |Ops(body)| == |body| ==> forall s :: s in body ==> s.Op? && IsWritten(s.op) && !s.op.IfCondition?
  {
    if body != [] {
      var own := StepCommand(body[0]);
      CountConcat(own, BodyCommands(body[1..]), OPENS);
      assert own != [] ==> own[1..] == [];
      if body[0].Op? {
        assert Ops(body)[0] == body[0].op && Ops(body)[0] in Ops(body);
        assert IsWritten(body[0].op);
      }
      assert Count(own, OPENS) == 0;
      assert forall op :: op in Ops(body[1..]) ==> op in Ops(body);
      BodyIsLoose(body[1..]);
    }
  }

  lemma {:induction false} PartsAreLoose(parts: seq<Part>)
    requires forall op :: op in Ops(Spread(parts)) ==> IsWritten(op)
    requires NestedIfs(parts) == 0 && forall p :: p in parts ==> IsPart(p)
    ensures Loose(parts)
  {
    if parts != [] {
      FirstPartIsLoose(parts);
      PartsAreLoose(parts[1..]);
    }
  }

  lemma FirstPartIsLoose(parts: seq<Part>)
    requires parts != [] && IsPart(parts[0])
    requires forall op :: op in Ops(Spread(parts)) ==> IsWritten(op)
    requires NestedIfs(parts) == 0
    ensures LoosePart(parts[0]) && NestedIfs(parts[1..]) == 0
    ensures forall op :: op in Ops(Spread(parts[1..])) ==> IsWritten(op)
    ensures parts[0].Block? ==> (forall op :: op in Ops(parts[0].body) ==> IsWritten(op))
    ensures parts[0].Block? ==> Count(BodyCommands(parts[0].body), OPENS) == 0
  {
    var p := parts[0];
    OpsConcat(OwnSteps(p), Spread(parts[1..]));
    OpsOfPart(p);
    var all, own, later := Ops(Spread(parts)), Ops(OwnSteps(p)), Ops(Spread(parts[1..]));
    assert all == own + later;
    assert own[0] in all;
    assert forall op :: op in later ==> op in all;
    if p.Block? {
      assert forall op :: op in Ops(p.body) ==> op in own;
      BodyIsLoose(p.body);
    }
  }

  lemma {:induction false} SameCountsAreReprintable(parts: seq<Part>)
    requires forall op :: op in Ops(Spread(parts)) ==> IsWritten(op)
    requires NestedIfs(parts) == 0 && forall p :: p in parts ==> IsPart(p)
    requires AllRecounted(parts) == Ops(Spread(parts))
    ensures Reprintable(parts)
  {
    if parts != [] {
      var p := parts[0];
      FirstPartIsLoose(parts);
      OpsConcat(OwnSteps(p), Spread(parts[1..]));
      OpsOfPart(p);
      var own, mine := Ops(OwnSteps(p)), Recounted(p);
      assert AllRecounted(parts)[0] == Ops(Spread(parts))[0] && own[0] == mine[0];
      assert AllRecounted(parts)[|mine|..] == AllRecounted(parts[1..]);
      assert Ops(Spread(parts))[|own|..] == Ops(Spread(parts[1..]));
      SameCountsAreReprintable(parts[1..]);
      if p.Block? {
        BodyIsLoose(p.body);
      }
      assert forall x :: x in parts ==> x == p || x in parts[1..];
    }
  }

  /** Printing an accepted list and recording the commands gives the list back, with every block
      closed, if and only if all its steps are written - no NOP, no receive operation, nothing
      unknown - and its bodies hold neither an IF nor an end mark. */
  lemma PrintedListIsRecoveredIff(steps: seq<RecStep>)
    requires Accepts(steps) && |steps| <= ExecutorSpec.MAX_STEPS
    ensures RecordAll(Recording([], []), Printed(steps, 0)) == Recording(Ops(steps), []) <==> Reprintable(Parts(steps))
    ensures Reprintable(Parts(steps)) ==> WellNested(Ops(steps))
  {
    var parts := Parts(steps);
    assert steps[0..] == steps;
    PrintedParts(steps, 0);
    PartsAreSpread(steps);
    if Reprintable(parts) {
      ReprintableIsLoose(parts);
      RecordParts(Recording([], []), parts);
      assert [] + Ops(steps) == Ops(steps);
      RecordedIsStructured(Printed(steps, 0));
    }
    if RecordAll(Recording([], []), PrintParts(parts)) == Recording(Ops(steps), []) {
      RecoveredIsReprintable(parts);
    }
  }

  lemma RecoveredIsReprintable(parts: seq<Part>)
    requires |Spread(parts)| <= ExecutorSpec.MAX_STEPS && forall p :: p in parts ==> IsPart(p)
    requires RecordAll(Recording([], []), PrintParts(parts)) == Recording(Ops(Spread(parts)), [])
    ensures Reprintable(parts)
  {
    RecordedCounts(Recording([], []), PrintParts(parts));
    PartCounts(parts);
    AllWritten(Ops(Spread(parts)));
    BracketsMissNestedIfs(parts);
    PartsAreLoose(parts);
    RecordParts(Recording([], []), parts);
    assert [] + AllRecounted(parts) == AllRecounted(parts);
    SameCountsAreReprintable(parts);
  }

  /** The check does not look into bodies: this list passes, yet its inner IF claims five
      steps that do not exist, and the list is not well nested. */
  lemma NestedCountIsNotChecked()
    ensures var inner := IfCondition(0, EQ, 0, 5);
            var outer := IfCondition(0, EQ, 0, 1);
            Accepts([RecStep.Op(outer), RecStep.Op(inner)]) && !WellNested([outer, inner])
  {
    var inner, outer := IfCondition(0, EQ, 0, 5), IfCondition(0, EQ, 0, 1);
    assert [RecStep.Op(outer), RecStep.Op(inner)][2..] == [];
    assert [outer, inner][1..2] == [inner];
  }
}
