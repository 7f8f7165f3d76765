/** What the six comparisons of an IF step decide, in the numbers that the two slots hold. */
module ConditionMeanings {
  import opened Bytes
  import opened MicroOps
  import opened ExecutorSpec
  import opened OperationMeanings

  /** The blocking run goes into the body, or past it, as the two numbers say; and refuses slots
      that do not exist, an unknown comparison and a body that does not fit. */
  lemma IfComparesNumbers(steps: seq<Op>, i: nat, w: World, m: Machine)
    requires i < |steps| && steps[i].IfCondition?
    ensures var op := steps[i];
            if op.first >= |w.vars| || op.second >= |w.vars| || op.compare.InvalidCompare? || i + op.bodyCount >= |steps|
            then RunImmediate(steps, i, w, m) == (false, w)
            else
              var x, y := w.vars[op.first], w.vars[op.second];
              var into, past := RunImmediate(steps, i + 1, w, m), RunImmediate(steps, i + 1 + op.bodyCount, w, m);
              && (op.compare == EQ ==> RunImmediate(steps, i, w, m) == if x == y then into else past)
              && (op.compare == NE ==> RunImmediate(steps, i, w, m) == if x != y then into else past)
              && (op.compare == GT ==> RunImmediate(steps, i, w, m) == if x > y then into else past)
              && (op.compare == GE ==> RunImmediate(steps, i, w, m) == if x >= y then into else past)
              && (op.compare == LT ==> RunImmediate(steps, i, w, m) == if x < y then into else past)
              && (op.compare == LE ==> RunImmediate(steps, i, w, m) == if x <= y then into else past)
  {
  }

  /** So does a tick. */
  lemma TickComparesNumbers(steps: seq<Op>, i: nat, w: World, m: Machine)
    requires i < |steps| && steps[i].IfCondition?
    ensures var op := steps[i];
            if op.first >= |w.vars| || op.second >= |w.vars| || op.compare.InvalidCompare? || i + op.bodyCount >= |steps|
            then Advance(steps, i, w, m) == Aborted(i, w)
            else
              var x, y := w.vars[op.first], w.vars[op.second];
              var into, past := Advance(steps, i + 1, w, m), Advance(steps, i + 1 + op.bodyCount, w, m);
              && (op.compare == EQ ==> Advance(steps, i, w, m) == if x == y then into else past)
              && (op.compare == NE ==> Advance(steps, i, w, m) == if x != y then into else past)
              && (op.compare == GT ==> Advance(steps, i, w, m) == if x > y then into else past)
              && (op.compare == GE ==> Advance(steps, i, w, m) == if x >= y then into else past)
              && (op.compare == LT ==> Advance(steps, i, w, m) == if x < y then into else past)
              && (op.compare == LE ==> Advance(steps, i, w, m) == if x <= y then into else past)
  {
  }

  /** An assignment under a condition, run by one tick and run at once: the slot is assigned
      exactly when the two numbers compare so. */
  lemma GuardedAssignment(
    first: byte, compare: Compare, second: byte, target: byte, value: int64, w: World, o: Oracle, wiring: Wiring, at: Moment)
    requires first < |w.vars| && second < |w.vars| && target < |w.vars| && !compare.InvalidCompare?
    ensures var steps := [IfCondition(first, compare, second, 1), VarSet(target, value)];
            var m, x, y := Board(o, wiring), w.vars[first], w.vars[second];
            var (c, w') := Tick(Start(STOPPED, steps, false).1, w, m, at.now, at.begin);
            var taken := w' == w.(vars := w.vars[target := value]);
            && c == STOPPED && RunImmediate(steps, 0, w, m) == (true, w') && (taken || w' == w)
            && (compare == EQ ==> if x == y then taken else w' == w)
            && (compare == NE ==> if x != y then taken else w' == w)
            && (compare == GT ==> if x > y then taken else w' == w)
            && (compare == GE ==> if x >= y then taken else w' == w)
            && (compare == LT ==> if x < y then taken else w' == w)
            && (compare == LE ==> if x <= y then taken else w' == w)
  {
    var steps := [IfCondition(first, compare, second, 1), VarSet(target, value)];
    var m := Board(o, wiring);
    IfComparesNumbers(steps, 0, w, m);
    TickComparesNumbers(steps, 0, w, m);
    LastAssignment(steps, target, value, w, o, wiring);
  }

  lemma LastAssignment(steps: seq<Op>, target: byte, value: int64, w: World, o: Oracle, wiring: Wiring)
    requires |steps| == 2 && steps[1] == VarSet(target, value) && target < |w.vars|
    ensures var m, w' := Board(o, wiring), w.(vars := w.vars[target := value]);
            && RunImmediate(steps, 1, w, m) == (true, w') && Advance(steps, 1, w, m) == Finished(w')
            && RunImmediate(steps, 2, w, m) == (true, w) && Advance(steps, 2, w, m) == Finished(w)
  {
    var m := Board(o, wiring);
    VarSetStores(target, value, w, o, wiring);
    assert m(steps[1], w).1.vars == w.vars[target := value];
    RunOverStep(steps, 1, w, m);
    AdvanceOverStep(steps, 1, w, m);
  }
}
