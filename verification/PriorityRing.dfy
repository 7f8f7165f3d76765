/** The circular buffer behind the CAN transmit and receive queues, which keeps its items
    in priority order by shifting them in place. */
module PriorityRing {
  import opened PriorityOrder

  /** Where logical position `i` of a queue that starts at `head` is stored. */
  function Slot(head: nat, i: nat, size: nat): (s: nat)
    requires head < size && i <= size
    ensures s < size
  {
    if head + i < size then head + i else head + i - size
  }

  lemma SlotsDiffer(head: nat, c: nat, size: nat)
    requires head < size && c < size
    ensures forall i :: 0 <= i < size && i != c ==> Slot(head, i, size) != Slot(head, c, size)
  {
  }

  lemma Multiples(x: int, y: int, size: nat)
    requires x < y
    ensures x * size + size <= y * size
  {
    assert y * size == x * size + (y - x) * size;
    assert (y - x) * size == (y - x - 1) * size + size;
  }

  lemma Remainder(a: nat, q: nat, r: nat, size: nat)
    requires r < size && a == q * size + r
    ensures a % size == r
  {
    var p := a / size;
    assert a == p * size + a % size;
    if p < q {
      Multiples(p, q, size);
    } else if q < p {
      Multiples(q, p, size);
    }
  }

  lemma SlotIsModulo(head: nat, i: nat, size: nat)
    requires head < size && i <= size
    ensures (head + i) % size == Slot(head, i, size)
  {
    Remainder(head + i, if head + i < size then 0 else 1, Slot(head, i, size), size);
  }

  lemma ModuloStep(x: nat, size: nat)
    requires x < size
    ensures (x + size) % size == x && x % size == x
  {
    Remainder(x + size, 1, x, size);
    Remainder(x, 0, x, size);
  }

  /** The C expression (tail - j) % size, where % truncates toward zero, stored in a uint8. */
  function WrittenTarget(tail: nat, j: nat, size: nat): nat
    requires 0 < size <= 128
  {
    if tail >= j then (tail - j) % size
    else if (j - tail) % size == 0 then 0
    else 256 - (j - tail) % size
  }

  /** It is the remainder of `tail - j` that has the sign of `tail - j`, or 256 more when negative. */
  lemma WrittenTargetIsStoredRemainder(tail: nat, j: nat, size: nat)
    requires tail < size <= 128 && j < size
    ensures var t := WrittenTarget(tail, j, size);
            t == if tail >= j then tail - j else 256 - (j - tail)
  {
    if j <= tail {
      ModuloStep(tail - j, size);
    } else {
      ModuloStep(j - tail, size);
    }
  }

  /** As written, a shift target is the intended slot exactly as long as it does not have
      to wrap below zero; otherwise it lies outside the array. */
  lemma WrittenTargetInBounds(tail: nat, j: nat, size: nat)
    requires tail < size <= 128 && j < size
    ensures WrittenTarget(tail, j, size) < size <==> j <= tail
    ensures j <= tail ==> WrittenTarget(tail, j, size) == (tail - j + size) % size
  {
    if j <= tail {
      ModuloStep(tail - j, size);
    } else {
      ModuloStep(j - tail, size);
    }
  }

  class Ring<T(0)> {
    const buf: array<Item<T>>
    /** Whether shift targets are computed with the `+ SIZE` that the source's `from_pos` has
        and its `to_pos` lacks: false is the code as written. */
    const wraps: bool
    var head: nat
    var tail: nat
    var count: nat

    constructor (size: nat, wraps: bool)
      requires 0 < size <= 128
      ensures Valid() && Contents() == [] && head == 0
      ensures buf.Length == size && this.wraps == wraps && fresh(buf)
    {
      buf := new Item<T>[size];
      this.wraps := wraps;
      head, tail, count := 0, 0, 0;
    }

    ghost predicate Valid()
      reads this
    {
      && 0 < buf.Length <= 128 && head < buf.Length && count <= buf.Length
      && tail == Slot(head, count, buf.Length)
    }

    /** The buffer read from `head` on, all the way round. */
    function Layout(): (v: seq<Item<T>>)
      requires Valid()
      reads this, buf
      ensures |v| == buf.Length
    {
      seq(buf.Length, i requires 0 <= i < buf.Length reads this, buf requires Valid() => buf[Slot(head, i, buf.Length)])
    }

    function Contents(): (q: seq<Item<T>>)
      requires Valid()
      reads this, buf
      ensures |q| == count
    {
      Layout()[..count]
    }

    /** Physical position `p` is logical position `i`. */
    method Load(p: nat, ghost i: nat) returns (x: Item<T>)
      requires Valid() && i < buf.Length && p == Slot(head, i, buf.Length)
      ensures x == Layout()[i]
    {
      x := buf[p];
    }

    method Store(p: nat, x: Item<T>, ghost i: nat)
      requires Valid() && i < buf.Length && p == Slot(head, i, buf.Length)
      modifies buf
      ensures Layout() == old(Layout())[i := x]
    {
      SlotsDiffer(head, i, buf.Length);
      buf[p] := x;
      assert forall k :: 0 <= k < buf.Length ==> Layout()[k] == old(Layout())[i := x][k];
    }

    /** Grows the queue by the item behind its end. */
    method Grow()
      requires Valid() && count < buf.Length
      modifies this
      ensures Valid() && count == old(count) + 1 && head == old(head) && Layout() == old(Layout())
    {
      tail := After(tail, count);
      count := count + 1;
      assert forall k :: 0 <= k < buf.Length ==> Layout()[k] == old(Layout())[k];
    }

    /** Drops the head. */
    method Drop()
      requires Valid() && 0 < count
      modifies this
      ensures Valid() && count == old(count) - 1 && head == Slot(old(head), 1, buf.Length)
      ensures Layout() == old(Layout())[1..] + [old(Layout())[0]]
    {
      head := After(head, 0);
      count := count - 1;
      forall k | 0 <= k < buf.Length
        ensures Layout()[k] == (old(Layout())[1..] + [old(Layout())[0]])[k]
      {
        assert Slot(head, k, buf.Length) == Slot(old(head), if k + 1 < buf.Length then k + 1 else 0, buf.Length);
      }
    }

    method Clear()
      requires Valid()
      modifies this
      ensures Valid() && Contents() == []
    {
      head, tail, count := 0, 0, 0;
    }

    /** The physical position of logical position `i`. */
    method At(i: nat) returns (p: nat)
      requires Valid() && i <= buf.Length
      ensures p == Slot(head, i, buf.Length)
    {
      SlotIsModulo(head, i, buf.Length);
      p := (head + i) % buf.Length;
    }

    /** The `from_pos` and `to_pos` of the j-th shift. */
    method ShiftPositions(j: nat) returns (from: nat, to: nat)
      requires Valid() && j < count < buf.Length
      ensures from == Slot(head, count - j - 1, buf.Length)
      ensures to < buf.Length <==> wraps || j <= tail
      ensures to < buf.Length ==> to == Slot(head, count - j, buf.Length)
    {
      var size := buf.Length;
      BackwardSlots(head, count, j, size);
      WrittenTargetInBounds(tail, j, size);
      from := (tail - 1 - j + size) % size;
      to := if wraps then (tail - j + size) % size else WrittenTarget(tail, j, size);
    }

    method After(p: nat, ghost g: nat) returns (next: nat)
      requires Valid() && g < buf.Length && p == Slot(head, g, buf.Length)
      ensures next == Slot(head, g + 1, buf.Length)
    {
      SlotIsModulo(p, 1, buf.Length);
      next := (p + 1) % buf.Length;
    }

    method Before(p: nat, ghost g: nat) returns (prev: nat)
      requires Valid() && 0 < g < buf.Length && p == Slot(head, g, buf.Length)
      ensures prev == Slot(head, g - 1, buf.Length)
    {
      PreviousSlot(head, g, buf.Length);
      prev := (p - 1 + buf.Length) % buf.Length;
    }

    /** Inserts `item` behind everything at least as urgent. `inBounds` is false when a
        shift would store outside the array. */
    method InsertWithPriority(item: Item<T>) returns (inBounds: bool)
      requires Valid() && count < buf.Length
      modifies this, buf
      ensures inBounds <==>
        wraps || old(tail) + 1 >= old(count) - Position(old(Contents()), item.priority)
      ensures inBounds ==> Valid() && Contents() == Inserted(old(Contents()), item)
      ensures inBounds ==> head == old(head) && count == old(count) + 1
    {
      ghost var v := Layout();
      var insertPos, i := FindInsertPosition(item.priority);
      inBounds := ShiftUp(i);
      if !inBounds {
        return;
      }
      InsertedLayout(v, Layout(), item, count);
      Store(insertPos, item, i);
      Grow();
    }

    /** The first position whose item is less urgent, or the end. */
    method FindInsertPosition(priority: nat) returns (insertPos: nat, i: nat)
      requires Valid() && count < buf.Length
      ensures i == Position(Contents(), priority) && insertPos == Slot(head, i, buf.Length)
    {
      ghost var q := Contents();
      insertPos, i := tail, 0;
      while i < count
        invariant i <= count && insertPos == tail
        invariant Position(q, priority) == PositionFrom(q, priority, i)
      {
        var checkPos := At(i);
        var x := Load(checkPos, i);
        assert x == q[i];
        if x.priority > priority {
          insertPos := checkPos;
          break;
        }
        i := i + 1;
      }
    }

    /** Moves the items at logical positions k.. up by one, last one first. */
    method ShiftUp(k: nat) returns (inBounds: bool)
      requires Valid() && count < buf.Length && k <= count
      modifies buf
      ensures inBounds <==> wraps || tail + 1 >= count - k
      ensures inBounds ==> Layout()[..k] == old(Layout())[..k]
      ensures inBounds ==> Layout()[k + 1..count + 1] == old(Layout())[k..count]
    {
      ghost var v := Layout();
      var j: nat := 0;
      ghost var g: nat := count;
      while j < count - k
        modifies buf
        invariant j <= count - k && (wraps || j <= tail + 1) && g == count - j
        invariant Shifted(v, Layout(), g, count)
      {
        var from, to := ShiftPositions(j);
        if to >= buf.Length {
          return false;
        }
        CopyUp(v, Layout(), g, count);
        var x := Load(from, g - 1);
        Store(to, x, g);
        j, g := j + 1, g - 1;
      }
      inBounds := true;
    }

    /** Removes the earliest item of the smallest priority. */
    method Dequeue() returns (found: bool, item: Item<T>)
      requires Valid()
      modifies this, buf
      ensures Valid() && (found <==> old(Contents()) != [])
      ensures !found ==> Contents() == []
      ensures found ==> Removed(old(Contents()), item, Contents())
      ensures found ==> head == Slot(old(head), 1, buf.Length) && count == old(count) - 1
    {
      if count == 0 {
        item := buf[0];
        return false, item;
      }
      ghost var v := Layout();
      var best := FindBest();
      ghost var b: nat :| IsBest(Contents(), b) && best == Slot(head, b, buf.Length);
      item := Load(best, b);
      CloseGap(best, b);
      WithoutLayout(v, Layout(), b, count);
      Drop();
      found := true;
    }

    /** The scan of `Dequeue`. */
    method FindBest() returns (best: nat)
      requires Valid() && count > 0
      ensures exists b: nat :: IsBest(Contents(), b) && best == Slot(head, b, buf.Length)
    {
      var first := Load(head, 0);
      var bestPriority := first.priority;
      best := head;
      ghost var b: nat := 0;
      for i := 0 to count
        modifies {}
        invariant b < count && best == Slot(head, b, buf.Length) && bestPriority == Layout()[b].priority
        invariant forall j :: 0 <= j < i ==> bestPriority <= Layout()[j].priority
        invariant forall j :: 0 <= j < b ==> bestPriority < Layout()[j].priority
      {
        var check := At(i);
        var x := Load(check, i);
        if x.priority < bestPriority {
          bestPriority, best, b := x.priority, check, i;
        }
      }
      assert IsBest(Contents(), b);
    }

    /** Moves the items before logical position b up by one, into the gap at b. */
    method CloseGap(gap: nat, ghost b: nat)
      requires Valid() && b < count && gap == Slot(head, b, buf.Length)
      modifies buf
      ensures Layout()[1..b + 1] == old(Layout())[..b] && Layout()[b + 1..] == old(Layout())[b + 1..]
    {
      ghost var v := Layout();
      var best := gap;
      ghost var g: nat := b;
      while best != head
        modifies buf
        invariant g <= b && best == Slot(head, g, buf.Length)
        invariant Layout()[..g] == v[..g] && Layout()[b + 1..] == v[b + 1..]
        invariant Layout()[g + 1..b + 1] == v[g..b]
        decreases g
      {
        var prev := Before(best, g);
        CopyUp(v, Layout(), g, b);
        var x := Load(prev, g - 1);
        Store(best, x, g);
        best, g := prev, g - 1;
      }
    }
  }

  /** The items of v at g..b have moved up by one, those below g are where they were. */
  ghost predicate Shifted<T>(v: seq<Item<T>>, u: seq<Item<T>>, g: nat, b: nat)
    requires g <= b < |v| == |u|
  {
    u[..g] == v[..g] && u[g + 1..b + 1] == v[g..b]
  }

  /** Copying the item below position g into g. */
  lemma CopyUp<T>(v: seq<Item<T>>, u: seq<Item<T>>, g: nat, b: nat)
    requires 0 < g <= b < |v| == |u|
    requires Shifted(v, u, g, b)
    ensures Shifted(v, u[g := u[g - 1]], g - 1, b) && u[g := u[g - 1]][b + 1..] == u[b + 1..]
  {
    var w := u[g := u[g - 1]];
    assert u[g - 1] == u[..g][g - 1] == v[g - 1];
    assert w[..g - 1] == u[..g][..g - 1] == v[..g - 1];
    assert w[g..b + 1] == [w[g]] + u[g + 1..b + 1];
    assert v[g - 1..b] == [v[g - 1]] + v[g..b];
  }

  lemma InsertedLayout<T>(v: seq<Item<T>>, u: seq<Item<T>>, item: Item<T>, n: nat)
    requires n < |v| == |u|
    requires var k := Position(v[..n], item.priority);
             u[..k] == v[..k] && u[k + 1..n + 1] == v[k..n]
    ensures u[Position(v[..n], item.priority) := item][..n + 1] == Inserted(v[..n], item)
  {
    InsertedAtPosition(v[..n], item);
    SpliceLayout(v, u, item, Position(v[..n], item.priority), n);
  }

  lemma SpliceLayout<T>(v: seq<T>, u: seq<T>, x: T, k: nat, n: nat)
    requires k <= n < |v| == |u| && u[..k] == v[..k] && u[k + 1..n + 1] == v[k..n]
    ensures u[k := x][..n + 1] == v[..n][..k] + [x] + v[..n][k..]
  {
    var l, r := u[k := x][..n + 1], v[..n][..k] + [x] + v[..n][k..];
    assert |l| == |r|;
    forall i | 0 <= i < |l| ensures l[i] == r[i] {
      if i < k {
        assert u[..k][i] == v[..k][i];
      } else if i > k {
        assert u[k + 1..n + 1][i - k - 1] == v[k..n][i - k - 1];
      }
    }
  }

  lemma WithoutLayout<T>(v: seq<Item<T>>, u: seq<Item<T>>, b: nat, n: nat)
    requires b < n <= |v| == |u| && u[1..b + 1] == v[..b] && u[b + 1..] == v[b + 1..]
    ensures (u[1..] + [u[0]])[..n - 1] == Without(v[..n], b)
  {
    var w := (u[1..] + [u[0]])[..n - 1];
    assert w == u[1..n];
    assert u[1..n] == u[1..b + 1] + u[b + 1..n];
    assert u[b + 1..n] == u[b + 1..][..n - b - 1] == v[b + 1..][..n - b - 1] == v[..n][b + 1..];
    assert v[..b] == v[..n][..b];
  }

  lemma BackwardSlots(head: nat, count: nat, j: nat, size: nat)
    requires head < size && j < count < size
    ensures var tail := Slot(head, count, size);
            && (tail - j + size) % size == Slot(head, count - j, size)
            && (tail - 1 - j + size) % size == Slot(head, count - j - 1, size)
  {
    var tail := Slot(head, count, size);
    if tail >= j {
      ModuloStep(tail - j, size);
    } else {
      ModuloStep(tail - j + size, size);
    }
    if tail >= j + 1 {
      ModuloStep(tail - 1 - j, size);
    } else {
      ModuloStep(tail - 1 - j + size, size);
    }
  }

  lemma PreviousSlot(head: nat, g: nat, size: nat)
    requires 0 < g < size && head < size
    ensures (Slot(head, g, size) - 1 + size) % size == Slot(head, g - 1, size)
  {
    var s := Slot(head, g, size);
    if s > 0 {
      ModuloStep(s - 1, size);
    } else {
      ModuloStep(size - 1, size);
    }
  }

  /** The code as written stores outside the array: after thirty messages have gone
      through, two default messages wait and an urgent one has to pass them. */
  method WrappedInsertionLeavesArray(payload: int) returns (inBounds: bool)
    ensures !inBounds
  {
    var ring := new Ring<int>(32, false);
    for i := 0 to 30
      invariant fresh(ring) && fresh(ring.buf) && !ring.wraps && ring.buf.Length == 32
      invariant ring.Valid() && ring.Contents() == [] && ring.head == i
    {
      var ok := ring.InsertWithPriority(Item(4, payload));
      var _, _ := ring.Dequeue();
    }
    var first := ring.InsertWithPriority(Item(4, payload));
    assert ring.Contents() == [Item(4, payload)];
    var second := ring.InsertWithPriority(Item(4, payload));
    assert ring.Contents() == [Item(4, payload), Item(4, payload)];
    assert Position(ring.Contents(), 0) == 0;
    inBounds := ring.InsertWithPriority(Item(0, payload));
  }
}
