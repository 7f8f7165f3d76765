/** What the message queues mean: stable insertion by priority (0 is the most urgent) and
    removal of the earliest most urgent item. */
module PriorityOrder {
  import opened Concatenation

  datatype Item<T> = Item(priority: nat, payload: T)

  predicate Sorted<T>(q: seq<Item<T>>) {
    forall i, j :: 0 <= i < j < |q| ==> q[i].priority <= q[j].priority
  }

  /** The first position from `i` on whose priority exceeds `p`, or the end. */
  function PositionFrom<T>(q: seq<Item<T>>, p: nat, i: nat): (k: nat)
    requires i <= |q|
    ensures i <= k <= |q|
    ensures forall j :: i <= j < k ==> q[j].priority <= p
    ensures k < |q| ==> q[k].priority > p
    decreases |q| - i
  {
    if i == |q| || q[i].priority > p then i else PositionFrom(q, p, i + 1)
  }

  function Position<T>(q: seq<Item<T>>, p: nat): (k: nat)
    ensures k <= |q|
  {
    PositionFrom(q, p, 0)
  }

  function Inserted<T>(q: seq<Item<T>>, item: Item<T>): (r: seq<Item<T>>)
    ensures |r| == |q| + 1
  {
    if q == [] || q[0].priority > item.priority then [item] + q
    else [q[0]] + Inserted(q[1..], item)
  }

  /** Insertion goes in front of the first item of a greater priority. */
  lemma {:induction false} InsertedAtPosition<T>(q: seq<Item<T>>, item: Item<T>)
    ensures var k := Position(q, item.priority);
            Inserted(q, item) == q[..k] + [item] + q[k..]
  {
    if q != [] && q[0].priority <= item.priority {
      InsertedAtPosition(q[1..], item);
      PositionShifts(q, item.priority, 1);
      ConsSplice(q, Position(q[1..], item.priority), item);
    }
  }

  lemma ConsSplice<T>(q: seq<T>, k: nat, x: T)
    requires k < |q|
    ensures [q[0]] + (q[1..][..k] + [x] + q[1..][k..]) == q[..k + 1] + [x] + q[k + 1..]
  {
    var l, r := [q[0]] + (q[1..][..k] + [x] + q[1..][k..]), q[..k + 1] + [x] + q[k + 1..];
    assert |l| == |r|;
    forall i | 0 <= i < |l| ensures l[i] == r[i] {
    }
  }

  lemma {:induction false} PositionShifts<T>(q: seq<Item<T>>, p: nat, i: nat)
    requires 1 <= i <= |q|
    ensures PositionFrom(q, p, i) == PositionFrom(q[1..], p, i - 1) + 1
    decreases |q| - i
  {
    if i < |q| && q[i].priority <= p {
      PositionShifts(q, p, i + 1);
    }
  }

  /** The earliest item of the smallest priority. */
  predicate IsBest<T>(q: seq<Item<T>>, b: nat) {
    && b < |q|
    && (forall j :: 0 <= j < |q| ==> q[b].priority <= q[j].priority)
    && (forall j :: 0 <= j < b ==> q[b].priority < q[j].priority)
  }

  function Without<T>(q: seq<Item<T>>, b: nat): seq<Item<T>>
    requires b < |q|
  {
    q[..b] + q[b + 1..]
  }

  /** `rest` is `q` after its best item was taken out. */
  ghost predicate Removed<T>(q: seq<Item<T>>, item: Item<T>, rest: seq<Item<T>>) {
    exists b: nat :: IsBest(q, b) && item == q[b] && rest == Without(q, b)
  }

  /** In a sorted queue, the new item goes behind everything at least as urgent and in
      front of everything less urgent, and the queue stays sorted. */
  lemma InsertionIsStable<T>(q: seq<Item<T>>, item: Item<T>)
    requires Sorted(q)
    ensures Sorted(Inserted(q, item))
    ensures var k := Position(q, item.priority);
            forall j :: 0 <= j < |q| ==> (j < k <==> q[j].priority <= item.priority)
  {
    InsertedAtPosition(q, item);
    var k := Position(q, item.priority);
    forall j | 0 <= j < |q| ensures j < k <==> q[j].priority <= item.priority {
      if k <= j && k < |q| {
        assert q[k].priority <= q[j].priority;
      }
    }
    SpliceSorted(q, k, item);
  }

  lemma SpliceSorted<T>(q: seq<Item<T>>, k: nat, item: Item<T>)
    requires Sorted(q) && k <= |q|
    requires forall j :: 0 <= j < |q| ==> (j < k <==> q[j].priority <= item.priority)
    ensures Sorted(q[..k] + [item] + q[k..])
  {
    var r := q[..k] + [item] + q[k..];
    forall i, j | 0 <= i < j < |r| ensures r[i].priority <= r[j].priority {
      var x, y := if i <= k then i else i - 1, if j <= k then j else j - 1;
      assert i != k ==> r[i] == q[x];
      assert j != k ==> r[j] == q[y];
    }
  }

  /** In a sorted queue the best item is the head: the scan is a plain pop. */
  lemma SortedPop<T>(q: seq<Item<T>>, b: nat)
    requires Sorted(q) && IsBest(q, b)
    ensures b == 0 && Without(q, b) == q[1..] && Sorted(q[1..])
  {
    assert q[0].priority <= q[b].priority;
  }

  /** The payloads of one priority, in queue order. */
  function OfPriority<T>(q: seq<Item<T>>, p: nat): seq<T> {
    if q == [] then []
    else if q[0].priority == p then [q[0].payload] + OfPriority(q[1..], p)
    else OfPriority(q[1..], p)
  }

  lemma {:induction false} OfPriorityConcat<T>(a: seq<Item<T>>, b: seq<Item<T>>, p: nat)
    ensures OfPriority(a + b, p) == OfPriority(a, p) + OfPriority(b, p)
  {
    if a == [] {
      assert a + b == b;
    } else {
      assert (a + b)[1..] == a[1..] + b;
      OfPriorityConcat(a[1..], b, p);
    }
  }

  lemma {:induction false} NoneOfPriority<T>(q: seq<Item<T>>, p: nat)
    requires forall i :: 0 <= i < |q| ==> q[i].priority != p
    ensures OfPriority(q, p) == []
  {
    if q != [] {
      NoneOfPriority(q[1..], p);
    }
  }

  lemma OfPriorityCons<T>(x: Item<T>, q: seq<Item<T>>, p: nat)
    ensures OfPriority([x] + q, p) == (if x.priority == p then [x.payload] else []) + OfPriority(q, p)
  {
    assert ([x] + q)[1..] == q;
  }

  lemma OnePriority<T>(item: Item<T>, p: nat)
    ensures OfPriority([item], p) == if item.priority == p then [item.payload] else []
  {
    assert [item][1..] == [];
  }

  /** Insertion appends to the item's own priority class and leaves the others alone. */
  lemma {:induction false} InsertionAppends<T>(q: seq<Item<T>>, item: Item<T>, p: nat)
    requires Sorted(q)
    ensures OfPriority(Inserted(q, item), p)
         == OfPriority(q, p) + if item.priority == p then [item.payload] else []
    decreases |q|
  {
    if q == [] {
      OnePriority(item, p);
    } else if q[0].priority > item.priority {
      OfPriorityCons(item, q, p);
      if item.priority == p {
        NoneOfPriority(q, p);
      }
    } else {
      var head, own := if q[0].priority == p then [q[0].payload] else [], if item.priority == p then [item.payload] else [];
      InsertionAppends(q[1..], item, p);
      OfPriorityCons(q[0], Inserted(q[1..], item), p);
      Regroup(head, OfPriority(q[1..], p), own);
    }
  }

  // ---------------------------------------------------------------- runs

  datatype Action<T> = Put(item: Item<T>) | Take

  /** A queue together with everything that ever entered and left it. */
  datatype History<T> = History(queue: seq<Item<T>>, entered: seq<Item<T>>, left: seq<Item<T>>)

  function Act<T>(h: History<T>, a: Action<T>): History<T>
    requires Sorted(h.queue)
  {
    match a
    case Put(item) => History(Inserted(h.queue, item), h.entered + [item], h.left)
    case Take =>
      if h.queue == [] then h else History(h.queue[1..], h.entered, h.left + [h.queue[0]])
  }

  lemma ActKeepsSorted<T>(h: History<T>, a: Action<T>)
    requires Sorted(h.queue)
    ensures Sorted(Act(h, a).queue)
  {
    match a
    case Put(item) => InsertionIsStable(h.queue, item);
    case Take =>
  }

  function Acts<T>(actions: seq<Action<T>>): (h: History<T>)
    ensures Sorted(h.queue)
  {
    if actions == [] then History([], [], [])
    else
      var h := Acts(actions[..|actions| - 1]);
      ActKeepsSorted(h, actions[|actions| - 1]);
      Act(h, actions[|actions| - 1])
  }

  ghost predicate KeptOrder<T>(h: History<T>, p: nat) {
    OfPriority(h.entered, p) == OfPriority(h.left, p) + OfPriority(h.queue, p)
  }

  lemma PutKeepsOrder<T>(h: History<T>, item: Item<T>, p: nat)
    requires Sorted(h.queue) && KeptOrder(h, p)
    ensures KeptOrder(Act(h, Put(item)), p)
  {
    var own := OfPriority([item], p);
    InsertionAppends(h.queue, item, p);
    OnePriority(item, p);
    OfPriorityConcat(h.entered, [item], p);
    Regroup(OfPriority(h.left, p), OfPriority(h.queue, p), own);
  }

  lemma TakeKeepsOrder<T>(h: History<T>, p: nat)
    requires Sorted(h.queue) && h.queue != [] && KeptOrder(h, p)
    ensures KeptOrder(Act(h, Take), p)
  {
    var first, rest := [h.queue[0]], h.queue[1..];
    OfPriorityConcat(h.left, first, p);
    OfPriorityConcat(first, rest, p);
    assert first + rest == h.queue;
    Regroup(OfPriority(h.left, p), OfPriority(first, p), OfPriority(rest, p));
  }

  lemma ActKeepsOrder<T>(h: History<T>, a: Action<T>, p: nat)
    requires Sorted(h.queue) && KeptOrder(h, p)
    ensures KeptOrder(Act(h, a), p)
  {
    match a
    case Put(item) => PutKeepsOrder(h, item, p);
    case Take =>
      if h.queue != [] {
        TakeKeepsOrder(h, p);
      }
  }

  /** Over any run, the items of one priority leave in the order in which they arrived,
      none is lost and none is duplicated. An item that is put back counts as a new arrival. */
  lemma {:induction false} FirstInFirstOut<T>(actions: seq<Action<T>>, p: nat)
    ensures var h := Acts(actions);
            OfPriority(h.entered, p) == OfPriority(h.left, p) + OfPriority(h.queue, p)
  {
    if actions != [] {
      var n := |actions| - 1;
      FirstInFirstOut(actions[..n], p);
      ActKeepsOrder(Acts(actions[..n]), actions[n], p);
    }
  }
}
