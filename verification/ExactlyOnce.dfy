/**
 How often an item is consumed, through any repartitioning: as often as its
 partition was on the consumers' lists when their own nodes learned of it.
*/
module ExactlyOnce {
  import opened Names
  import opened Delivery
  import opened Seqs

  predicate OnEdge(s: State, item: Item, edge: Component)
  {
    Published(s, item) && At(s, item).Data? && At(s, item).edge == edge
  }

  /** The number of callback executions on the item, by whatever consumer. */
  function Executions(runs: seq<Delivery>, item: Item): nat
  {
    if runs == [] then 0
    else Executions(runs[..|runs| - 1], item) + if runs[|runs| - 1].item == item then 1 else 0
  }

  lemma {:induction false} ExecutionsAtTwo(runs: seq<Delivery>, item: Item, a: Endpoint, b: Endpoint)
    requires a != b && forall d <- runs :: d.item == item ==> d.at == a || d.at == b
    ensures Executions(runs, item) == multiset(runs)[Delivery(a, item)] + multiset(runs)[Delivery(b, item)]
  {
    if runs != [] {
      var front, last := runs[..|runs| - 1], runs[|runs| - 1];
      assert runs == front + [last];
      assert forall d <- front :: d in runs;
      assert last in runs;
      ExecutionsAtTwo(front, item, a, b);
    }
  }

  lemma {:induction false} ExecutionsAtOne(runs: seq<Delivery>, item: Item, a: Endpoint)
    requires forall d <- runs :: d.item == item ==> d.at == a
    ensures Executions(runs, item) == multiset(runs)[Delivery(a, item)]
  {
    if runs != [] {
      var front, last := runs[..|runs| - 1], runs[|runs| - 1];
      assert runs == front + [last];
      assert forall d <- front :: d in runs;
      assert last in runs;
      ExecutionsAtOne(front, item, a);
    }
  }

  lemma {:induction false} NoExecution(runs: seq<Delivery>, item: Item)
    ensures Executions(runs, item) == 0 <==> forall d <- runs :: d.item != item
  {
    if runs != [] {
      var front, last := runs[..|runs| - 1], runs[|runs| - 1];
      assert runs == front + [last];
      assert forall d <- front :: d in runs;
      assert last in runs;
      NoExecution(front, item);
    }
  }

  lemma {:induction false} TheOnlyExecution(runs: seq<Delivery>, item: Item) returns (d: Delivery)
    requires Executions(runs, item) == 1
    ensures d in runs && d.item == item && forall e <- runs :: e.item == item ==> e == d
  {
    var front, last := runs[..|runs| - 1], runs[|runs| - 1];
    assert runs == front + [last];
    if last.item == item {
      NoExecution(front, item);
      d := last;
    } else {
      d := TheOnlyExecution(front, item);
    }
  }

  // --- What decides it ---

  /** Every node with a consumer of the item's edge has learned of it, and no callback on it is outstanding. */
  ghost predicate Arrived(t: Topology, s: State, item: Item)
  {
    && (forall c :: Proper(t, s, Delivery(c, item)) ==> (c.node, item) in s.granted)
    && (forall d <- s.pending :: d.item != item)
  }

  /** At step i the node of consumer c learns of the item, which is of its edge. */
  ghost predicate Meets(t: Topology, states: seq<State>, steps: seq<Step>, i: nat, c: Endpoint, item: Item)
  {
    i < |states| && Learns(steps, i, c.node, item) && Proper(t, states[i], Delivery(c, item))
  }

  /** How often the item's partition is on the consumer's list. */
  function Held(s: State, c: Endpoint, item: Item): nat
    requires Published(s, item) && At(s, item).Data?
  {
    multiset(Parts(s, c))[At(s, item).partition]
  }

  /** By the time the item is handed to a consumer, that consumer has a callback. */
  ghost predicate CallbacksKnown(states: seq<State>, steps: seq<Step>, j: nat, item: Item)
  {
    forall i, c :: 0 <= i < j && i < |states| && i < |steps| && steps[i] == RunCallback(Delivery(c, item)) ==> c in states[i].callbacks
  }

  /**
   When their nodes learned of the item, its partition was on the list of consumer c,
   once, and on no other consumer's list.
  */
  ghost predicate HeldOnlyBy(t: Topology, states: seq<State>, steps: seq<Step>, j: nat, item: Item, c: Endpoint)
  {
    && j < |states| && Proper(t, states[j], Delivery(c, item))
    && forall i: nat, e :: i < j && Meets(t, states, steps, i, e, item) ==> Held(states[i], e, item) == if e == c then 1 else 0
  }

  ghost predicate HeldOnce(t: Topology, states: seq<State>, steps: seq<Step>, j: nat, item: Item)
  {
    exists c :: HeldOnlyBy(t, states, steps, j, item, c)
  }

  ghost predicate HeldByNone(t: Topology, states: seq<State>, steps: seq<Step>, j: nat, item: Item)
  {
    forall i: nat, e :: i < j && Meets(t, states, steps, i, e, item) ==> Held(states[i], e, item) == 0
  }

  // --- The executions of one item ---

  lemma SkipStep(t: Topology, s: State, step: Step, s': State, d: Delivery)
    requires Next(t, s, step, s') && (step == RunCallback(d) ==> d.at in s.callbacks)
    ensures s'.ignored[d] == s.ignored[d]
  {
  }

  /** What is pending was learned of before. */
  lemma PendingWasMet(t: Topology, states: seq<State>, steps: seq<Step>, k: nat, d: Delivery) returns (i: nat)
    requires Execution(t, states, steps) && k < |states| && (d in states[k].pending || d in states[k].runs)
    ensures i < k && Meets(t, states, steps, i, d.at, d.item) && Proper(t, states[k], d)
  {
    InvariantHolds(t, states, steps, k);
    RunsAreProper(t, states[k], d);
    assert Accounted(t, states[k], d);
    assert d in states[k].runs ==> d in multiset(states[k].runs);
    i := GrantedByLearning(t, states, steps, k, d.at.node, d.item);
    GrantsLast(t, states[i], steps[i], states[i + 1], d.at.node, d.item);
    ExecutionExtends(t, states, steps, i, k);
  }

  lemma {:induction false} NeverSkipped(t: Topology, states: seq<State>, steps: seq<Step>, k: nat, j: nat, d: Delivery)
    requires Execution(t, states, steps) && k <= j < |states| && CallbacksKnown(states, steps, j, d.item)
    ensures states[k].ignored[d] == 0
  {
    if k > 0 {
      NeverSkipped(t, states, steps, k - 1, j, d);
      assert d == Delivery(d.at, d.item);
      SkipStep(t, states[k - 1], steps[k - 1], states[k], d);
    }
  }

  /** Once all has arrived, a consumer has run its callback on the item as often as it held its partition. */
  lemma RunsAreHeld(t: Topology, states: seq<State>, steps: seq<Step>, i: nat, j: nat, c: Endpoint, item: Item)
    requires Execution(t, states, steps) && i < j < |states| && Meets(t, states, steps, i, c, item)
    requires Arrived(t, states[j], item) && CallbacksKnown(states, steps, j, item)
    ensures multiset(states[j].runs)[Delivery(c, item)] == Held(states[i], c, item)
  {
    var d := Delivery(c, item);
    DeliveryIsConserved(t, states, steps, i, j, d);
    NeverSkipped(t, states, steps, j, j, d);
    assert d !in states[j].pending;
  }

  lemma ArrivalWasMet(t: Topology, states: seq<State>, steps: seq<Step>, j: nat, c: Endpoint, item: Item) returns (i: nat)
    requires Execution(t, states, steps) && j < |states| && Arrived(t, states[j], item) && Proper(t, states[j], Delivery(c, item))
    ensures i < j && Meets(t, states, steps, i, c, item)
  {
    i := GrantedByLearning(t, states, steps, j, c.node, item);
    GrantsLast(t, states[i], steps[i], states[i + 1], c.node, item);
    ExecutionExtends(t, states, steps, i, j);
  }

  lemma HeldOnceIsConsumedOnce(t: Topology, states: seq<State>, steps: seq<Step>, j: nat, item: Item, c: Endpoint)
    requires Execution(t, states, steps) && HeldOnlyBy(t, states, steps, j, item, c)
    requires Arrived(t, states[j], item) && CallbacksKnown(states, steps, j, item)
    ensures Executions(states[j].runs, item) == 1
  {
    var s := states[j];
    forall d | d in s.runs && d.item == item ensures d.at == c {
      var i := PendingWasMet(t, states, steps, j, d);
      RunsAreHeld(t, states, steps, i, j, d.at, item);
      assert d in multiset(s.runs);
    }
    var i := ArrivalWasMet(t, states, steps, j, c, item);
    RunsAreHeld(t, states, steps, i, j, c, item);
    ExecutionsAtOne(s.runs, item, c);
  }

  lemma ConsumedOnceWasHeldOnce(t: Topology, states: seq<State>, steps: seq<Step>, j: nat, item: Item)
    requires Execution(t, states, steps) && j < |states| && Executions(states[j].runs, item) == 1
    requires Arrived(t, states[j], item) && CallbacksKnown(states, steps, j, item)
    ensures HeldOnce(t, states, steps, j, item)
  {
    var s := states[j];
    var d := TheOnlyExecution(s.runs, item);
    var k := PendingWasMet(t, states, steps, j, d);
    ExecutionsAtOne(s.runs, item, d.at);
    forall i: nat, e | i < j && Meets(t, states, steps, i, e, item)
      ensures Held(states[i], e, item) == if e == d.at then 1 else 0
    {
      RunsAreHeld(t, states, steps, i, j, e, item);
      assert Delivery(e, item) in multiset(s.runs) ==> Delivery(e, item) in s.runs;
    }
    assert HeldOnlyBy(t, states, steps, j, item, d.at);
  }

  /**
   Exactly once, exactly when: in any execution, with whatever repartitionings, once
   an item has arrived everywhere and callbacks were in place in time, it has been
   consumed once if and only if just one consumer held its partition, once, at the
   step at which that consumer's own node learned of it; and it has been lost if
   and only if no consumer did.
  */
  lemma ConsumedOnceExactlyWhenHeldOnce(t: Topology, states: seq<State>, steps: seq<Step>, j: nat, item: Item)
    requires Execution(t, states, steps) && j < |states|
    requires Arrived(t, states[j], item) && CallbacksKnown(states, steps, j, item)
    ensures Executions(states[j].runs, item) == 1 <==> HeldOnce(t, states, steps, j, item)
    ensures Executions(states[j].runs, item) == 0 <==> HeldByNone(t, states, steps, j, item)
  {
    if HeldOnce(t, states, steps, j, item) {
      var c :| HeldOnlyBy(t, states, steps, j, item, c);
      HeldOnceIsConsumedOnce(t, states, steps, j, item, c);
    }
    if Executions(states[j].runs, item) == 1 {
      ConsumedOnceWasHeldOnce(t, states, steps, j, item);
    }
    LostExactlyWhenHeldByNone(t, states, steps, j, item);
  }

  lemma LostExactlyWhenHeldByNone(t: Topology, states: seq<State>, steps: seq<Step>, j: nat, item: Item)
    requires Execution(t, states, steps) && j < |states|
    requires Arrived(t, states[j], item) && CallbacksKnown(states, steps, j, item)
    ensures Executions(states[j].runs, item) == 0 <==> HeldByNone(t, states, steps, j, item)
  {
    var s := states[j];
    NoExecution(s.runs, item);
    forall i: nat, e | i < j && Meets(t, states, steps, i, e, item)
      ensures Held(states[i], e, item) == 0 <==> Delivery(e, item) !in s.runs
    {
      RunsAreHeld(t, states, steps, i, j, e, item);
      assert Delivery(e, item) in multiset(s.runs) <==> Delivery(e, item) in s.runs;
    }
    forall d | d in s.runs && d.item == item
      ensures exists i: nat :: i < j && Meets(t, states, steps, i, d.at, item)
    {
      var i := PendingWasMet(t, states, steps, j, d);
    }
  }

  // --- Coverage ---

  /** `owners[p]` is the one node whose consumer is subscribed to partition p, and it is so once. */
  ghost predicate CoveredBy(t: Topology, s: State, edge: Component, owners: seq<NodeId>)
  {
    && (forall p :: 0 <= p < |owners| ==> Endpoint(owners[p], edge) in t.consumers)
    && forall c, p: Part :: c in t.consumers && c.edge == edge && p < |owners| ==>
         multiset(Parts(s, c))[p] == if c.node == owners[p] then 1 else 0
  }

  ghost predicate Covered(t: Topology, s: State, edge: Component, n: nat)
  {
    exists owners :: |owners| == n && CoveredBy(t, s, edge, owners)
  }

  /** No producer of the edge was constructed with more than n partitions. */
  ghost predicate AtMost(t: Topology, edge: Component, n: nat)
  {
    n <= U32 && forall p <- t.producers :: p.edge == edge ==> t.producers[p] <= n
  }

  ghost predicate NoSelfConsumer(t: Topology, edge: Component)
  {
    forall c, p :: c in t.consumers && p in t.producers && c.edge == edge == p.edge ==> c.node != p.node
  }

  /**
   Handing a partition over takes two steps, one at each consumer, so no single step
   from a covered state to a covered state can do it: such a step changes no owner.
  */
  lemma CoveredStepKeepsOwners(t: Topology, s: State, step: Step, s': State, edge: Component, a: seq<NodeId>, b: seq<NodeId>)
    requires Next(t, s, step, s') && |a| == |b| <= U32
    requires CoveredBy(t, s, edge, a) && CoveredBy(t, s', edge, b)
    ensures a == b
  {
    forall p: Part | p < |a| ensures a[p] == b[p] {
      var ca, cb := Endpoint(a[p], edge), Endpoint(b[p], edge);
      assert multiset(Parts(s, ca))[p] == 1 && multiset(Parts(s', cb))[p] == 1;
    }
  }

  /** From step f to before step l no consumer of the edge is repartitioned. */
  ghost predicate Quiet(steps: seq<Step>, f: nat, l: nat, edge: Component)
  {
    forall m :: f <= m < l && m < |steps| && steps[m].Repartition? ==> steps[m].at.edge != edge
  }

  lemma PartsStep(t: Topology, s: State, step: Step, s': State, c: Endpoint)
    requires Next(t, s, step, s') && (step.Repartition? ==> step.at != c)
    ensures Parts(s', c) == Parts(s, c)
  {
  }

  lemma {:induction false} PartsStay(t: Topology, states: seq<State>, steps: seq<Step>, f: nat, l: nat, c: Endpoint)
    requires Execution(t, states, steps) && f <= l < |states|
    requires forall m :: f <= m < l && steps[m].Repartition? ==> steps[m].at != c
    ensures Parts(states[l], c) == Parts(states[f], c)
    decreases l
  {
    if f < l {
      PartsStay(t, states, steps, f, l - 1, c);
      PartsStep(t, states[l - 1], steps[l - 1], states[l], c);
    }
  }

  /**
   It is enough that the edge was covered and quiet while the nodes were learning of
   the item, from a step f to a step l: repartitionings before and after, and
   consumers set up after the item was published, do no harm.
  */
  lemma CoveredWhileLearned(t: Topology, states: seq<State>, steps: seq<Step>, f: nat, l: nat, j: nat, edge: Component, n: nat, item: Item)
    requires Execution(t, states, steps) && f <= l <= j < |states| && OnEdge(states[j], item, edge)
    requires AtMost(t, edge, n) && NoSelfConsumer(t, edge)
    requires Covered(t, states[f], edge, n) && Quiet(steps, f, l, edge)
    requires forall i: nat, c :: i < j && Meets(t, states, steps, i, c, item) ==> f <= i <= l
    ensures HeldOnce(t, states, steps, j, item)
  {
    var owners :| |owners| == n && CoveredBy(t, states[f], edge, owners);
    InvariantHolds(t, states, steps, j);
    assert EntryProper(t, states[j], item);
    var c := Endpoint(owners[At(states[j], item).partition], edge);
    forall i: nat, e | i < j && Meets(t, states, steps, i, e, item)
      ensures Held(states[i], e, item) == if e == c then 1 else 0
    {
      ExecutionExtends(t, states, steps, i, j);
      PartsStay(t, states, steps, f, i, e);
    }
    assert HeldOnlyBy(t, states, steps, j, item, c);
  }

  // --- All items of an edge ---

  /** The items the callbacks of the edge were run on, in order. */
  function ItemsRun(runs: seq<Delivery>, edge: Component): seq<Item>
  {
    if runs == [] then []
    else
      var last := runs[|runs| - 1];
      ItemsRun(runs[..|runs| - 1], edge) + if last.at.edge == edge then [last.item] else []
  }

  function ItemsPublished(s: State, edge: Component): seq<Item>
  {
    Filter(item => OnEdge(s, item, edge), s.order)
  }

  function PayloadOf(s: State): Item -> string
  {
    item => if Published(s, item) then At(s, item).Text() else ""
  }

  /** What the callbacks of the edge were handed, in order. */
  function PayloadsConsumed(s: State, edge: Component): seq<string>
  {
    Map(PayloadOf(s), ItemsRun(s.runs, edge))
  }

  /** What was published on the edge, in order. */
  function PayloadsPublished(s: State, edge: Component): seq<string>
  {
    Map(PayloadOf(s), ItemsPublished(s, edge))
  }

  lemma {:induction false} CountRun(runs: seq<Delivery>, edge: Component, item: Item, here: bool)
    requires forall d <- runs :: d.item == item ==> (d.at.edge == edge <==> here)
    ensures multiset(ItemsRun(runs, edge))[item] == if here then Executions(runs, item) else 0
  {
    if runs != [] {
      var front, last := runs[..|runs| - 1], runs[|runs| - 1];
      assert runs == front + [last];
      assert forall d <- front :: d in runs;
      assert last in runs;
      CountRun(front, edge, item, here);
    }
  }

  /** An item counts among those run as often as it was executed, and among those published once. */
  lemma ItemCounts(t: Topology, s: State, edge: Component, item: Item)
    requires Invariant(t, s)
    ensures multiset(ItemsRun(s.runs, edge))[item] == if OnEdge(s, item, edge) then Executions(s.runs, item) else 0
    ensures multiset(ItemsPublished(s, edge))[item] == if OnEdge(s, item, edge) then 1 else 0
  {
    FilterCount((i: Item) => OnEdge(s, i, edge), s.order, item);
    forall d | d in s.runs && d.item == item ensures d.at.edge == edge <==> OnEdge(s, item, edge) {
      RunsAreProper(t, s, d);
    }
    CountRun(s.runs, edge, item, OnEdge(s, item, edge));
  }

  /** All items of the edge have arrived, with callbacks in place in time. */
  ghost predicate Settled(t: Topology, states: seq<State>, steps: seq<Step>, j: nat, edge: Component)
  {
    j < |states| && forall item :: OnEdge(states[j], item, edge) ==>
      Arrived(t, states[j], item) && CallbacksKnown(states, steps, j, item)
  }

  /**
   Nothing lost, nothing doubled, exactly when: on a settled edge, the items run are
   a permutation of those published if and only if each was held once when the
   nodes learned of it; the payloads handed to callbacks are then a permutation of
   those published.
  */
  lemma ConsumedIsPublishedExactly(t: Topology, states: seq<State>, steps: seq<Step>, j: nat, edge: Component)
    requires Execution(t, states, steps) && Settled(t, states, steps, j, edge)
    ensures multiset(ItemsRun(states[j].runs, edge)) == multiset(ItemsPublished(states[j], edge))
      <==> forall item :: OnEdge(states[j], item, edge) ==> HeldOnce(t, states, steps, j, item)
    ensures (forall item :: OnEdge(states[j], item, edge) ==> HeldOnce(t, states, steps, j, item)) ==>
      multiset(PayloadsConsumed(states[j], edge)) == multiset(PayloadsPublished(states[j], edge))
  {
    var s := states[j];
    InvariantHolds(t, states, steps, j);
    var run, published := ItemsRun(s.runs, edge), ItemsPublished(s, edge);
    forall item
      ensures multiset(run)[item] == multiset(published)[item]
        <==> (OnEdge(s, item, edge) ==> HeldOnce(t, states, steps, j, item))
    {
      ItemCounts(t, s, edge, item);
      if OnEdge(s, item, edge) {
        ConsumedOnceExactlyWhenHeldOnce(t, states, steps, j, item);
      }
    }
    if multiset(run) == multiset(published) {
      MapPermutation(PayloadOf(s), run, published);
    }
  }

  /** With the lost items, those held by nobody, set apart, and all others held once. */
  lemma ConsumedAndLost(t: Topology, states: seq<State>, steps: seq<Step>, j: nat, edge: Component, lost: Item -> bool)
    requires Execution(t, states, steps) && Settled(t, states, steps, j, edge)
    requires forall item :: OnEdge(states[j], item, edge) ==>
      if lost(item) then HeldByNone(t, states, steps, j, item) else HeldOnce(t, states, steps, j, item)
    ensures multiset(ItemsRun(states[j].runs, edge) + Filter(lost, ItemsPublished(states[j], edge)))
         == multiset(ItemsPublished(states[j], edge))
  {
    var s := states[j];
    InvariantHolds(t, states, steps, j);
    var run, published := ItemsRun(s.runs, edge), ItemsPublished(s, edge);
    forall item ensures multiset(run + Filter(lost, published))[item] == multiset(published)[item] {
      ItemCounts(t, s, edge, item);
      FilterCount(lost, published, item);
      if OnEdge(s, item, edge) {
        ConsumedOnceExactlyWhenHeldOnce(t, states, steps, j, item);
      }
    }
  }

  // --- Handing a partition over ---

  /**
   What becomes of an item while its partition is handed from consumer a, which gives
   it up at step i, to consumer b, which takes it at the later step k: it is lost
   exactly if a's node learned of it after i and b's before k, doubled exactly if
   a's node learned of it before i and b's after k, and consumed once otherwise.
   From some step f on, before any of the nodes learned of the item, a alone holds
   the partition, until the handover.
  */
  lemma HandoverOutcome(t: Topology, states: seq<State>, steps: seq<Step>, f: nat, i: nat, k: nat, j: nat, item: Item,
                        a: Endpoint, b: Endpoint, before: seq<Part>, after: seq<Part>, p: Part, la: nat, lb: nat)
    requires Execution(t, states, steps) && f <= i < k < j < |states|
    requires forall l: nat, c :: l < f ==> !Meets(t, states, steps, l, c, item)
    requires Arrived(t, states[j], item) && CallbacksKnown(states, steps, j, item)
    requires Proper(t, states[j], Delivery(a, item)) && Proper(t, states[j], Delivery(b, item)) && a != b
    requires At(states[j], item).partition == p
    requires steps[i] == Repartition(a, before) && steps[k] == Repartition(b, after)
    requires Quiet(steps, f, i, a.edge) && Quiet(steps, i + 1, k, a.edge) && Quiet(steps, k + 1, j, a.edge)
    requires forall c <- t.consumers :: c.edge == a.edge ==> multiset(Parts(states[f], c))[p] == if c == a then 1 else 0
    requires multiset(before)[p] == 0 && multiset(after)[p] == 1
    requires la < j && Learns(steps, la, a.node, item) && lb < j && Learns(steps, lb, b.node, item)
    ensures Executions(states[j].runs, item) == (if la < i then 1 else 0) + (if lb > k then 1 else 0)
    ensures Executions(states[j].runs, item) == 0 <==> la > i && lb < k
    ensures Executions(states[j].runs, item) == 2 <==> la < i && lb > k
  {
    var s := states[j];
    forall c, l: nat | l < j && Meets(t, states, steps, l, c, item)
      ensures Held(states[l], c, item) == if (c == a && l < i) || (c == b && l > k) then 1 else 0
    {
      HeldDuringHandover(t, states, steps, f, i, k, j, item, a, b, before, after, p, c, l);
    }
    forall d | d in s.runs && d.item == item ensures d.at == a || d.at == b {
      var l := PendingWasMet(t, states, steps, j, d);
      RunsAreHeld(t, states, steps, l, j, d.at, item);
      assert d in multiset(s.runs);
    }
    ExecutionsAtTwo(s.runs, item, a, b);
    MetBefore(t, states, steps, la, j, a, item);
    MetBefore(t, states, steps, lb, j, b, item);
    RunsAreHeld(t, states, steps, la, j, a, item);
    RunsAreHeld(t, states, steps, lb, j, b, item);
  }

  lemma MetBefore(t: Topology, states: seq<State>, steps: seq<Step>, l: nat, j: nat, c: Endpoint, item: Item)
    requires Execution(t, states, steps) && l < j < |states| && Learns(steps, l, c.node, item) && Proper(t, states[j], Delivery(c, item))
    ensures Meets(t, states, steps, l, c, item)
  {
    GrantsLast(t, states[l], steps[l], states[l + 1], c.node, item);
    ExecutionExtends(t, states, steps, l, j);
  }

  lemma HeldDuringHandover(t: Topology, states: seq<State>, steps: seq<Step>, f: nat, i: nat, k: nat, j: nat, item: Item,
                           a: Endpoint, b: Endpoint, before: seq<Part>, after: seq<Part>, p: Part, c: Endpoint, l: nat)
    requires Execution(t, states, steps) && f <= i < k < j < |states|
    requires forall l: nat, c :: l < f ==> !Meets(t, states, steps, l, c, item)
    requires Published(states[j], item) && At(states[j], item).Data? && At(states[j], item).partition == p
    requires At(states[j], item).edge == a.edge == b.edge && a != b && b in t.consumers
    requires steps[i] == Repartition(a, before) && steps[k] == Repartition(b, after)
    requires Quiet(steps, f, i, a.edge) && Quiet(steps, i + 1, k, a.edge) && Quiet(steps, k + 1, j, a.edge)
    requires forall c <- t.consumers :: c.edge == a.edge ==> multiset(Parts(states[f], c))[p] == if c == a then 1 else 0
    requires multiset(before)[p] == 0 && multiset(after)[p] == 1
    requires l < j && Meets(t, states, steps, l, c, item)
    ensures Held(states[l], c, item) == if (c == a && l < i) || (c == b && l > k) then 1 else 0
  {
    ExecutionExtends(t, states, steps, l, j);
    if c == a && l > i {
      PartsStay(t, states, steps, i + 1, l, c);
    } else if c == b && l > k {
      PartsStay(t, states, steps, k + 1, l, c);
    } else {
      PartsStay(t, states, steps, f, l, c);
    }
  }

  function WithoutGrant(s: State, node: NodeId, item: Item): State
  {
    s.(granted := s.granted[(node, item) := 0])
  }

  /** A node learns of an item whose partition is not on its consumer's list just then. */
  lemma NotifyNone(t: Topology, s: State, c: Endpoint, item: Item)
    requires OnEdge(s, item, c.edge) && c.node != item.node && (c.node, item) !in s.granted
    requires At(s, item).partition !in Parts(s, c)
    ensures Next(t, s, Notify(c.node, item), WithoutGrant(s, c.node, item))
  {
    var channel := At(s, item).Channel();
    forall e: Endpoint | e.node == c.node
      ensures Seen(t.app, e.edge, Parts(s, e), channel) == 0
    {
      SeenIsMultiplicity(t.app, e.edge, Parts(s, e), channel);
      assert e.edge == c.edge ==> e == c;
    }
    forall e: Component ensures !Sees(t.app, Backchannel(e), channel) {
      SeesOnlyItself(t.app, Backchannel(e), channel);
    }
  }

  /** Consumer `a` is set up for partition 0 and an item is published there. */
  function Offered(a: Endpoint, b: Endpoint, p: Endpoint): State
  {
    var ready := Init().(callbacks := {a, b}, partitions := map[a := [0]]);
    PublishAt(ready, p.node, Data(a.edge, 0, ""))
  }

  lemma ReachOffered(t: Topology, a: Endpoint, b: Endpoint, p: Endpoint)
    returns (states: seq<State>, steps: seq<Step>)
    requires a in t.consumers && b in t.consumers && p in t.producers && a.edge == b.edge == p.edge
    ensures Execution(t, states, steps) && states[|steps|] == Offered(a, b, p)
    ensures |steps| == 4 && steps[3] == Publish(p, 0, "")
  {
    var s1 := Init().(callbacks := {a});
    var s2 := Init().(callbacks := {a, b});
    var s3 := s2.(partitions := map[a := [0]]);
    var s4 := Offered(a, b, p);
    assert s2.callbacks == s1.callbacks + {b};
    states, steps := [Init()], [];
    ExtendExecution(t, states, steps, SetCallback(a), s1);
    states, steps := states + [s1], steps + [SetCallback(a)];
    ExtendExecution(t, states, steps, SetCallback(b), s2);
    states, steps := states + [s2], steps + [SetCallback(b)];
    ExtendExecution(t, states, steps, Repartition(a, [0]), s3);
    states, steps := states + [s3], steps + [Repartition(a, [0])];
    ExtendExecution(t, states, steps, Publish(p, 0, ""), s4);
    states, steps := states + [s4], steps + [Publish(p, 0, "")];
  }

  /** Besides, the node of `b` has learned of the item. */
  function BeforeHandover(a: Endpoint, b: Endpoint, p: Endpoint): State
  {
    WithoutGrant(Offered(a, b, p), b.node, Item(p.node, 1))
  }

  lemma ReachBeforeHandover(t: Topology, a: Endpoint, b: Endpoint, p: Endpoint)
    returns (states: seq<State>, steps: seq<Step>)
    requires a in t.consumers && b in t.consumers && p in t.producers && a.edge == b.edge == p.edge
    requires a.node != b.node && p.node != a.node && p.node != b.node
    ensures Execution(t, states, steps) && states[|steps|] == BeforeHandover(a, b, p)
    ensures |steps| == 5 && steps[3] == Publish(p, 0, "") && steps[4] == Notify(b.node, Item(p.node, 1))
  {
    states, steps := ReachOffered(t, a, b, p);
    NotifyNone(t, Offered(a, b, p), b, Item(p.node, 1));
    ExtendExecution(t, states, steps, Notify(b.node, Item(p.node, 1)), BeforeHandover(a, b, p));
    states, steps := states + [BeforeHandover(a, b, p)], steps + [Notify(b.node, Item(p.node, 1))];
  }

  function AfterHandover(a: Endpoint, b: Endpoint, p: Endpoint): State
  {
    WithoutGrant(BeforeHandover(a, b, p).(partitions := map[a := [], b := [0]]), a.node, Item(p.node, 1))
  }

  lemma HandoverCovers(t: Topology, s: State, edge: Component, owner: Endpoint)
    requires owner in t.consumers && owner.edge == edge && Parts(s, owner) == [0]
    requires forall c <- t.consumers :: c.edge == edge && c != owner ==> Parts(s, c) == []
    ensures Covered(t, s, edge, 1)
  {
    assert CoveredBy(t, s, edge, [owner.node]);
  }

  /**
   Coverage before and after a handover is not enough: with a partition handed from
   one consumer to another, both states covered, all callbacks set, and everything
   arrived, an item can still have been consumed by nobody.
  */
  lemma HandoverLosesItem(t: Topology, a: Endpoint, b: Endpoint, p: Endpoint)
    returns (states: seq<State>, steps: seq<Step>, handover: nat)
    requires a in t.consumers && b in t.consumers && p in t.producers && a.edge == b.edge == p.edge
    requires a.node != b.node && p.node != a.node && p.node != b.node
    requires forall c <- t.consumers :: c.edge == a.edge ==> c == a || c == b
    ensures Execution(t, states, steps) && 3 <= handover && handover + 3 == |steps|
    ensures steps[handover] == Repartition(a, []) && steps[handover + 1] == Repartition(b, [0])
    ensures Covered(t, states[handover], a.edge, 1) && Covered(t, states[handover + 2], a.edge, 1)
    ensures Quiet(steps, 3, handover, a.edge) && Quiet(steps, handover + 2, |steps|, a.edge)
    ensures var s, item := states[|steps|], Item(p.node, 1);
      a in s.callbacks && b in s.callbacks && OnEdge(s, item, a.edge) && Arrived(t, s, item)
    ensures Executions(states[|steps|].runs, Item(p.node, 1)) == 0
  {
    var before, done := ReachBeforeHandover(t, a, b, p);
    handover := |done|;
    var handed, through := HandOver(t, before, done, a, b);
    states, steps := LoseItem(t, handed, through, a, b, p);
    QuietAround(done, a, b, [Notify(a.node, Item(p.node, 1))], a.edge);
  }

  lemma LoseItem(t: Topology, handed: seq<State>, through: seq<Step>, a: Endpoint, b: Endpoint, p: Endpoint)
    returns (states: seq<State>, steps: seq<Step>)
    requires a in t.consumers && b in t.consumers && a.edge == b.edge == p.edge
    requires a.node != b.node && p.node != a.node && p.node != b.node
    requires forall c <- t.consumers :: c.edge == a.edge ==> c == a || c == b
    requires Execution(t, handed, through)
    requires handed[|through|] == BeforeHandover(a, b, p).(partitions := map[a := [], b := [0]])
    ensures Execution(t, states, steps) && steps == through + [Notify(a.node, Item(p.node, 1))]
    ensures states == handed + [states[|steps|]]
    ensures var s, item := states[|steps|], Item(p.node, 1);
      a in s.callbacks && b in s.callbacks && OnEdge(s, item, a.edge) && Arrived(t, s, item) && Executions(s.runs, item) == 0
  {
    var item, s' := Item(p.node, 1), AfterHandover(a, b, p);
    NotifyNone(t, handed[|through|], a, item);
    ExtendExecution(t, handed, through, Notify(a.node, item), s');
    states, steps := handed + [s'], through + [Notify(a.node, item)];
  }

  /** Apart from the two steps of the handover itself, nobody is repartitioned from step 3 on. */
  lemma QuietAround(done: seq<Step>, a: Endpoint, b: Endpoint, rest: seq<Step>, edge: Component)
    requires forall m :: 3 <= m < |done| ==> !done[m].Repartition?
    requires forall m :: 0 <= m < |rest| ==> !rest[m].Repartition?
    ensures var steps := done + [Repartition(a, []), Repartition(b, [0])] + rest;
      Quiet(steps, 3, |done|, edge) && Quiet(steps, |done| + 2, |steps|, edge)
  {
    var steps := done + [Repartition(a, []), Repartition(b, [0])] + rest;
    forall m | |done| + 2 <= m < |steps| ensures !steps[m].Repartition? {
      assert steps[m] == rest[m - |done| - 2];
    }
  }

  lemma HandOver(t: Topology, before: seq<State>, done: seq<Step>, a: Endpoint, b: Endpoint)
    returns (states: seq<State>, steps: seq<Step>)
    requires Execution(t, before, done) && a in t.consumers && b in t.consumers && a.edge == b.edge && a != b
    requires forall c <- t.consumers :: c.edge == a.edge ==> c == a || c == b
    requires before[|done|].partitions == map[a := [0]]
    ensures Execution(t, states, steps) && steps == done + [Repartition(a, []), Repartition(b, [0])]
    ensures Covered(t, states[|done|], a.edge, 1) && Covered(t, states[|done| + 2], a.edge, 1)
    ensures states[|steps|] == before[|done|].(partitions := map[a := [], b := [0]])
  {
    var s := before[|done|];
    var s1 := s.(partitions := map[a := []]);
    var s2 := s.(partitions := map[a := [], b := [0]]);
    HandoverCovers(t, s, a.edge, a);
    HandoverCovers(t, s2, a.edge, b);
    ExtendExecution(t, before, done, Repartition(a, []), s1);
    states, steps := before + [s1], done + [Repartition(a, [])];
    ExtendExecution(t, states, steps, Repartition(b, [0]), s2);
    states, steps := states + [s2], steps + [Repartition(b, [0])];
  }

  // --- The other failure: the item is consumed twice ---

  /** A node learns of an item that one subscription sees, and the callback runs. */
  lemma LearnAndRun(t: Topology, before: seq<State>, done: seq<Step>, d: Delivery)
    returns (states: seq<State>, steps: seq<Step>)
    requires Execution(t, before, done)
    requires var s := before[|done|];
      && OnEdge(s, d.item, d.at.edge) && d.at.node != d.item.node && (d.at.node, d.item) !in s.granted
      && d.at in t.consumers && d.at in s.callbacks && Parts(s, d.at) == [0] && At(s, d.item).partition == 0
    ensures Execution(t, states, steps) && |steps| == |done| + 2
    ensures states == before + states[|before|..] && steps == done + [Notify(d.at.node, d.item), RunCallback(d)]
    ensures states[|steps|] == Ran(WithDelivery(before[|done|], d), d)
  {
    var s := before[|done|];
    var learned := WithDelivery(s, d);
    NotifyOne(t, s, d, 0);
    ExtendExecution(t, before, done, Notify(d.at.node, d.item), learned);
    states, steps := before + [learned], done + [Notify(d.at.node, d.item)];
    ExtendExecution(t, states, steps, RunCallback(d), Ran(learned, d));
    states, steps := states + [Ran(learned, d)], steps + [RunCallback(d)];
  }

  /**
   The same handover can double an item as well: the node of `a` learns of it before,
   the node of `b` after, and both run their callbacks on it.
  */
  lemma HandoverDoublesItem(t: Topology, a: Endpoint, b: Endpoint, p: Endpoint)
    returns (states: seq<State>, steps: seq<Step>, handover: nat)
    requires a in t.consumers && b in t.consumers && p in t.producers && a.edge == b.edge == p.edge
    requires a.node != b.node && p.node != a.node && p.node != b.node
    requires forall c <- t.consumers :: c.edge == a.edge ==> c == a || c == b
    ensures Execution(t, states, steps) && 3 <= handover && handover + 4 == |steps|
    ensures steps[handover] == Repartition(a, []) && steps[handover + 1] == Repartition(b, [0])
    ensures Covered(t, states[handover], a.edge, 1) && Covered(t, states[handover + 2], a.edge, 1)
    ensures Quiet(steps, 3, handover, a.edge) && Quiet(steps, handover + 2, |steps|, a.edge)
    ensures var s, item := states[|steps|], Item(p.node, 1);
      a in s.callbacks && b in s.callbacks && OnEdge(s, item, a.edge) && Arrived(t, s, item)
    ensures Executions(states[|steps|].runs, Item(p.node, 1)) == 2
  {
    var db := Delivery(b, Item(p.node, 1));
    var before, done := RunItem(t, a, b, p);
    handover := |done|;
    var handed, through := HandOver(t, before, done, a, b);
    states, steps := RunItemAgain(t, handed, through, a, b, p);
    QuietAround(done, a, b, [Notify(b.node, db.item), RunCallback(db)], a.edge);
  }

  /** `a` has run its callback on the item. */
  function RunAtFirst(a: Endpoint, b: Endpoint, p: Endpoint): State
  {
    var da := Delivery(a, Item(p.node, 1));
    Ran(WithDelivery(Offered(a, b, p), da), da)
  }

  lemma RunItem(t: Topology, a: Endpoint, b: Endpoint, p: Endpoint) returns (states: seq<State>, steps: seq<Step>)
    requires a in t.consumers && b in t.consumers && p in t.producers && a.edge == b.edge == p.edge
    requires a.node != b.node && p.node != a.node && p.node != b.node
    ensures Execution(t, states, steps) && states[|steps|] == RunAtFirst(a, b, p)
    ensures |steps| == 6 && forall m :: 3 <= m < 6 ==> !steps[m].Repartition?
  {
    var da := Delivery(a, Item(p.node, 1));
    var offered, four := ReachOffered(t, a, b, p);
    states, steps := LearnAndRun(t, offered, four, da);
  }

  lemma RunItemAgain(t: Topology, handed: seq<State>, through: seq<Step>, a: Endpoint, b: Endpoint, p: Endpoint)
    returns (states: seq<State>, steps: seq<Step>)
    requires a in t.consumers && b in t.consumers && a.edge == b.edge == p.edge
    requires a.node != b.node && p.node != a.node && p.node != b.node
    requires forall c <- t.consumers :: c.edge == a.edge ==> c == a || c == b
    requires Execution(t, handed, through)
    requires handed[|through|] == RunAtFirst(a, b, p).(partitions := map[a := [], b := [0]])
    ensures var db := Delivery(b, Item(p.node, 1));
      Execution(t, states, steps) && steps == through + [Notify(b.node, db.item), RunCallback(db)]
    ensures states == handed + states[|handed|..]
    ensures var s, item := states[|steps|], Item(p.node, 1);
      a in s.callbacks && b in s.callbacks && OnEdge(s, item, a.edge) && Arrived(t, s, item) && Executions(s.runs, item) == 2
  {
    var da, db := Delivery(a, Item(p.node, 1)), Delivery(b, Item(p.node, 1));
    states, steps := LearnAndRun(t, handed, through, db);
    DoubledOutcome(t, a, b, p, da, db);
  }

  /** Then the partition was handed over, and `b` has run its own. */
  function Doubled(a: Endpoint, b: Endpoint, p: Endpoint): State
  {
    var db := Delivery(b, Item(p.node, 1));
    Ran(WithDelivery(RunAtFirst(a, b, p).(partitions := map[a := [], b := [0]]), db), db)
  }

  lemma DoubledOutcome(t: Topology, a: Endpoint, b: Endpoint, p: Endpoint, da: Delivery, db: Delivery)
    requires a.node != b.node && p.node != a.node && p.node != b.node && a.edge == b.edge == p.edge
    requires da == Delivery(a, Item(p.node, 1)) && db == Delivery(b, Item(p.node, 1))
    requires forall c <- t.consumers :: c.edge == a.edge ==> c == a || c == b
    ensures var s, item := Doubled(a, b, p), Item(p.node, 1);
      a in s.callbacks && b in s.callbacks && OnEdge(s, item, a.edge) && Arrived(t, s, item)
    ensures Executions(Doubled(a, b, p).runs, Item(p.node, 1)) == 2
  {
    var s := Doubled(a, b, p);
    assert s.runs == [da, db];
    assert s.pending == multiset{};
    TwoExecutions(da, db, Item(p.node, 1));
  }

  lemma TwoExecutions(da: Delivery, db: Delivery, item: Item)
    requires da.item == db.item == item
    ensures Executions([da, db], item) == 2
  {
    var runs := [da, db];
    assert runs[..1] == [da];
    assert Executions([da], item) == 1 by {
      assert [da][..0] == [];
    }
  }
}
