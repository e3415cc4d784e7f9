/**
 A processing stage over the delivery protocol: what its callbacks owe for the
 payloads they are handed, and what it has published.
*/
module Stages {
  import opened Names
  import opened Delivery
  import opened ExactlyOnce
  import opened Seqs

  /** A payload that the stage's instance on a node has still to publish. */
  datatype Duty = Duty(node: NodeId, payload: string)

  /** The stage's function on payloads, the edge it consumes and the edge it produces. */
  datatype Stage = Stage(apply: string -> seq<string>, upstream: Component, downstream: Component)

  function Duties(node: NodeId, payloads: seq<string>): seq<Duty>
  {
    Map((payload: string) => Duty(node, payload), payloads)
  }

  /** Where the first duty of the node is; at the end if it has none. */
  function FirstDuty(owed: seq<Duty>, node: NodeId): (k: nat)
    ensures k <= |owed|
    ensures k < |owed| ==> owed[k].node == node
  {
    if owed == [] then 0 else if owed[0].node == node then 0 else 1 + FirstDuty(owed[1..], node)
  }

  /** The callback is run on this payload of the stage's upstream edge. */
  predicate Handed(stage: Stage, s: State, step: Step)
  {
    step.RunCallback? && step.delivery.at.edge == stage.upstream && step.delivery.at in s.callbacks
  }

  predicate Pushes(edge: Component, step: Step)
  {
    step.Publish? && step.at.edge == edge
  }

  function NewlyHanded(stage: Stage, s: State, step: Step): seq<string>
  {
    if Handed(stage, s, step) then [PayloadOf(s)(step.delivery.item)] else []
  }

  function NewlyPushed(edge: Component, step: Step): seq<string>
  {
    if Pushes(edge, step) then [step.payload] else []
  }

  /** A callback execution adds the results for its payload; publishing takes off the node's first. */
  function OwedAfter(stage: Stage, s: State, step: Step, owed: seq<Duty>): seq<Duty>
  {
    if Handed(stage, s, step) then
      owed + Duties(step.delivery.at.node, stage.apply(PayloadOf(s)(step.delivery.item)))
    else if Pushes(stage.downstream, step) && FirstDuty(owed, step.at.node) < |owed| then
      var k := FirstDuty(owed, step.at.node);
      owed[..k] + owed[k + 1..]
    else owed
  }

  /** What the stage's instances owe before step j. */
  function Owed(stage: Stage, states: seq<State>, steps: seq<Step>, j: nat): seq<Duty>
    requires j <= |steps| < |states|
  {
    if j == 0 then [] else OwedAfter(stage, states[j - 1], steps[j - 1], Owed(stage, states, steps, j - 1))
  }

  predicate Pays(stage: Stage, step: Step, owed: seq<Duty>)
  {
    Pushes(stage.downstream, step) ==>
      var k := FirstDuty(owed, step.at.node);
      k < |owed| && owed[k].payload == step.payload
  }

  /** At step j a node publishes on the downstream edge only what it owes, and in the order it came to owe it. */
  predicate PaysAt(stage: Stage, states: seq<State>, steps: seq<Step>, j: nat)
    requires j < |steps| < |states|
  {
    Pays(stage, steps[j], Owed(stage, states, steps, j))
  }

  /** The execution's downstream publications are the stage's answers, and none is outstanding. */
  ghost predicate Answers(stage: Stage, states: seq<State>, steps: seq<Step>)
  {
    && |states| == |steps| + 1
    && (forall j: nat :: j < |steps| ==> PaysAt(stage, states, steps, j))
    && Owed(stage, states, steps, |steps|) == []
  }

  // --- What one step adds to the payloads published and consumed ---

  /** What holds of an old item's payload and edge does not change. */
  lemma SameItems(s: State, s': State, edge: Component, items: seq<Item>)
    requires Extends(s, s') && forall item <- items :: Published(s, item)
    ensures Filter(item => OnEdge(s, item, edge), items) == Filter(item => OnEdge(s', item, edge), items)
    ensures Map(PayloadOf(s), items) == Map(PayloadOf(s'), items)
  {
    FilterSame((item: Item) => OnEdge(s, item, edge), (item: Item) => OnEdge(s', item, edge), items);
    MapSame(PayloadOf(s), PayloadOf(s'), items);
  }

  lemma SamePublished(s: State, s': State, edge: Component)
    requires Extends(s, s') && forall item <- s.order :: Published(s, item)
    ensures Map(PayloadOf(s'), Filter(item => OnEdge(s', item, edge), s.order)) == PayloadsPublished(s, edge)
  {
    SameItems(s, s', edge, s.order);
    FilterKeeps((item: Item) => OnEdge(s, item, edge), s.order);
    SameItems(s, s', edge, ItemsPublished(s, edge));
  }

  lemma OnePublished(s: State, s': State, edge: Component, item: Item)
    requires Extends(s, s') && (forall other <- s.order :: Published(s, other))
    requires s'.order == s.order + [item] && Published(s', item)
    ensures PayloadsPublished(s', edge) == PayloadsPublished(s, edge) + if OnEdge(s', item, edge) then [At(s', item).Text()] else []
  {
    var on := (other: Item) => OnEdge(s', other, edge);
    SamePublished(s, s', edge);
    FilterSnoc(on, s.order, item);
    MapConcat(PayloadOf(s'), Filter(on, s.order), if on(item) then [item] else []);
  }

  lemma PublishedStep(t: Topology, s: State, step: Step, s': State, edge: Component)
    requires OrderComplete(s) && Next(t, s, step, s')
    ensures PayloadsPublished(s', edge) == PayloadsPublished(s, edge) + NewlyPushed(edge, step)
  {
    NextExtends(t, s, step, s');
    forall item | item in s.order ensures Published(s, item) {
      assert item in multiset(s.order);
    }
    var made := Publishes(t, step);
    if made != [] {
      OnePublished(s, s', edge, NextItem(s, made[0].0));
    } else {
      SamePublished(s, s', edge);
    }
  }

  lemma RunItemsArePublished(t: Topology, s: State, runs: seq<Delivery>, edge: Component)
    requires Invariant(t, s) && runs <= s.runs
    ensures forall item <- ItemsRun(runs, edge) :: Published(s, item)
  {
    if runs != [] {
      var front, last := runs[..|runs| - 1], runs[|runs| - 1];
      assert last in s.runs;
      RunsAreProper(t, s, last);
      RunItemsArePublished(t, s, front, edge);
    }
  }

  lemma SameConsumed(s: State, s': State, edge: Component)
    requires Extends(s, s') && forall item <- ItemsRun(s.runs, edge) :: Published(s, item)
    ensures Map(PayloadOf(s'), ItemsRun(s.runs, edge)) == PayloadsConsumed(s, edge)
  {
    SameItems(s, s', edge, ItemsRun(s.runs, edge));
  }

  lemma OneConsumed(s: State, s': State, edge: Component, d: Delivery)
    requires Extends(s, s') && (forall item <- ItemsRun(s.runs, edge) :: Published(s, item))
    requires s'.runs == s.runs + [d] && Published(s, d.item)
    ensures PayloadsConsumed(s', edge) == PayloadsConsumed(s, edge) + if d.at.edge == edge then [PayloadOf(s)(d.item)] else []
  {
    SameConsumed(s, s', edge);
    assert (s.runs + [d])[..|s.runs|] == s.runs;
    MapConcat(PayloadOf(s'), ItemsRun(s.runs, edge), if d.at.edge == edge then [d.item] else []);
  }

  lemma ConsumedStep(t: Topology, s: State, step: Step, s': State, stage: Stage)
    requires Invariant(t, s) && Next(t, s, step, s')
    ensures PayloadsConsumed(s', stage.upstream) == PayloadsConsumed(s, stage.upstream) + NewlyHanded(stage, s, step)
  {
    NextExtends(t, s, step, s');
    RunItemsArePublished(t, s, s.runs, stage.upstream);
    if step.RunCallback? && step.delivery.at in s.callbacks {
      RunsAreProper(t, s, step.delivery);
      OneConsumed(s, s', stage.upstream, step.delivery);
    } else {
      SameConsumed(s, s', stage.upstream);
    }
  }

  // --- Conservation through the stage ---

  function PayloadsOf(owed: seq<Duty>): seq<string>
  {
    Map((duty: Duty) => duty.payload, owed)
  }

  ghost predicate Balanced(stage: Stage, published: seq<string>, consumed: seq<string>, owed: seq<Duty>)
  {
    multiset(published) + multiset(PayloadsOf(owed)) == multiset(Flatten(Map(stage.apply, consumed)))
  }

  /** What has been published downstream and what is still owed are the results for what was consumed. */
  ghost predicate Conserves(stage: Stage, s: State, owed: seq<Duty>)
  {
    Balanced(stage, PayloadsPublished(s, stage.downstream), PayloadsConsumed(s, stage.upstream), owed)
  }

  ghost predicate Changes(stage: Stage, s: State, step: Step, s': State)
  {
    && PayloadsPublished(s', stage.downstream) == PayloadsPublished(s, stage.downstream) + NewlyPushed(stage.downstream, step)
    && PayloadsConsumed(s', stage.upstream) == PayloadsConsumed(s, stage.upstream) + NewlyHanded(stage, s, step)
  }

  lemma PayloadsAdded(owed: seq<Duty>, node: NodeId, payloads: seq<string>)
    ensures PayloadsOf(owed + Duties(node, payloads)) == PayloadsOf(owed) + payloads
  {
    MapConcat((duty: Duty) => duty.payload, owed, Duties(node, payloads));
  }

  lemma AfterHanding(stage: Stage, published: seq<string>, consumed: seq<string>, owed: seq<Duty>, node: NodeId, payload: string)
    requires Balanced(stage, published, consumed, owed)
    ensures Balanced(stage, published + [], consumed + [payload], owed + Duties(node, stage.apply(payload)))
  {
    FlattenMapSnoc(stage.apply, consumed, payload);
    PayloadsAdded(owed, node, stage.apply(payload));
    assert published + [] == published;
  }

  lemma AfterPushing(stage: Stage, published: seq<string>, consumed: seq<string>, owed: seq<Duty>, k: nat)
    requires Balanced(stage, published, consumed, owed) && k < |owed|
    ensures Balanced(stage, published + [owed[k].payload], consumed + [], owed[..k] + owed[k + 1..])
  {
    assert owed == owed[..k] + [owed[k]] + owed[k + 1..];
    MapAround((duty: Duty) => duty.payload, owed[..k], owed[k], owed[k + 1..]);
    assert consumed + [] == consumed;
  }

  lemma ConservesStep(stage: Stage, s: State, step: Step, s': State, owed: seq<Duty>)
    requires Changes(stage, s, step, s') && Pays(stage, step, owed) && Conserves(stage, s, owed)
    ensures Conserves(stage, s', OwedAfter(stage, s, step, owed))
  {
    var published, consumed := PayloadsPublished(s, stage.downstream), PayloadsConsumed(s, stage.upstream);
    if Handed(stage, s, step) {
      AfterHanding(stage, published, consumed, owed, step.delivery.at.node, PayloadOf(s)(step.delivery.item));
    } else if Pushes(stage.downstream, step) {
      AfterPushing(stage, published, consumed, owed, FirstDuty(owed, step.at.node));
    } else {
      assert published + [] == published && consumed + [] == consumed;
    }
  }

  lemma StepChanges(t: Topology, stage: Stage, states: seq<State>, steps: seq<Step>, i: nat)
    requires Execution(t, states, steps) && i < |steps|
    ensures Changes(stage, states[i], steps[i], states[i + 1])
  {
    InvariantHolds(t, states, steps, i);
    PublishedStep(t, states[i], steps[i], states[i + 1], stage.downstream);
    ConsumedStep(t, states[i], steps[i], states[i + 1], stage);
  }

  lemma InitConserves(stage: Stage)
    ensures Conserves(stage, Init(), [])
  {
    assert PayloadsPublished(Init(), stage.downstream) == [] && PayloadsConsumed(Init(), stage.upstream) == [];
  }

  lemma {:induction false} ConservesUpTo(stage: Stage, states: seq<State>, steps: seq<Step>, j: nat)
    requires j <= |steps| < |states| && states[0] == Init()
    requires forall i: nat :: i < j ==> Changes(stage, states[i], steps[i], states[i + 1])
    requires forall i: nat :: i < j ==> PaysAt(stage, states, steps, i)
    ensures Conserves(stage, states[j], Owed(stage, states, steps, j))
  {
    if j == 0 {
      InitConserves(stage);
    } else {
      ConservesUpTo(stage, states, steps, j - 1);
      assert Changes(stage, states[j - 1], steps[j - 1], states[j]);
      assert PaysAt(stage, states, steps, j - 1);
      ConservesStep(stage, states[j - 1], steps[j - 1], states[j], Owed(stage, states, steps, j - 1));
    }
  }

  /**
   Whatever the interleaving of its instances, their acknowledgements and everything
   else: if the downstream publications of an execution are the stage's answers,
   they are, up to order, the results for all payloads its callbacks were handed.
  */
  lemma StageAppliesItsFunction(t: Topology, stage: Stage, states: seq<State>, steps: seq<Step>)
    requires Execution(t, states, steps) && Answers(stage, states, steps)
    ensures multiset(PayloadsPublished(states[|steps|], stage.downstream))
         == multiset(Flatten(Map(stage.apply, PayloadsConsumed(states[|steps|], stage.upstream))))
  {
    forall i: nat | i < |steps| ensures Changes(stage, states[i], steps[i], states[i + 1]) {
      StepChanges(t, stage, states, steps, i);
    }
    ConservesUpTo(stage, states, steps, |steps|);
  }

  // --- Nodes that handle one delivery after the other ---

  /** What a node's event loop is at: nothing, or a delivery whose callback has these results still to publish. */
  datatype Loop = Free | Busy(delivery: Delivery, left: seq<string>)

  /** What the callback of a delivery has to publish downstream. */
  function Results(stage: Stage, s: State, d: Delivery): seq<string>
  {
    if d.at.edge == stage.upstream then stage.apply(PayloadOf(s)(d.item)) else []
  }

  function LoopAfter(stage: Stage, s: State, step: Step, node: NodeId, loop: Loop): Loop
  {
    match step
    case RunCallback(d) => if d.at.node == node && d.at in s.callbacks then Busy(d, Results(stage, s, d)) else loop
    case Publish(at, _, _) =>
      if at == Endpoint(node, stage.downstream) && loop.Busy? && loop.left != [] then Busy(loop.delivery, loop.left[1..]) else loop
    case SendAck(d) => if d.at.node == node && loop == Busy(d, []) then Free else loop
    case _ => loop
  }

  /**
   The node runs a callback only when it is free, publishes downstream only the next
   result of the callback it is in, and acknowledges when all are published.
  */
  predicate InTurn(stage: Stage, s: State, step: Step, node: NodeId, loop: Loop)
  {
    match step
    case RunCallback(d) => d.at.node == node && d.at in s.callbacks ==> loop.Free?
    case Publish(at, _, payload) =>
      at == Endpoint(node, stage.downstream) ==> loop.Busy? && loop.left != [] && loop.left[0] == payload
    case SendAck(d) => d.at.node == node ==> loop == Busy(d, [])
    case _ => true
  }

  /** The loop before step j. */
  function LoopAt(stage: Stage, states: seq<State>, steps: seq<Step>, node: NodeId, j: nat): Loop
    requires j <= |steps| < |states|
  {
    if j == 0 then Free else LoopAfter(stage, states[j - 1], steps[j - 1], node, LoopAt(stage, states, steps, node, j - 1))
  }

  predicate InTurnAt(stage: Stage, states: seq<State>, steps: seq<Step>, node: NodeId, j: nat)
    requires j < |steps| < |states|
  {
    InTurn(stage, states[j], steps[j], node, LoopAt(stage, states, steps, node, j))
  }

  /** The node handles one delivery after the other, whatever other nodes do in between. */
  ghost predicate Serves(stage: Stage, states: seq<State>, steps: seq<Step>, node: NodeId)
  {
    && |states| == |steps| + 1
    && (forall j: nat :: j < |steps| ==> InTurnAt(stage, states, steps, node, j))
    && LoopAt(stage, states, steps, node, |steps|) == Free
  }

  /** What a node owes, in order. */
  function DutiesAt(owed: seq<Duty>, node: NodeId): seq<string>
  {
    if owed == [] then []
    else (if owed[0].node == node then [owed[0].payload] else []) + DutiesAt(owed[1..], node)
  }

  lemma {:induction false} DutiesAtConcat(a: seq<Duty>, b: seq<Duty>, node: NodeId)
    ensures DutiesAt(a + b, node) == DutiesAt(a, node) + DutiesAt(b, node)
  {
    if a == [] {
      assert a + b == b;
    } else {
      assert (a + b)[1..] == a[1..] + b;
      DutiesAtConcat(a[1..], b, node);
    }
  }

  lemma {:induction false} DutiesAtOne(node: NodeId, payloads: seq<string>, n: NodeId)
    ensures DutiesAt(Duties(node, payloads), n) == if n == node then payloads else []
  {
    if payloads != [] {
      assert Duties(node, payloads)[1..] == Duties(node, payloads[1..]);
      DutiesAtOne(node, payloads[1..], n);
    }
  }

  lemma {:induction false} FirstDutyIsNext(owed: seq<Duty>, node: NodeId)
    ensures FirstDuty(owed, node) < |owed| <==> DutiesAt(owed, node) != []
    ensures FirstDuty(owed, node) < |owed| ==> DutiesAt(owed, node)[0] == owed[FirstDuty(owed, node)].payload
  {
    if owed != [] {
      FirstDutyIsNext(owed[1..], node);
    }
  }

  lemma WithoutDuty(owed: seq<Duty>, k: nat, n: NodeId)
    requires k < |owed|
    ensures DutiesAt(owed, n) == DutiesAt(owed[..k], n) + (if owed[k].node == n then [owed[k].payload] else []) + DutiesAt(owed[k + 1..], n)
    ensures DutiesAt(owed[..k] + owed[k + 1..], n) == DutiesAt(owed[..k], n) + DutiesAt(owed[k + 1..], n)
  {
    var front, back := owed[..k], owed[k + 1..];
    assert owed == front + ([owed[k]] + back);
    DutiesAtConcat(front, [owed[k]] + back, n);
    assert ([owed[k]] + back)[1..] == back;
    DutiesAtConcat(front, back, n);
  }

  lemma {:induction false} NoneBeforeFirst(owed: seq<Duty>, node: NodeId)
    ensures DutiesAt(owed[..FirstDuty(owed, node)], node) == []
  {
    if owed != [] && owed[0].node != node {
      var k := FirstDuty(owed, node);
      assert owed[..k][1..] == owed[1..][..k - 1];
      NoneBeforeFirst(owed[1..], node);
    }
  }

  /** Without its first duty a node owes the rest, and the others owe what they did. */
  lemma WithoutFirst(owed: seq<Duty>, node: NodeId, n: NodeId)
    requires FirstDuty(owed, node) < |owed|
    ensures var k := FirstDuty(owed, node);
      DutiesAt(owed, n) == (if n == node then [owed[k].payload] else []) + DutiesAt(owed[..k] + owed[k + 1..], n)
  {
    WithoutDuty(owed, FirstDuty(owed, node), n);
    NoneBeforeFirst(owed, node);
  }

  function Left(loop: Loop): seq<string>
  {
    if loop.Free? then [] else loop.left
  }

  lemma LeftAfterOwn(stage: Stage, step: Step, owed: seq<Duty>, left: seq<string>)
    requires Pushes(stage.downstream, step) && DutiesAt(owed, step.at.node) == left && left != [] && left[0] == step.payload
    ensures var k := FirstDuty(owed, step.at.node);
      k < |owed| && owed[k].payload == step.payload && DutiesAt(owed[..k] + owed[k + 1..], step.at.node) == left[1..]
  {
    FirstDutyIsNext(owed, step.at.node);
    WithoutFirst(owed, step.at.node, step.at.node);
  }

  lemma LeftAfterPush(stage: Stage, s: State, step: Step, owed: seq<Duty>, node: NodeId, loop: Loop)
    requires InTurn(stage, s, step, node, loop) && DutiesAt(owed, node) == Left(loop) && Pushes(stage.downstream, step)
    ensures DutiesAt(OwedAfter(stage, s, step, owed), node) == Left(LoopAfter(stage, s, step, node, loop))
    ensures step.at.node == node ==> Pays(stage, step, owed)
  {
    if step.at.node == node {
      assert step.at == Endpoint(node, stage.downstream);
      LeftAfterOwn(stage, step, owed, loop.left);
    } else if FirstDuty(owed, step.at.node) < |owed| {
      WithoutFirst(owed, step.at.node, node);
    }
  }

  /** What a node owes is what is left of the callback it is in. */
  lemma OwedIsLeft(stage: Stage, s: State, step: Step, owed: seq<Duty>, node: NodeId, loop: Loop)
    requires InTurn(stage, s, step, node, loop) && DutiesAt(owed, node) == Left(loop)
    ensures DutiesAt(OwedAfter(stage, s, step, owed), node) == Left(LoopAfter(stage, s, step, node, loop))
    ensures Pushes(stage.downstream, step) && step.at.node == node ==> Pays(stage, step, owed)
  {
    if Handed(stage, s, step) {
      var d := step.delivery;
      DutiesAtConcat(owed, Duties(d.at.node, Results(stage, s, d)), node);
      DutiesAtOne(d.at.node, Results(stage, s, d), node);
    } else if Pushes(stage.downstream, step) {
      LeftAfterPush(stage, s, step, owed, node, loop);
    }
  }

  lemma {:induction false} OwedIsLeftUpTo(stage: Stage, states: seq<State>, steps: seq<Step>, node: NodeId, j: nat)
    requires Serves(stage, states, steps, node) && j <= |steps|
    ensures DutiesAt(Owed(stage, states, steps, j), node) == Left(LoopAt(stage, states, steps, node, j))
  {
    if j > 0 {
      OwedIsLeftUpTo(stage, states, steps, node, j - 1);
      assert InTurnAt(stage, states, steps, node, j - 1);
      OwedIsLeft(stage, states[j - 1], steps[j - 1], Owed(stage, states, steps, j - 1), node, LoopAt(stage, states, steps, node, j - 1));
    }
  }

  /**
   Instances that handle one delivery after the other, and publish each callback's
   results before they acknowledge it, answer as a stage does, however the nodes
   interleave.
  */
  lemma ServingAnswers(stage: Stage, states: seq<State>, steps: seq<Step>)
    requires forall node :: Serves(stage, states, steps, node)
    ensures Answers(stage, states, steps)
  {
    assert Serves(stage, states, steps, 0);
    forall j: nat | j < |steps| ensures PaysAt(stage, states, steps, j) {
      if Pushes(stage.downstream, steps[j]) {
        var node := steps[j].at.node;
        assert Serves(stage, states, steps, node);
        OwedIsLeftUpTo(stage, states, steps, node, j);
        assert InTurnAt(stage, states, steps, node, j);
        OwedIsLeft(stage, states[j], steps[j], Owed(stage, states, steps, j), node, LoopAt(stage, states, steps, node, j));
      }
    }
    var owed := Owed(stage, states, steps, |steps|);
    if owed != [] {
      assert Serves(stage, states, steps, owed[0].node);
      OwedIsLeftUpTo(stage, states, steps, owed[0].node, |steps|);
      assert false;
    }
  }

  lemma {:induction false} LoopInFront(stage: Stage, states: seq<State>, steps: seq<Step>, more: seq<State>, next: seq<Step>, node: NodeId, j: nat)
    requires |states| == |steps| + 1 && |more| == |next| && j <= |steps|
    ensures LoopAt(stage, states + more, steps + next, node, j) == LoopAt(stage, states, steps, node, j)
  {
    if j > 0 {
      LoopInFront(stage, states, steps, more, next, node, j - 1);
    }
  }

  lemma {:induction false} LoopBehind(stage: Stage, a: seq<State>, steps: seq<Step>, b: seq<State>, next: seq<Step>, node: NodeId, j: nat)
    requires Serves(stage, a, steps, node) && |b| == |next| + 1 && a[|steps|] == b[0] && j <= |next|
    ensures LoopAt(stage, a + b[1..], steps + next, node, |steps| + j) == LoopAt(stage, b, next, node, j)
  {
    if j == 0 {
      LoopInFront(stage, a, steps, b[1..], next, node, |steps|);
    } else {
      LoopBehind(stage, a, steps, b, next, node, j - 1);
      assert (a + b[1..])[|steps| + j - 1] == b[j - 1];
    }
  }

  /** A step by itself that is no callback execution, acknowledgement or publication downstream. */
  lemma OtherStepServes(stage: Stage, s: State, step: Step, s': State, node: NodeId)
    requires !step.RunCallback? && !step.SendAck? && !Pushes(stage.downstream, step)
    ensures Serves(stage, [s, s'], [step], node)
  {
    assert InTurnAt(stage, [s, s'], [step], node, 0);
  }

  /** One run after another. */
  lemma ServesOn(stage: Stage, a: seq<State>, steps: seq<Step>, b: seq<State>, next: seq<Step>, node: NodeId)
    requires Serves(stage, a, steps, node) && Serves(stage, b, next, node) && a[|steps|] == b[0]
    ensures Serves(stage, a + b[1..], steps + next, node)
  {
    var states := a + b[1..];
    forall j: nat | j < |steps + next| ensures InTurnAt(stage, states, steps + next, node, j) {
      if j < |steps| {
        LoopInFront(stage, a, steps, b[1..], next, node, j);
        assert InTurnAt(stage, a, steps, node, j);
      } else {
        LoopBehind(stage, a, steps, b, next, node, j - |steps|);
        assert InTurnAt(stage, b, next, node, j - |steps|);
        assert states[j] == b[j - |steps|];
      }
    }
    LoopBehind(stage, a, steps, b, next, node, |next|);
  }
}
