/**
 The objects of a node against the transition system: each method of an instance
 is a step, or a short run of steps, of `Delivery`.
*/
module Refinement {
  import opened Names
  import opened Acknowledgements
  import opened Wrappers
  import opened Delivery
  import opened PubSub
  import opened Consumers
  import opened IceFlows
  import opened Stats
  import opened ExactlyOnce
  import opened Stages
  import Dag

  /** The instance has published and stored what node n has in the state. */
  ghost predicate SameLog(pubSub: SVSPubSub, n: NodeId, s: State)
    reads pubSub
  {
    pubSub.published == Log(s, n) && SameStore(pubSub.node, pubSub.app, pubSub.store, n, s.stored)
  }

  ghost predicate SameStore(node: Name, app: Name, store: set<Name>, n: NodeId, stored: set<Item>)
  {
    forall k: nat :: k < U64 ==> (StoreName(node, app, k) in store <==> Item(n, k) in stored)
  }

  lemma StoreGrows(node: Name, app: Name, before: set<Name>, after: set<Name>, n: NodeId, stored: set<Item>, stored': set<Item>, from: nat, to: nat)
    requires SameStore(node, app, before, n, stored) && to < U64
    requires after == before + NamesFrom(node, app, from, to)
    requires forall k: nat :: Item(n, k) in stored' <==> Item(n, k) in stored || from < k <= to
    ensures SameStore(node, app, after, n, stored')
  {
    forall k: nat | k < U64 ensures StoreName(node, app, k) in NamesFrom(node, app, from, to) <==> from < k <= to {
      if StoreName(node, app, k) in NamesFrom(node, app, from, to) {
        var j: nat :| from < j <= to && StoreName(node, app, j) == StoreName(node, app, k);
        StoreNameInjective(node, app, j, k);
      }
    }
  }

  /** The instance's producers and consumers are those of node n in the topology. */
  ghost predicate SameEnds(flow: IceFlow, n: NodeId, t: Topology)
  {
    && (forall e :: e in flow.producers <==> Endpoint(n, e) in t.producers)
    && (forall e :: e in flow.consumers <==> Endpoint(n, e) in t.consumers)
    && (forall e <- flow.producers :: flow.producers[e].numberOfPartitions == t.producers[Endpoint(n, e)])
  }

  /** The live subscriptions of a consumer to one partition of its edge. */
  function LiveIn(live: map<nat, Subscription>, edge: Component, id: nat, p: Part): set<nat>
  {
    set h | h in live && live[h] == Subscription(Partition(edge, p), CallbackOf(id))
  }

  /** The subscriptions under an identity are to partitions of the edge, and to each as often as the list says. */
  ghost predicate Counted(live: map<nat, Subscription>, edge: Component, id: nat, parts: seq<Part>)
  {
    && (forall h <- live :: live[h].subscriber == CallbackOf(id) ==> IsPartitionOf(live[h].channel, edge))
    && forall p: Part :: |LiveIn(live, edge, id, p)| == multiset(parts)[p]
  }

  predicate IsPartitionOf(channel: Channel, edge: Component)
  {
    channel.Partition? && channel.edge == edge && channel.number < U32
  }

  /**
   Live subscriptions and callbacks are those the state gives the node's consumers.
   What handles the consumers keep is not part of it: some may be dead.
  */
  ghost predicate SameConsumers(flow: IceFlow, n: NodeId, s: State)
    reads flow.consumers.Values`hasCallback, flow.pubSub`live
  {
    forall e <- flow.consumers :: SameConsumer(flow, e, Endpoint(n, e), s)
  }

  ghost predicate SameConsumer(flow: IceFlow, e: Component, c: Endpoint, s: State)
    requires e in flow.consumers
    reads flow.consumers.Values`hasCallback, flow.pubSub`live
  {
    Counted(flow.pubSub.live, e, flow.consumers[e].id, Parts(s, c)) && (flow.consumers[e].hasCallback <==> c in s.callbacks)
  }

  ghost predicate Represents(flow: IceFlow, n: NodeId, t: Topology, s: State)
    reads flow, flow.pubSub, flow.consumers.Values, flow.producers.Values`timestamps, flow.producers.Values`idleSince
  {
    && flow.Valid() && !flow.pubSub.expired && flow.pubSub.app == t.app
    && SameEnds(flow, n, t) && SameLog(flow.pubSub, n, s) && SameConsumers(flow, n, s)
  }

  // --- Live subscriptions by handles ---

  /** The first m handles that are for the partition. */
  function HandlesFor(handles: seq<nat>, parts: seq<Part>, p: Part, m: nat): set<nat>
    requires m <= |parts| == |handles|
  {
    if m == 0 then {}
    else
      var front := HandlesFor(handles, parts, p, m - 1);
      if parts[m - 1] == p then front + {handles[m - 1]} else front
  }

  lemma {:induction false} HandlesForAre(handles: seq<nat>, parts: seq<Part>, p: Part, m: nat)
    requires m <= |parts| == |handles|
    ensures forall h :: h in HandlesFor(handles, parts, p, m) <==> exists i :: 0 <= i < m && handles[i] == h && parts[i] == p
  {
    if m > 0 {
      HandlesForAre(handles, parts, p, m - 1);
    }
  }

  predicate Rising(handles: seq<nat>)
  {
    forall i, j :: 0 <= i < j < |handles| ==> handles[i] < handles[j]
  }

  lemma {:induction false} CountHandles(handles: seq<nat>, parts: seq<Part>, p: Part, m: nat)
    requires m <= |parts| == |handles| && Rising(handles)
    ensures |HandlesFor(handles, parts, p, m)| == multiset(parts[..m])[p]
  {
    if m > 0 {
      CountHandles(handles, parts, p, m - 1);
      LaterHandle(handles, parts, p, m - 1);
      CountOn(parts, p, m);
      var front := HandlesFor(handles, parts, p, m - 1);
      if parts[m - 1] == p {
        assert |front + {handles[m - 1]}| == |front| + 1;
      }
    }
  }

  lemma CountOn(parts: seq<Part>, p: Part, m: nat)
    requires 0 < m <= |parts|
    ensures multiset(parts[..m])[p] == multiset(parts[..m - 1])[p] + if parts[m - 1] == p then 1 else 0
  {
    FrontAndLast(parts, m);
  }

  lemma LaterHandle(handles: seq<nat>, parts: seq<Part>, p: Part, m: nat)
    requires m < |parts| == |handles| && Rising(handles)
    ensures handles[m] !in HandlesFor(handles, parts, p, m)
  {
    HandlesForAre(handles, parts, p, m);
  }

  lemma FrontAndLast<T>(items: seq<T>, m: nat)
    requires 0 < m <= |items|
    ensures items[..m] == items[..m - 1] + [items[m - 1]]
  {
  }

  lemma LiveAreHandles(consumer: IceflowConsumer, parts: seq<Part>, p: Part)
    requires consumer.Has(parts) && !consumer.pubSub.expired
    ensures LiveIn(consumer.pubSub.live, consumer.edge, consumer.id, p) == HandlesFor(consumer.handles, parts, p, |parts|)
  {
    HandlesForAre(consumer.handles, parts, p, |parts|);
    forall h
      ensures h in LiveIn(consumer.pubSub.live, consumer.edge, consumer.id, p) <==> h in HandlesFor(consumer.handles, parts, p, |parts|)
    {
      if h in LiveIn(consumer.pubSub.live, consumer.edge, consumer.id, p) {
        assert h in consumer.handles;
        var i :| 0 <= i < |parts| && consumer.handles[i] == h;
      }
    }
  }

  /** A consumer that has just been given a list has its live subscriptions. */
  lemma HasCounted(consumer: IceflowConsumer, parts: seq<Part>)
    requires consumer.Has(parts) && !consumer.pubSub.expired
    ensures Counted(consumer.pubSub.live, consumer.edge, consumer.id, parts)
  {
    forall h | h in consumer.pubSub.live && consumer.pubSub.live[h].subscriber == CallbackOf(consumer.id)
      ensures IsPartitionOf(consumer.pubSub.live[h].channel, consumer.edge)
    {
      var i :| 0 <= i < |consumer.handles| && consumer.handles[i] == h;
    }
    forall p: Part
      ensures |LiveIn(consumer.pubSub.live, consumer.edge, consumer.id, p)| == multiset(parts)[p]
    {
      LiveAreHandles(consumer, parts, p);
      CountHandles(consumer.handles, parts, p, |parts|);
      assert parts[..|parts|] == parts;
    }
  }

  /** Without live subscriptions, handles or not, it is as if the list were empty. */
  lemma NothingCounted(live: map<nat, Subscription>, edge: Component, id: nat)
    requires forall h <- live :: live[h].subscriber != CallbackOf(id)
    ensures Counted(live, edge, id, [])
  {
    forall p: Part ensures |LiveIn(live, edge, id, p)| == 0 {
      assert LiveIn(live, edge, id, p) == {};
    }
  }

  /** What others subscribe and unsubscribe does not matter. */
  lemma CountedAside(before: map<nat, Subscription>, after: map<nat, Subscription>, id: nat, otherId: nat, edge: Component, parts: seq<Part>)
    requires id != otherId && Others(before, id) == Others(after, id) && Counted(before, edge, otherId, parts)
    ensures Counted(after, edge, otherId, parts)
  {
    forall h | h in after && after[h].subscriber == CallbackOf(otherId)
      ensures IsPartitionOf(after[h].channel, edge)
    {
      assert h in Others(after, id) && Others(before, id)[h] == before[h] && Others(after, id)[h] == after[h];
    }
    forall p: Part ensures |LiveIn(after, edge, otherId, p)| == multiset(parts)[p] {
      forall h ensures h in LiveIn(after, edge, otherId, p) <==> h in LiveIn(before, edge, otherId, p) {
        assert h in Others(before, id) <==> h in before && before[h].subscriber != CallbackOf(id);
        assert h in Others(after, id) <==> h in after && after[h].subscriber != CallbackOf(id);
        if h in Others(before, id) {
          assert before[h] == Others(before, id)[h] == Others(after, id)[h] == after[h];
        }
      }
      assert LiveIn(after, edge, otherId, p) == LiveIn(before, edge, otherId, p);
    }
  }

  /** A fresh instance represents its node in the initial state. */
  method Start(n: NodeId, node: Name, t: Topology, instance: Dag.Instance, now: int) returns (flow: IceFlow)
    requires forall e :: e in instance.producers <==> Endpoint(n, e) in t.producers
    requires forall e <- instance.producers :: instance.producers[e] == t.producers[Endpoint(n, e)]
    requires forall e :: e in instance.consumers <==> Endpoint(n, e) in t.consumers
    ensures fresh(flow) && Represents(flow, n, t, Init())
  {
    flow := Wire(node, t.app, instance, now);
    forall e | e in flow.consumers ensures SameConsumer(flow, e, Endpoint(n, e), Init()) {
      HasCounted(flow.consumers[e], []);
    }
  }

  // --- Steps of the node itself ---

  /** What consumers have depends on two parts of the state only. */
  lemma SameForConsumers(flow: IceFlow, n: NodeId, s: State, s': State)
    requires SameConsumers(flow, n, s) && s'.partitions == s.partitions && s'.callbacks == s.callbacks
    ensures SameConsumers(flow, n, s')
  {
    forall e | e in flow.consumers ensures SameConsumer(flow, e, Endpoint(n, e), s') {
      assert SameConsumer(flow, e, Endpoint(n, e), s);
    }
  }

  /** Node n has published these in between, and nothing else that matters to its instance has changed. */
  ghost predicate Grown(s: State, s': State, n: NodeId, publications: seq<Publication>)
  {
    && s'.partitions == s.partitions && s'.callbacks == s.callbacks
    && Log(s', n) == Log(s, n) + publications
    && forall k: nat :: Item(n, k) in s'.stored <==> Item(n, k) in s.stored || |Log(s, n)| < k <= |Log(s, n)| + |publications|
  }

  lemma GrowsByOne(s: State, s1: State, n: NodeId, publications: seq<Publication>, publication: Publication)
    requires Grown(s, s1, n, publications)
    ensures Grown(s, PublishAt(s1, n, publication), n, publications + [publication])
  {
  }

  lemma GrownForConsumers(flow: IceFlow, n: NodeId, s: State, s': State, publications: seq<Publication>)
    requires SameConsumers(flow, n, s) && Grown(s, s', n, publications)
    ensures SameConsumers(flow, n, s')
  {
    SameForConsumers(flow, n, s, s');
  }

  lemma GrownLog(pubSub: SVSPubSub, before: set<Name>, n: NodeId, s: State, s': State, publications: seq<Publication>)
    requires SameStore(pubSub.node, pubSub.app, before, n, s.stored) && Grown(s, s', n, publications) && |pubSub.published| < U64
    requires pubSub.published == Log(s, n) + publications
    requires pubSub.store == before + NamesFrom(pubSub.node, pubSub.app, |Log(s, n)|, |pubSub.published|)
    ensures SameLog(pubSub, n, s')
  {
    StoreGrows(pubSub.node, pubSub.app, before, pubSub.store, n, s.stored, s'.stored, |Log(s, n)|, |pubSub.published|);
  }

  lemma GrownRepresents(flow: IceFlow, before: set<Name>, n: NodeId, t: Topology, s: State, s': State, publications: seq<Publication>)
    requires flow.Valid() && !flow.pubSub.expired && flow.pubSub.app == t.app && SameEnds(flow, n, t) && SameConsumers(flow, n, s)
    requires SameStore(flow.pubSub.node, flow.pubSub.app, before, n, s.stored) && Grown(s, s', n, publications)
    requires flow.pubSub.published == Log(s, n) + publications
    requires flow.pubSub.store == before + NamesFrom(flow.pubSub.node, flow.pubSub.app, |Log(s, n)|, |flow.pubSub.published|)
    ensures Represents(flow, n, t, s')
  {
    GrownLog(flow.pubSub, before, n, s, s', publications);
    GrownForConsumers(flow, n, s, s', publications);
  }

  lemma PublishIsStep(t: Topology, s: State, at: Endpoint, draw: nat, payload: string)
    requires at in t.producers && CanPublish(s, at.node)
    ensures var publication := Data(at.edge, draw % t.producers[at], payload);
      var s' := PublishAt(s, at.node, publication);
      Next(t, s, Publish(at, draw, payload), s') && Grown(s, s', at.node, [publication])
  {
  }

  method Push(flow: IceFlow, n: NodeId, edge: Component, payload: string, draw: nat, ghost t: Topology, ghost s: State)
    returns (ghost s': State)
    requires Represents(flow, n, t, s) && edge in flow.producers && draw < U32 && |flow.pubSub.published| + 1 < U64
    modifies flow.pubSub`published, flow.pubSub`store
    ensures Next(t, s, Publish(Endpoint(n, edge), draw, payload), s') && Represents(flow, n, t, s')
  {
    ghost var before := flow.pubSub.store;
    ghost var publication := Data(edge, draw % t.producers[Endpoint(n, edge)], payload);
    PublishIsStep(t, s, Endpoint(n, edge), draw, payload);
    var ok := flow.PushData(edge, payload, draw);
    s' := PublishAt(s, n, publication);
    OneName(flow.pubSub.node, t.app, |flow.pubSub.published|);
    GrownRepresents(flow, before, n, t, s, s', [publication]);
  }

  lemma OneName(node: Name, app: Name, k: nat)
    requires 0 < k < U64
    ensures NamesFrom(node, app, k - 1, k) == {StoreName(node, app, k)}
  {
    var names := NamesFrom(node, app, k - 1, k);
    assert StoreName(node, app, k) in names by {
      var j: nat := k;
      assert k - 1 < j <= k && StoreName(node, app, j) == StoreName(node, app, k);
    }
    forall name | name in names ensures name == StoreName(node, app, k) {
      var j: nat :| k - 1 < j <= k && StoreName(node, app, j) == name;
    }
  }

  lemma AssignIsStep(t: Topology, s: State, c: Endpoint, parts: seq<Part>)
    requires c in t.consumers
    ensures Next(t, s, Repartition(c, parts), s.(partitions := s.partitions[c := parts]))
  {
  }

  lemma AssignedConsumers(flow: IceFlow, before: map<nat, Subscription>, n: NodeId, s: State, s': State, edge: Component, parts: seq<Part>)
    requires flow.Valid() && !flow.pubSub.expired && edge in flow.consumers && flow.consumers[edge].Has(parts)
    requires Others(before, flow.consumers[edge].id) == Others(flow.pubSub.live, flow.consumers[edge].id)
    requires s' == s.(partitions := s.partitions[Endpoint(n, edge) := parts])
    requires forall e <- flow.consumers ::
      && Counted(before, e, flow.consumers[e].id, Parts(s, Endpoint(n, e)))
      && (flow.consumers[e].hasCallback <==> Endpoint(n, e) in s.callbacks)
    ensures SameConsumers(flow, n, s')
  {
    forall e | e in flow.consumers ensures SameConsumer(flow, e, Endpoint(n, e), s') {
      if e == edge {
        HasCounted(flow.consumers[edge], parts);
      } else {
        CountedAside(before, flow.pubSub.live, flow.consumers[edge].id, flow.consumers[e].id, e, Parts(s, Endpoint(n, e)));
      }
    }
  }

  method Assign(flow: IceFlow, n: NodeId, edge: Component, parts: seq<Part>, ghost t: Topology, ghost s: State)
    returns (ghost s': State)
    requires Represents(flow, n, t, s) && edge in flow.consumers
    modifies flow.consumers.Values`handles, flow.pubSub`live, flow.pubSub`nextHandle
    ensures Next(t, s, Repartition(Endpoint(n, edge), parts), s') && Represents(flow, n, t, s')
  {
    s' := s.(partitions := s.partitions[Endpoint(n, edge) := parts]);
    ghost var before := flow.pubSub.live;
    assert forall e <- flow.consumers :: SameConsumer(flow, e, Endpoint(n, e), s);
    var ok := flow.RepartitionConsumer(edge, parts);
    AssignedConsumers(flow, before, n, s, s', edge, parts);
    AssignIsStep(t, s, Endpoint(n, edge), parts);
  }

  lemma RegisterIsStep(t: Topology, s: State, c: Endpoint)
    requires c in t.consumers
    ensures Next(t, s, SetCallback(c), s.(callbacks := s.callbacks + {c}))
  {
  }

  method Register(flow: IceFlow, n: NodeId, edge: Component, ghost t: Topology, ghost s: State) returns (ghost s': State)
    requires Represents(flow, n, t, s) && edge in flow.consumers
    modifies flow.consumers.Values`hasCallback
    ensures Next(t, s, SetCallback(Endpoint(n, edge)), s') && Represents(flow, n, t, s')
  {
    RegisterIsStep(t, s, Endpoint(n, edge));
    s' := s.(callbacks := s.callbacks + {Endpoint(n, edge)});
    var ok := flow.RegisterConsumerCallback(edge);
    forall e | e in flow.consumers ensures SameConsumer(flow, e, Endpoint(n, e), s') {
      assert old(SameConsumer(flow, e, Endpoint(n, e), s));
    }
  }

  /** The state after the handling of an acknowledgement. */
  function Handled(s: State, notice: Notice, text: string): State
  {
    s.(notices := s.notices - {notice},
       stored := match ParseNumber(text)
                 case Some(seqNo) => s.stored - {Item(notice.at.node, seqNo)}
                 case None => s.stored)
  }

  lemma StoreShrinks(node: Name, app: Name, before: set<Name>, n: NodeId, stored: set<Item>, seqNo: nat)
    requires SameStore(node, app, before, n, stored) && seqNo < U64
    ensures SameStore(node, app, before - {StoreName(node, app, seqNo)}, n, stored - {Item(n, seqNo)})
  {
    forall k: nat | k < U64 ensures StoreName(node, app, k) == StoreName(node, app, seqNo) <==> k == seqNo {
      StoreNameInjective(node, app, k, seqNo);
    }
  }

  lemma StoreHandled(node: Name, app: Name, before: set<Name>, after: set<Name>, s: State, notice: Notice, text: string)
    requires SameStore(node, app, before, notice.at.node, s.stored)
    requires after == match ParseNumber(text)
      case Some(seqNo) => before - {StoreName(node, app, seqNo)}
      case None => before
    ensures SameStore(node, app, after, notice.at.node, Handled(s, notice, text).stored)
    ensures var s' := Handled(s, notice, text); s'.log == s.log && s'.partitions == s.partitions && s'.callbacks == s.callbacks
  {
    if ParseNumber(text).Some? {
      StoreShrinks(node, app, before, notice.at.node, s.stored, ParseNumber(text).value);
    }
  }

  lemma HandlingIsStep(t: Topology, s: State, notice: Notice)
    requires notice in s.notices && Published(s, notice.ack)
    ensures Next(t, s, HandleAck(notice), Handled(s, notice, At(s, notice.ack).Text()))
  {
  }

  method Acknowledge(flow: IceFlow, n: NodeId, edge: Component, ack: Item, text: string, ghost t: Topology, ghost s: State)
    returns (ghost s': State)
    requires Represents(flow, n, t, s) && edge in flow.producers
    requires Notice(Endpoint(n, edge), ack) in s.notices && Published(s, ack) && text == At(s, ack).Text()
    modifies flow.pubSub`store
    ensures Next(t, s, HandleAck(Notice(Endpoint(n, edge), ack)), s') && Represents(flow, n, t, s')
  {
    ghost var notice := Notice(Endpoint(n, edge), ack);
    HandlingIsStep(t, s, notice);
    ghost var before := flow.pubSub.store;
    s' := Handled(s, notice, text);
    flow.producers[edge].HandleBackchannel(text);
    StoreHandled(flow.pubSub.node, t.app, before, flow.pubSub.store, s, notice, text);
    SameForConsumers(flow, n, s, s');
  }

  // --- A delivery: callback, publications of the callback, acknowledgement ---

  ghost predicate Path(t: Topology, states: seq<State>, steps: seq<Step>)
  {
    && |states| == |steps| + 1
    && forall i :: 0 <= i < |steps| ==> Next(t, states[i], steps[i], states[i + 1])
  }

  lemma ExtendPath(t: Topology, states: seq<State>, steps: seq<Step>, step: Step, s': State)
    requires Path(t, states, steps) && Next(t, states[|steps|], step, s')
    ensures Path(t, states + [s'], steps + [step])
  {
  }

  /** What a callback pushes: the edge, the generator's output, and the data. */
  datatype Pushed = Pushed(edge: Component, draw: nat, payload: string)

  ghost predicate CanPush(t: Topology, n: NodeId, pushes: seq<Pushed>)
  {
    forall i :: 0 <= i < |pushes| ==> Endpoint(n, pushes[i].edge) in t.producers
  }

  function Publications(t: Topology, n: NodeId, pushes: seq<Pushed>): seq<Publication>
    requires forall i :: 0 <= i < |pushes| ==> Endpoint(n, pushes[i].edge) in t.producers
  {
    seq(|pushes|, i requires 0 <= i < |pushes| =>
      Data(pushes[i].edge, pushes[i].draw % t.producers[Endpoint(n, pushes[i].edge)], pushes[i].payload))
  }

  function PublishSteps(n: NodeId, pushes: seq<Pushed>): seq<Step>
  {
    seq(|pushes|, i requires 0 <= i < |pushes| => Publish(Endpoint(n, pushes[i].edge), pushes[i].draw, pushes[i].payload))
  }

  /** After the first m publications. */
  function PublishedUpTo(s: State, n: NodeId, publications: seq<Publication>, m: nat): State
    requires m <= |publications|
  {
    if m == 0 then s else PublishAt(PublishedUpTo(s, n, publications, m - 1), n, publications[m - 1])
  }

  lemma {:induction false} UpToGrown(s: State, n: NodeId, publications: seq<Publication>, m: nat)
    requires m <= |publications|
    ensures Grown(s, PublishedUpTo(s, n, publications, m), n, publications[..m])
    ensures PublishedUpTo(s, n, publications, m).ackDue == s.ackDue
  {
    if m > 0 {
      UpToGrown(s, n, publications, m - 1);
      GrowsByOne(s, PublishedUpTo(s, n, publications, m - 1), n, publications[..m - 1], publications[m - 1]);
      assert publications[..m] == publications[..m - 1] + [publications[m - 1]];
    }
  }

  lemma {:induction false} PublishPath(t: Topology, s: State, n: NodeId, pushes: seq<Pushed>, m: nat) returns (states: seq<State>)
    requires CanPush(t, n, pushes) && m <= |pushes| && |Log(s, n)| + m < U64
    ensures Path(t, states, PublishSteps(n, pushes)[..m]) && states[0] == s
    ensures states[m] == PublishedUpTo(s, n, Publications(t, n, pushes), m)
  {
    if m == 0 {
      states := [s];
    } else {
      states := PublishPath(t, s, n, pushes, m - 1);
      var s' := PublishedUpTo(s, n, Publications(t, n, pushes), m);
      UpToGrown(s, n, Publications(t, n, pushes), m - 1);
      NextPush(t, states[m - 1], n, pushes, m - 1);
      PathOn(t, states, PublishSteps(n, pushes), m, s');
      states := states + [s'];
    }
  }

  lemma PathOn(t: Topology, states: seq<State>, steps: seq<Step>, m: nat, s': State)
    requires 0 < m <= |steps| && Path(t, states, steps[..m - 1]) && Next(t, states[m - 1], steps[m - 1], s')
    ensures Path(t, states + [s'], steps[..m])
  {
    ExtendPath(t, states, steps[..m - 1], steps[m - 1], s');
    FrontAndLast(steps, m);
  }

  lemma NextPush(t: Topology, s: State, n: NodeId, pushes: seq<Pushed>, i: nat)
    requires CanPush(t, n, pushes) && i < |pushes| && CanPublish(s, n)
    ensures Next(t, s, PublishSteps(n, pushes)[i], PublishAt(s, n, Publications(t, n, pushes)[i]))
  {
    PublishIsStep(t, s, Endpoint(n, pushes[i].edge), pushes[i].draw, pushes[i].payload);
  }

  lemma RunIsStep(t: Topology, s: State, d: Delivery)
    requires d in s.pending
    ensures Next(t, s, RunCallback(d), if d.at in s.callbacks then Ran(s, d) else Skipped(s, d))
  {
  }

  lemma AckIsStep(t: Topology, s: State, d: Delivery)
    requires d in s.ackDue && CanPublish(s, d.at.node)
    ensures Next(t, s, SendAck(d), Acked(s, d))
  {
  }

  /** The state after a delivery with a callback. */
  function Answered(t: Topology, s: State, d: Delivery, pushes: seq<Pushed>): State
    requires forall i :: 0 <= i < |pushes| ==> Endpoint(d.at.node, pushes[i].edge) in t.producers
  {
    Acked(PublishedUpTo(Ran(s, d), d.at.node, Publications(t, d.at.node, pushes), |pushes|), d)
  }

  lemma AckedPath(t: Topology, s: State, d: Delivery, pushes: seq<Pushed>) returns (states: seq<State>)
    requires d in s.ackDue && CanPush(t, d.at.node, pushes) && |Log(s, d.at.node)| + |pushes| + 1 < U64
    ensures Path(t, states, PublishSteps(d.at.node, pushes) + [SendAck(d)]) && states[0] == s
    ensures states[|pushes| + 1] == Acked(PublishedUpTo(s, d.at.node, Publications(t, d.at.node, pushes), |pushes|), d)
  {
    var n, m := d.at.node, |pushes|;
    states := PublishPath(t, s, n, pushes, m);
    assert PublishSteps(n, pushes)[..m] == PublishSteps(n, pushes);
    UpToGrown(s, n, Publications(t, n, pushes), m);
    AckIsStep(t, states[m], d);
    ExtendPath(t, states, PublishSteps(n, pushes), SendAck(d), Acked(states[m], d));
    states := states + [Acked(states[m], d)];
  }

  lemma AnswerPath(t: Topology, s: State, d: Delivery, pushes: seq<Pushed>) returns (states: seq<State>)
    requires d in s.pending && d.at in s.callbacks && CanPush(t, d.at.node, pushes) && |Log(s, d.at.node)| + |pushes| + 1 < U64
    ensures Path(t, states, [RunCallback(d)] + (PublishSteps(d.at.node, pushes) + [SendAck(d)]))
    ensures states[0] == s && states[|pushes| + 2] == Answered(t, s, d, pushes)
  {
    var rest := AckedPath(t, Ran(s, d), d, pushes);
    RunIsStep(t, s, d);
    PrependPath(t, s, RunCallback(d), rest, PublishSteps(d.at.node, pushes) + [SendAck(d)]);
    states := [s] + rest;
  }

  lemma ThrowPath(t: Topology, s: State, d: Delivery, pushes: seq<Pushed>) returns (states: seq<State>)
    requires d in s.pending && d.at in s.callbacks && CanPush(t, d.at.node, pushes) && |Log(s, d.at.node)| + |pushes| < U64
    ensures Path(t, states, [RunCallback(d)] + PublishSteps(d.at.node, pushes)) && states[0] == s
    ensures Grown(s, states[|pushes| + 1], d.at.node, Publications(t, d.at.node, pushes))
  {
    var n, m := d.at.node, |pushes|;
    var rest := PublishPath(t, Ran(s, d), n, pushes, m);
    assert PublishSteps(n, pushes)[..m] == PublishSteps(n, pushes);
    UpToGrown(Ran(s, d), n, Publications(t, n, pushes), m);
    assert Publications(t, n, pushes)[..m] == Publications(t, n, pushes);
    RunIsStep(t, s, d);
    PrependPath(t, s, RunCallback(d), rest, PublishSteps(n, pushes));
    states := [s] + rest;
  }

  lemma PrependPath(t: Topology, s: State, step: Step, states: seq<State>, steps: seq<Step>)
    requires Path(t, states, steps) && Next(t, s, step, states[0])
    ensures Path(t, [s] + states, [step] + steps)
  {
    forall i | 0 <= i < |steps| + 1 ensures Next(t, ([s] + states)[i], ([step] + steps)[i], ([s] + states)[i + 1]) {
      if i > 0 {
        assert Next(t, states[i - 1], steps[i - 1], states[i]);
      }
    }
  }

  lemma AnsweredIs(t: Topology, s: State, d: Delivery, pushes: seq<Pushed>)
    requires CanPush(t, d.at.node, pushes)
    ensures Grown(s, Answered(t, s, d, pushes), d.at.node,
      Publications(t, d.at.node, pushes) + [Ack(d.at.edge, Dump(d.item.seqNo))])
  {
    var n, m := d.at.node, |pushes|;
    var publications := Publications(t, n, pushes);
    UpToGrown(Ran(s, d), n, publications, m);
    assert publications[..m] == publications;
    var s2 := PublishedUpTo(Ran(s, d), n, publications, m);
    GrowsByOne(s, s2.(ackDue := s2.ackDue - multiset{d}), n, publications, Ack(d.at.edge, Dump(d.item.seqNo)));
  }

  /** What a delivery publishes: the callback's own publications and, unless the callback throws, the acknowledgement. */
  function Answer(s: State, d: Delivery, publications: seq<Publication>, throws: bool): seq<Publication>
  {
    if d.at !in s.callbacks then []
    else publications + if throws then [] else [Ack(d.at.edge, Dump(d.item.seqNo))]
  }

  /** The steps of a delivery. */
  function DeliverySteps(s: State, d: Delivery, pushes: seq<Pushed>, throws: bool): seq<Step>
  {
    [RunCallback(d)]
    + if d.at !in s.callbacks then []
      else PublishSteps(d.at.node, pushes) + if throws then [] else [SendAck(d)]
  }

  /**
   The run of a delivery. With a callback: it runs, makes its publications, and the
   item is acknowledged, except that a callback that throws leaves the acknowledgement
   due for ever; without: the delivery is skipped.
  */
  lemma DeliveryPath(t: Topology, s: State, d: Delivery, pushes: seq<Pushed>, throws: bool) returns (states: seq<State>, steps: seq<Step>)
    requires d in s.pending && |Log(s, d.at.node)| + |pushes| + 1 < U64
    requires forall i :: 0 <= i < |pushes| ==> Endpoint(d.at.node, pushes[i].edge) in t.producers
    ensures Path(t, states, steps) && states[0] == s && steps == DeliverySteps(s, d, pushes, throws)
    ensures Grown(s, states[|steps|], d.at.node, Answer(s, d, Publications(t, d.at.node, pushes), throws))
  {
    steps := DeliverySteps(s, d, pushes, throws);
    if d.at !in s.callbacks {
      states := SkipPath(t, s, d);
    } else if throws {
      states := ThrowPath(t, s, d, pushes);
      assert steps == [RunCallback(d)] + PublishSteps(d.at.node, pushes);
    } else {
      states := AnswerPath(t, s, d, pushes);
      AnsweredIs(t, s, d, pushes);
    }
  }

  lemma SkipPath(t: Topology, s: State, d: Delivery) returns (states: seq<State>)
    requires d in s.pending && d.at !in s.callbacks
    ensures Path(t, states, [RunCallback(d)]) && states[0] == s && Grown(s, states[1], d.at.node, [])
  {
    RunIsStep(t, s, d);
    states := [s, Skipped(s, d)];
  }

  /**
   A delivery is handled: the callback, if there is one, is invoked on the item's
   payload, and afterwards the instance represents the state at the end of the run
   that `DeliveryPath` gives.
  */
  method Deliver(flow: IceFlow, d: Delivery, data: string, publications: seq<Publication>, throws: bool, now: int,
                 ghost t: Topology, ghost s: State, ghost s': State)
    returns (invokedOn: Option<string>)
    requires Represents(flow, d.at.node, t, s) && d.at.edge in flow.consumers && d.item.seqNo < U64
    requires d in s.pending && Published(s, d.item) && data == At(s, d.item).Text()
    requires |flow.pubSub.published| + |publications| + 1 < U64
    requires Grown(s, s', d.at.node, Answer(s, d, publications, throws))
    modifies flow.consumers.Values`timestamps, flow.consumers.Values`idleSince, flow.pubSub`published, flow.pubSub`store
    ensures Represents(flow, d.at.node, t, s')
    ensures invokedOn == if d.at in s.callbacks then Some(At(s, d.item).Text()) else None
  {
    ghost var before := flow.pubSub.store;
    assert SameConsumer(flow, d.at.edge, d.at, s);
    ghost var answer := Answer(s, d, publications, throws);
    invokedOn := flow.Receive(d.at.edge, d.item.seqNo, data, publications, throws, now);
    assert flow.pubSub.published == Log(s, d.at.node) + answer;
    GrownRepresents(flow, before, d.at.node, t, s, s', answer);
  }

  /** A run from the end of an execution on continues the execution. */
  lemma PathExtendsExecution(t: Topology, before: seq<State>, done: seq<Step>, states: seq<State>, steps: seq<Step>)
    requires Execution(t, before, done) && Path(t, states, steps) && states[0] == before[|done|]
    ensures Execution(t, before + states[1..], done + steps)
  {
    forall i | 0 <= i < |done + steps|
      ensures Next(t, (before + states[1..])[i], (done + steps)[i], (before + states[1..])[i + 1])
    {
      if i >= |done| {
        var k := i - |done|;
        assert Next(t, states[k], steps[k], states[k + 1]);
        assert (before + states[1..])[i] == states[k] && (before + states[1..])[i + 1] == states[k + 1];
      }
    }
  }

  /** What it means for an instance to represent its node: log, store, live subscriptions and callbacks. */
  lemma RepresentsMeans(flow: IceFlow, n: NodeId, t: Topology, s: State, e: Component, k: nat, p: Part)
    requires Represents(flow, n, t, s) && k < U64
    ensures flow.Valid() && !flow.pubSub.expired && flow.pubSub.published == Log(s, n)
    ensures StoreName(flow.pubSub.node, t.app, k) in flow.pubSub.store <==> Item(n, k) in s.stored
    ensures e in flow.producers <==> Endpoint(n, e) in t.producers
    ensures e in flow.producers ==> flow.producers[e].Listens() && flow.producers[e].numberOfPartitions == t.producers[Endpoint(n, e)]
    ensures e in flow.consumers <==> Endpoint(n, e) in t.consumers
    ensures e in flow.consumers ==>
      && (flow.consumers[e].hasCallback <==> Endpoint(n, e) in s.callbacks)
      && |set h | h in flow.pubSub.live
                  && flow.pubSub.live[h] == Subscription(Partition(e, p), CallbackOf(flow.consumers[e].id))|
         == multiset(Parts(s, Endpoint(n, e)))[p]
      && forall h <- flow.pubSub.live :: flow.pubSub.live[h].subscriber == CallbackOf(flow.consumers[e].id) ==>
           flow.pubSub.live[h].channel.Partition? && flow.pubSub.live[h].channel.edge == e
  {
    if e in flow.consumers {
      assert SameConsumer(flow, e, Endpoint(n, e), s);
      assert LiveIn(flow.pubSub.live, e, flow.consumers[e].id, p)
          == set h | h in flow.pubSub.live && flow.pubSub.live[h] == Subscription(Partition(e, p), CallbackOf(flow.consumers[e].id));
    }
  }

  // --- The run of a delivery, as part of a stage ---

  /** What the pushes from the i-th on publish on the edge. */
  function PushedFrom(edge: Component, pushes: seq<Pushed>, i: nat): seq<string>
    requires i <= |pushes|
    decreases |pushes| - i
  {
    if i == |pushes| then []
    else (if pushes[i].edge == edge then [pushes[i].payload] else []) + PushedFrom(edge, pushes, i + 1)
  }

  lemma NextPushedFrom(edge: Component, pushes: seq<Pushed>, i: nat)
    requires i < |pushes| && pushes[i].edge == edge
    ensures PushedFrom(edge, pushes, i)[0] == pushes[i].payload
    ensures PushedFrom(edge, pushes, i)[1..] == PushedFrom(edge, pushes, i + 1)
  {
  }

  /** The loop of the delivery's node during its run. */
  lemma {:induction false} LoopDuring(stage: Stage, states: seq<State>, d: Delivery, pushes: seq<Pushed>, j: nat)
    requires |states| == |pushes| + 3 && d.at in states[0].callbacks && j <= |pushes|
    requires PushedFrom(stage.downstream, pushes, 0) == Results(stage, states[0], d)
    ensures var steps := DeliverySteps(states[0], d, pushes, false);
      LoopAt(stage, states, steps, d.at.node, j + 1) == Busy(d, PushedFrom(stage.downstream, pushes, j))
  {
    if j > 0 {
      var steps := DeliverySteps(states[0], d, pushes, false);
      LoopDuring(stage, states, d, pushes, j - 1);
      assert steps[j] == PublishSteps(d.at.node, pushes)[j - 1];
      if pushes[j - 1].edge == stage.downstream {
        NextPushedFrom(stage.downstream, pushes, j - 1);
      }
    }
  }

  lemma ServedHere(stage: Stage, states: seq<State>, d: Delivery, pushes: seq<Pushed>)
    requires |states| == |pushes| + 3 && d.at in states[0].callbacks
    requires PushedFrom(stage.downstream, pushes, 0) == Results(stage, states[0], d)
    ensures Serves(stage, states, DeliverySteps(states[0], d, pushes, false), d.at.node)
  {
    var steps, m := DeliverySteps(states[0], d, pushes, false), |pushes|;
    forall j: nat | j < |steps| ensures InTurnAt(stage, states, steps, d.at.node, j) {
      if 0 < j <= m {
        LoopDuring(stage, states, d, pushes, j - 1);
        assert steps[j] == PublishSteps(d.at.node, pushes)[j - 1];
        if pushes[j - 1].edge == stage.downstream {
          NextPushedFrom(stage.downstream, pushes, j - 1);
        }
      } else if j == m + 1 {
        LoopDuring(stage, states, d, pushes, m);
      }
    }
    LoopDuring(stage, states, d, pushes, m);
    assert steps[m + 1] == SendAck(d);
  }

  lemma {:induction false} LoopElsewhere(stage: Stage, states: seq<State>, d: Delivery, pushes: seq<Pushed>, throws: bool, node: NodeId, j: nat)
    requires states != [] && |states| == |DeliverySteps(states[0], d, pushes, throws)| + 1 && node != d.at.node && j < |states|
    ensures LoopAt(stage, states, DeliverySteps(states[0], d, pushes, throws), node, j) == Free
  {
    if j > 0 {
      LoopElsewhere(stage, states, d, pushes, throws, node, j - 1);
    }
  }

  /**
   The run of a delivery whose callback pushes, besides whatever it pushes on other
   edges, the stage's results downstream: each node serves the stage, so that with
   `ServesOn` and `ServingAnswers` instances that handle their deliveries with
   `Deliver` answer as the stage does.
  */
  lemma DeliveryServes(stage: Stage, t: Topology, states: seq<State>, d: Delivery, pushes: seq<Pushed>, node: NodeId)
    requires states != [] && Path(t, states, DeliverySteps(states[0], d, pushes, false))
    requires d.at in states[0].callbacks ==> PushedFrom(stage.downstream, pushes, 0) == Results(stage, states[0], d)
    ensures Serves(stage, states, DeliverySteps(states[0], d, pushes, false), node)
  {
    var steps := DeliverySteps(states[0], d, pushes, false);
    if node != d.at.node {
      forall j: nat | j < |steps| ensures InTurnAt(stage, states, steps, node, j) {
        LoopElsewhere(stage, states, d, pushes, false, node, j);
      }
      LoopElsewhere(stage, states, d, pushes, false, node, |steps|);
    } else if d.at in states[0].callbacks {
      ServedHere(stage, states, d, pushes);
    } else {
      forall j: nat | j < |steps| ensures InTurnAt(stage, states, steps, node, j) {
        assert steps[j] == RunCallback(d);
      }
    }
  }

  // --- A query of the statistics unsubscribes everybody ---

  /** The consumers of these edges at node n have an empty list each, and nothing else has changed. */
  ghost predicate Cleared(s: State, s': State, n: NodeId, edges: set<Component>)
  {
    && s' == s.(partitions := s'.partitions)
    && forall c :: Parts(s', c) == if c.node == n && c.edge in edges then [] else Parts(s, c)
  }

  lemma ClearOne(t: Topology, s: State, s1: State, n: NodeId, done: set<Component>, e: Component) returns (s': State)
    requires Cleared(s, s1, n, done) && Endpoint(n, e) in t.consumers
    ensures Next(t, s1, Repartition(Endpoint(n, e), []), s') && Cleared(s, s', n, done + {e})
  {
    AssignIsStep(t, s1, Endpoint(n, e), []);
    s' := s1.(partitions := s1.partitions[Endpoint(n, e) := []]);
  }

  /** The run that takes every partition away from the node's consumers, one after the other. */
  lemma {:induction false} ClearPath(t: Topology, s: State, n: NodeId, edges: set<Component>)
    returns (states: seq<State>, steps: seq<Step>)
    requires forall e <- edges :: Endpoint(n, e) in t.consumers
    ensures Path(t, states, steps) && states[0] == s && Cleared(s, states[|steps|], n, edges)
    ensures |steps| == |edges| && forall e <- edges :: Repartition(Endpoint(n, e), []) in steps
    decreases edges
  {
    if edges == {} {
      states, steps := [s], [];
    } else {
      var e :| e in edges;
      var rest := edges - {e};
      states, steps := ClearPath(t, s, n, rest);
      var s' := ClearOne(t, s, states[|steps|], n, rest, e);
      ExtendPath(t, states, steps, Repartition(Endpoint(n, e), []), s');
      assert rest + {e} == edges;
      ghost var before := steps;
      states, steps := states + [s'], steps + [Repartition(Endpoint(n, e), [])];
      forall f | f in edges ensures Repartition(Endpoint(n, f), []) in steps {
        if f != e {
          assert Repartition(Endpoint(n, f), []) in before;
        }
      }
    }
  }

  lemma ClearedRepresents(flow: IceFlow, n: NodeId, t: Topology, s: State, s': State)
    requires flow.Valid() && !flow.pubSub.expired && flow.pubSub.app == t.app && SameEnds(flow, n, t) && SameLog(flow.pubSub, n, s)
    requires flow.NoneSubscribed() && Cleared(s, s', n, flow.consumers.Keys)
    requires forall e <- flow.consumers :: flow.consumers[e].hasCallback <==> Endpoint(n, e) in s.callbacks
    ensures Represents(flow, n, t, s')
  {
    forall e | e in flow.consumers ensures SameConsumer(flow, e, Endpoint(n, e), s') {
      NothingCounted(flow.pubSub.live, e, flow.consumers[e].id);
    }
  }

  /**
   A query by the executor is, for the protocol, a repartitioning of each consumer of
   the node to no partition at all: afterwards the instance represents the state at
   the end of the run that `ClearPath` gives.
  */
  method Query(flow: IceFlow, n: NodeId, now: int, ghost t: Topology, ghost s: State, ghost s': State)
    returns (result: map<Component, EdgeStats>)
    requires Represents(flow, n, t, s) && Cleared(s, s', n, flow.consumers.Keys)
    modifies flow.pubSub`live
    ensures result.Keys == flow.producers.Keys + flow.consumers.Keys && Represents(flow, n, t, s')
  {
    assert forall e <- flow.consumers :: SameConsumer(flow, e, Endpoint(n, e), s);
    result := flow.QueryOver(now);
    ClearedRepresents(flow, n, t, s, s');
  }

  /**
   So a consumer misses whatever its node learns of after a query and before the
   consumer is repartitioned again: none of it is ever delivered there.
  */
  lemma QueriedConsumersMissItems(t: Topology, states: seq<State>, steps: seq<Step>, q: nat, i: nat, j: nat, d: Delivery)
    requires Execution(t, states, steps) && q < i < j < |states|
    requires steps[q] == Repartition(d.at, [])
    requires forall m :: q < m < i && steps[m].Repartition? ==> steps[m].at != d.at
    requires Learns(steps, i, d.at.node, d.item) && Proper(t, states[i], d)
    ensures Deliveries(states[j], d) == 0
  {
    PartsStay(t, states, steps, q + 1, i, d.at);
    DeliveryIsConserved(t, states, steps, i, j, d);
  }

  // --- Everything else leaves the instance as it is ---

  /** The step is not one of node n; learning of an item and running callbacks change nothing in `Represents`. */
  predicate NotOf(step: Step, n: NodeId)
  {
    match step
    case Publish(at, _, _) => at.node != n
    case SendAck(d) => d.at.node != n
    case HandleAck(notice) => notice.at.node != n
    case Repartition(at, _) => at.node != n
    case SetCallback(at) => at.node != n
    case _ => true
  }

  ghost predicate SameFor(s: State, s': State, n: NodeId)
  {
    && Log(s', n) == Log(s, n)
    && (forall k: nat :: Item(n, k) in s'.stored <==> Item(n, k) in s.stored)
    && (forall e :: Parts(s', Endpoint(n, e)) == Parts(s, Endpoint(n, e)))
    && forall e :: Endpoint(n, e) in s'.callbacks <==> Endpoint(n, e) in s.callbacks
  }

  lemma OtherStepsChangeNothing(t: Topology, s: State, step: Step, s': State, n: NodeId)
    requires Next(t, s, step, s') && NotOf(step, n)
    ensures SameFor(s, s', n)
  {
    if step.Publish? || step.SendAck? {
      PublishedElsewhere(t, s, step, s', n);
    } else if step.HandleAck? {
      HandledElsewhere(t, s, step, s', n);
    } else if step.Repartition? || step.SetCallback? {
      SetElsewhere(t, s, step, s', n);
    } else {
      SettingsKept(t, s, step, s');
    }
  }

  lemma PublishedElsewhere(t: Topology, s: State, step: Step, s': State, n: NodeId)
    requires Next(t, s, step, s') && NotOf(step, n) && (step.Publish? || step.SendAck?)
    ensures SameFor(s, s', n)
  {
  }

  lemma HandledElsewhere(t: Topology, s: State, step: Step, s': State, n: NodeId)
    requires Next(t, s, step, s') && NotOf(step, n) && step.HandleAck?
    ensures SameFor(s, s', n)
  {
  }

  lemma SetElsewhere(t: Topology, s: State, step: Step, s': State, n: NodeId)
    requires Next(t, s, step, s') && NotOf(step, n) && (step.Repartition? || step.SetCallback?)
    ensures SameFor(s, s', n)
  {
  }

  lemma SettingsKept(t: Topology, s: State, step: Step, s': State)
    requires Next(t, s, step, s') && (step.Notify? || step.RunCallback?)
    ensures SameSettings(s, s')
  {
  }

  ghost predicate SameSettings(s: State, s': State)
  {
    s'.log == s.log && s'.stored == s.stored && s'.partitions == s.partitions && s'.callbacks == s.callbacks
  }

  lemma OtherStepsKeep(flow: IceFlow, n: NodeId, t: Topology, s: State, step: Step, s': State)
    requires Represents(flow, n, t, s) && Next(t, s, step, s')
    requires step.Publish? || step.Repartition? || step.SetCallback? ==> step.at.node != n
    requires (step.SendAck? ==> step.delivery.at.node != n) && (step.HandleAck? ==> step.notice.at.node != n)
    ensures Represents(flow, n, t, s')
  {
    assert NotOf(step, n);
    OtherStepsChangeNothing(t, s, step, s', n);
    SameForRepresents(flow, n, t, s, s');
  }

  lemma SameForRepresents(flow: IceFlow, n: NodeId, t: Topology, s: State, s': State)
    requires Represents(flow, n, t, s) && SameFor(s, s', n)
    ensures Represents(flow, n, t, s')
  {
    forall e | e in flow.consumers ensures SameConsumer(flow, e, Endpoint(n, e), s') {
      assert SameConsumer(flow, e, Endpoint(n, e), s);
    }
  }

  // --- Learning of an item, in terms of live subscriptions ---

  /**
   What `Delivery` counts by lists is what the objects have: the deliveries of an item
   of partition p, granted when the node learns of it, are as many as the consumer
   object's live subscriptions to that partition.
  */
  lemma GrantedBySubscriptions(flow: IceFlow, n: NodeId, t: Topology, s: State, s': State, d: Delivery)
    requires Represents(flow, n, t, s) && d.at.node == n && d.at.edge in flow.consumers
    requires Next(t, s, Notify(n, d.item), s') && Proper(t, s, d)
    ensures Granted(s', d) == |LiveIn(flow.pubSub.live, d.at.edge, flow.consumers[d.at.edge].id, At(s, d.item).partition)|
  {
    assert SameConsumer(flow, d.at.edge, d.at, s);
    LearningGrants(t, s, s', d);
  }
}
