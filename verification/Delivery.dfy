/**
 Partitioned delivery with acknowledgements on a backchannel, as a transition
 system over any number of nodes, edges and messages under way.

 What is assumed of the publish/subscribe layer (SVSPubSub): each node numbers
 its publications 1, 2, 3, ... in one counter, whatever their topic, and stores
 them; a node learns of every publication of another node at most once, in any
 order and at any time; it then delivers it once for each of its subscriptions
 that are live at that moment and whose name is a prefix of the publication's.
*/
module Delivery {
  import opened Names
  import opened Acknowledgements
  import opened Wrappers

  type NodeId = nat

  type Count = n: nat | 0 < n < 0x1_0000_0000 witness 1

  /** A producer or a consumer: the node it runs on and its edge. */
  datatype Endpoint = Endpoint(node: NodeId, edge: Component)

  datatype Item = Item(node: NodeId, seqNo: nat)

  /** Each producer with the number of partitions it was constructed with. */
  datatype Topology = Topology(app: Name, producers: map<Endpoint, Count>, consumers: set<Endpoint>)

  datatype Delivery = Delivery(at: Endpoint, item: Item)

  /** An acknowledgement on its way to a producer's handler. */
  datatype Notice = Notice(at: Endpoint, ack: Item)

  /**
   `granted`, `order`, `runs` and `ignored` are histories: the subscriptions an
   item met when a node learned of it, the publications in order, the callback
   executions in order, and the deliveries that met no callback.
  */
  datatype State = State(
    log: map<NodeId, seq<Publication>>,
    stored: set<Item>,
    partitions: map<Endpoint, seq<Part>>,
    callbacks: set<Endpoint>,
    pending: multiset<Delivery>,
    ackDue: multiset<Delivery>,
    notices: set<Notice>,
    granted: map<(NodeId, Item), nat>,
    order: seq<Item>,
    runs: seq<Delivery>,
    ignored: multiset<Delivery>)

  datatype Step =
    | Publish(at: Endpoint, draw: nat, payload: string)
    | Notify(node: NodeId, item: Item)
    | RunCallback(delivery: Delivery)
    | SendAck(delivery: Delivery)
    | HandleAck(notice: Notice)
    | Repartition(at: Endpoint, parts: seq<Part>)
    | SetCallback(at: Endpoint)

  function Init(): State
  {
    State(map[], {}, map[], {}, multiset{}, multiset{}, {}, map[], [], [], multiset{})
  }

  function Log(s: State, node: NodeId): seq<Publication>
  {
    if node in s.log then s.log[node] else []
  }

  predicate Published(s: State, item: Item)
  {
    1 <= item.seqNo <= |Log(s, item.node)|
  }

  function At(s: State, item: Item): Publication
    requires Published(s, item)
  {
    Log(s, item.node)[item.seqNo - 1]
  }

  predicate CanPublish(s: State, node: NodeId)
  {
    |Log(s, node)| + 1 < U64
  }

  function NextItem(s: State, node: NodeId): Item
  {
    Item(node, |Log(s, node)| + 1)
  }

  function PublishAt(s: State, node: NodeId, publication: Publication): State
  {
    var item := NextItem(s, node);
    s.(log := s.log[node := Log(s, node) + [publication]],
       stored := s.stored + {item},
       order := s.order + [item])
  }

  /** The callback has run on the delivery, and its acknowledgement is due. */
  function Ran(s: State, d: Delivery): State
  {
    s.(pending := s.pending - multiset{d}, runs := s.runs + [d], ackDue := s.ackDue + multiset{d})
  }

  /** The delivery met no callback. */
  function Skipped(s: State, d: Delivery): State
  {
    s.(pending := s.pending - multiset{d}, ignored := s.ignored + multiset{d})
  }

  /** The acknowledgement is published; it is no longer due. */
  function Acked(s: State, d: Delivery): State
  {
    PublishAt(s.(ackDue := s.ackDue - multiset{d}), d.at.node, Ack(d.at.edge, Dump(d.item.seqNo)))
  }

  function Parts(s: State, at: Endpoint): seq<Part>
  {
    if at in s.partitions then s.partitions[at] else []
  }

  /** How many of the subscriptions to `parts` of an edge see the channel. */
  function Seen(app: Name, edge: Component, parts: seq<Part>, channel: Channel): nat
    requires channel.Valid()
  {
    if parts == [] then 0
    else Seen(app, edge, parts[..|parts| - 1], channel)
         + if Sees(app, Partition(edge, parts[|parts| - 1]), channel) then 1 else 0
  }

  ghost predicate Notified(t: Topology, s: State, node: NodeId, item: Item, s': State)
    requires Published(s, item)
  {
    var publication := At(s, item);
    && (forall d ::
          s'.pending[d] == s.pending[d]
          + if d.item == item && d.at.node == node && d.at in t.consumers
            then Seen(t.app, d.at.edge, Parts(s, d.at), publication.Channel()) else 0)
    && (forall n ::
          n in s'.notices <==>
          || n in s.notices
          || (n.ack == item && n.at.node == node && n.at in t.producers
              && Sees(t.app, Backchannel(n.at.edge), publication.Channel())))
    && var at := Endpoint(node, publication.edge);
       s' == s.(pending := s'.pending, notices := s'.notices,
                granted := s.granted[(node, item) :=
                  if at in t.consumers then Seen(t.app, at.edge, Parts(s, at), publication.Channel()) else 0])
  }

  ghost predicate Next(t: Topology, s: State, step: Step, s': State)
  {
    match step
    case Publish(at, draw, payload) =>
      && at in t.producers && CanPublish(s, at.node)
      && s' == PublishAt(s, at.node, Data(at.edge, draw % t.producers[at], payload))
    case Notify(node, item) =>
      && node != item.node && (node, item) !in s.granted && Published(s, item)
      && Notified(t, s, node, item, s')
    case RunCallback(d) =>
      d in s.pending && s' == if d.at in s.callbacks then Ran(s, d) else Skipped(s, d)
    case SendAck(d) =>
      d in s.ackDue && CanPublish(s, d.at.node) && s' == Acked(s, d)
    case HandleAck(n) =>
      && n in s.notices && Published(s, n.ack)
      && s' == s.(notices := s.notices - {n},
                  stored := match ParseNumber(At(s, n.ack).Text())
                            case Some(seqNo) => s.stored - {Item(n.at.node, seqNo)}
                            case None => s.stored)
    case Repartition(at, parts) =>
      at in t.consumers && s' == s.(partitions := s.partitions[at := parts])
    case SetCallback(at) =>
      at in t.consumers && s' == s.(callbacks := s.callbacks + {at})
  }

  ghost predicate Execution(t: Topology, states: seq<State>, steps: seq<Step>)
  {
    && |states| == |steps| + 1 && states[0] == Init()
    && forall i :: 0 <= i < |steps| ==> Next(t, states[i], steps[i], states[i + 1])
  }

  // --- What one step changes ---

  /** Publications and callback executions are only ever added. */
  ghost predicate Extends(s: State, s': State)
  {
    && (forall item :: Published(s, item) ==> Published(s', item) && At(s', item) == At(s, item))
    && (forall d :: d in s.runs ==> d in s'.runs)
  }

  /** The publication a step makes, if any. */
  function Publishes(t: Topology, step: Step): seq<(NodeId, Publication)>
    requires step.Publish? ==> step.at in t.producers
  {
    match step
    case Publish(at, draw, payload) => [(at.node, Data(at.edge, draw % t.producers[at], payload))]
    case SendAck(d) => [(d.at.node, Ack(d.at.edge, Dump(d.item.seqNo)))]
    case _ => []
  }

  lemma PublishExtends(s: State, node: NodeId, publication: Publication)
    ensures var s' := PublishAt(s, node, publication);
      && Extends(s, s')
      && (forall item :: Published(s', item) && !Published(s, item) ==> item == NextItem(s, node))
      && !Published(s, NextItem(s, node)) && Published(s', NextItem(s, node))
      && At(s', NextItem(s, node)) == publication
      && (CanPublish(s, node) ==> forall other :: |Log(s, other)| < U64 ==> |Log(s', other)| < U64)
  {
  }

  /** The log, the order and the stores grow by what the step publishes, and by nothing else. */
  ghost predicate ExtendsBy(t: Topology, s: State, step: Step, s': State)
    requires step.Publish? ==> step.at in t.producers
  {
    var made := Publishes(t, step);
    && Extends(s, s')
    && (forall item :: Published(s', item) && !Published(s, item) ==>
          made != [] && item == NextItem(s, made[0].0) && At(s', item) == made[0].1)
    && (made != [] ==>
          && !Published(s, NextItem(s, made[0].0)) && Published(s', NextItem(s, made[0].0))
          && s'.order == s.order + [NextItem(s, made[0].0)]
          && s'.stored == s.stored + {NextItem(s, made[0].0)})
    && (made == [] ==> s'.log == s.log && s'.order == s.order)
    && forall node :: |Log(s, node)| < U64 ==> |Log(s', node)| < U64
  }

  lemma PublishingExtends(t: Topology, s: State, step: Step, s': State)
    requires Next(t, s, step, s') && (step.Publish? || step.SendAck?)
    ensures ExtendsBy(t, s, step, s')
  {
    match step
    case Publish(at, _, _) =>
      PublishExtends(s, at.node, Publishes(t, step)[0].1);
    case SendAck(d) =>
      PublishExtends(s.(ackDue := s.ackDue - multiset{d}), d.at.node, Publishes(t, step)[0].1);
  }

  lemma NextExtends(t: Topology, s: State, step: Step, s': State)
    requires Next(t, s, step, s')
    ensures ExtendsBy(t, s, step, s')
  {
    if step.Publish? || step.SendAck? {
      PublishingExtends(t, s, step, s');
    } else {
      SameLogExtends(s, s');
    }
  }

  lemma SameLogExtends(s: State, s': State)
    requires s'.log == s.log && s.runs <= s'.runs
    ensures Extends(s, s')
    ensures forall item :: Published(s', item) ==> Published(s, item)
    ensures forall node :: Log(s', node) == Log(s, node)
  {
  }

  lemma {:induction false} SeenIsMultiplicity(app: Name, edge: Component, parts: seq<Part>, channel: Channel)
    requires channel.Valid()
    ensures Seen(app, edge, parts, channel)
         == if channel.Partition? && channel.edge == edge && channel.number < U32
            then multiset(parts)[channel.number] else 0
  {
    if parts != [] {
      var front, last := parts[..|parts| - 1], parts[|parts| - 1];
      assert parts == front + [last];
      SeenIsMultiplicity(app, edge, front, channel);
      SeesOnlyItself(app, Partition(edge, last), channel);
    }
  }

  // --- The invariant of every execution ---

  /** A delivery of something published on the consumer's own edge by another node. */
  ghost predicate Proper(t: Topology, s: State, d: Delivery)
  {
    && d.at in t.consumers && Published(s, d.item) && d.at.node != d.item.node
    && At(s, d.item).Data? && At(s, d.item).edge == d.at.edge
  }

  /** Data comes from a producer of its edge, an acknowledgement answers a callback execution. */
  ghost predicate EntryProper(t: Topology, s: State, item: Item)
    requires Published(s, item)
  {
    match At(s, item)
    case Data(edge, partition, _) =>
      Endpoint(item.node, edge) in t.producers && partition < t.producers[Endpoint(item.node, edge)]
    case Ack(edge, text) =>
      exists d <- s.runs :: d.at == Endpoint(item.node, edge) && text == Dump(d.item.seqNo)
  }

  ghost predicate LogProper(t: Topology, s: State)
  {
    && (forall item :: Published(s, item) ==> EntryProper(t, s, item))
    && (forall node :: |Log(s, node)| < U64)
    && (forall d <- s.ackDue :: d in s.runs)
  }

  ghost predicate NoticeProper(t: Topology, s: State, n: Notice)
  {
    && n.at in t.producers && n.at.node != n.ack.node && Published(s, n.ack)
    && At(s, n.ack).Ack? && At(s, n.ack).edge == n.at.edge
  }

  ghost predicate NoticesProper(t: Topology, s: State)
  {
    forall n <- s.notices :: NoticeProper(t, s, n)
  }

  function Granted(s: State, d: Delivery): nat
  {
    if (d.at.node, d.item) in s.granted then s.granted[(d.at.node, d.item)] else 0
  }

  ghost predicate Accounted(t: Topology, s: State, d: Delivery)
  {
    multiset(s.runs)[d] + s.ignored[d] + s.pending[d] == if Proper(t, s, d) then Granted(s, d) else 0
  }

  ghost predicate AllAccounted(t: Topology, s: State)
  {
    && (forall d :: Accounted(t, s, d))
    && (forall key <- s.granted :: Published(s, key.1))
  }

  ghost predicate OrderComplete(s: State)
  {
    forall item :: multiset(s.order)[item] == if Published(s, item) then 1 else 0
  }

  ghost predicate Invariant(t: Topology, s: State)
  {
    LogProper(t, s) && NoticesProper(t, s) && AllAccounted(t, s) && OrderComplete(s)
  }

  lemma RunsAreProper(t: Topology, s: State, d: Delivery)
    requires AllAccounted(t, s) && (d in s.runs || d in s.pending)
    ensures Proper(t, s, d)
  {
    assert d in multiset(s.runs) || d in s.pending;
    assert Accounted(t, s, d);
  }

  lemma LogStep(t: Topology, s: State, step: Step, s': State)
    requires LogProper(t, s) && Next(t, s, step, s')
    ensures LogProper(t, s')
  {
    NextExtends(t, s, step, s');
    forall item | Published(s', item) ensures EntryProper(t, s', item) {
      if Published(s, item) {
        assert EntryProper(t, s, item);
      } else if step.SendAck? {
        assert step.delivery in s.runs;
      }
    }
  }

  lemma NoticesStep(t: Topology, s: State, step: Step, s': State)
    requires NoticesProper(t, s) && Next(t, s, step, s')
    ensures NoticesProper(t, s')
  {
    NextExtends(t, s, step, s');
    forall n | n in s'.notices ensures NoticeProper(t, s', n) {
      if n in s.notices {
        assert NoticeProper(t, s, n);
      } else {
        SeesOnlyItself(t.app, Backchannel(n.at.edge), At(s, n.ack).Channel());
      }
    }
  }

  lemma AccountedNotify(t: Topology, s: State, step: Step, s': State, d: Delivery)
    requires step.Notify? && AllAccounted(t, s) && Next(t, s, step, s')
    ensures Accounted(t, s', d)
  {
    assert Accounted(t, s, d);
    if Published(s, d.item) {
      SeenIsMultiplicity(t.app, d.at.edge, Parts(s, d.at), At(s, d.item).Channel());
    }
  }

  lemma AccountedStep(t: Topology, s: State, step: Step, s': State, d: Delivery)
    requires AllAccounted(t, s) && Next(t, s, step, s')
    ensures Accounted(t, s', d)
  {
    if step.Notify? {
      AccountedNotify(t, s, step, s', d);
    } else {
      NextExtends(t, s, step, s');
      assert Accounted(t, s, d);
      if step.RunCallback? {
        assert multiset(s.runs + [step.delivery]) == multiset(s.runs) + multiset{step.delivery};
      }
    }
  }

  lemma OrderStep(t: Topology, s: State, step: Step, s': State)
    requires OrderComplete(s) && Next(t, s, step, s')
    ensures OrderComplete(s')
  {
    NextExtends(t, s, step, s');
    var made := Publishes(t, step);
    if made != [] {
      var item := NextItem(s, made[0].0);
      assert multiset(s.order + [item]) == multiset(s.order) + multiset{item};
    }
  }

  lemma InvariantStep(t: Topology, s: State, step: Step, s': State)
    requires Invariant(t, s) && Next(t, s, step, s')
    ensures Invariant(t, s')
  {
    LogStep(t, s, step, s');
    NoticesStep(t, s, step, s');
    OrderStep(t, s, step, s');
    NextExtends(t, s, step, s');
    forall d ensures Accounted(t, s', d) {
      AccountedStep(t, s, step, s', d);
    }
  }

  lemma {:induction false} InvariantHolds(t: Topology, states: seq<State>, steps: seq<Step>, i: nat)
    requires Execution(t, states, steps) && i < |states|
    ensures Invariant(t, states[i])
  {
    if i > 0 {
      InvariantHolds(t, states, steps, i - 1);
      InvariantStep(t, states[i - 1], steps[i - 1], states[i]);
    }
  }

  // --- Conservation over time ---

  /** At step i the node learns of the item. */
  predicate Learns(steps: seq<Step>, i: nat, node: NodeId, item: Item)
  {
    i < |steps| && steps[i] == Notify(node, item)
  }

  lemma GrantsLast(t: Topology, s: State, step: Step, s': State, node: NodeId, item: Item)
    requires Next(t, s, step, s')
    ensures (node, item) in s.granted ==> (node, item) in s'.granted && s'.granted[(node, item)] == s.granted[(node, item)]
    ensures (node, item) in s'.granted && (node, item) !in s.granted ==> step == Notify(node, item)
    ensures step == Notify(node, item) ==> (node, item) !in s.granted && (node, item) in s'.granted && Published(s, item) && node != item.node
  {
  }

  lemma {:induction false} GrantedSince(t: Topology, states: seq<State>, steps: seq<Step>, i: nat, j: nat, node: NodeId, item: Item)
    requires Execution(t, states, steps) && i <= j < |states| && (node, item) in states[i].granted
    ensures (node, item) in states[j].granted && states[j].granted[(node, item)] == states[i].granted[(node, item)]
    decreases j
  {
    if i < j {
      GrantedSince(t, states, steps, i, j - 1, node, item);
      GrantsLast(t, states[j - 1], steps[j - 1], states[j], node, item);
    }
  }

  lemma {:induction false} GrantedByLearning(t: Topology, states: seq<State>, steps: seq<Step>, j: nat, node: NodeId, item: Item)
    returns (i: nat)
    requires Execution(t, states, steps) && j < |states| && (node, item) in states[j].granted
    ensures i < j && Learns(steps, i, node, item)
  {
    assert j > 0;
    if (node, item) in states[j - 1].granted {
      i := GrantedByLearning(t, states, steps, j - 1, node, item);
    } else {
      GrantsLast(t, states[j - 1], steps[j - 1], states[j], node, item);
      i := j - 1;
    }
  }

  lemma {:induction false} ExecutionExtends(t: Topology, states: seq<State>, steps: seq<Step>, i: nat, j: nat)
    requires Execution(t, states, steps) && i <= j < |states|
    ensures Extends(states[i], states[j]) && states[i].callbacks <= states[j].callbacks
    decreases j
  {
    if i < j {
      ExecutionExtends(t, states, steps, i, j - 1);
      StepExtends(t, states[j - 1], steps[j - 1], states[j]);
      ExtendsOn(states[i], states[j - 1], states[j]);
    }
  }

  lemma StepExtends(t: Topology, s: State, step: Step, s': State)
    requires Next(t, s, step, s')
    ensures Extends(s, s') && s.callbacks <= s'.callbacks
  {
    NextExtends(t, s, step, s');
    CallbacksGrow(t, s, step, s');
  }

  lemma ExtendsOn(a: State, b: State, c: State)
    requires Extends(a, b) && Extends(b, c)
    ensures Extends(a, c)
  {
  }

  lemma CallbacksGrow(t: Topology, s: State, step: Step, s': State)
    requires Next(t, s, step, s')
    ensures s.callbacks <= s'.callbacks
  {
  }

  function Deliveries(s: State, d: Delivery): nat
  {
    multiset(s.runs)[d] + s.ignored[d] + s.pending[d]
  }

  lemma LearningGrants(t: Topology, s: State, s': State, d: Delivery)
    requires Next(t, s, Notify(d.at.node, d.item), s') && Proper(t, s, d)
    ensures Granted(s', d) == multiset(Parts(s, d.at))[At(s, d.item).partition]
  {
    SeenIsMultiplicity(t.app, d.at.edge, Parts(s, d.at), At(s, d.item).Channel());
  }

  /**
   Delivery is conserved across every repartitioning: from the step at which the
   consumer's node learns of an item of its edge on, the callback executions
   (done, or skipped for want of a callback) and the deliveries still under way
   together are as many as the consumer's subscriptions to the item's partition
   were at that step, whatever they have become since.
  */
  lemma DeliveryIsConserved(t: Topology, states: seq<State>, steps: seq<Step>, i: nat, j: nat, d: Delivery)
    requires Execution(t, states, steps) && i < j < |states| && Learns(steps, i, d.at.node, d.item)
    requires Proper(t, states[i], d)
    ensures Deliveries(states[j], d) == multiset(Parts(states[i], d.at))[At(states[i], d.item).partition]
  {
    InvariantHolds(t, states, steps, j);
    assert Accounted(t, states[j], d);
    ExecutionExtends(t, states, steps, i, j);
    LearningGrants(t, states[i], states[i + 1], d);
    GrantsLast(t, states[i], steps[i], states[i + 1], d.at.node, d.item);
    GrantedSince(t, states, steps, i + 1, j, d.at.node, d.item);
  }

  /** Nothing else is ever delivered: not before the node learns of the item, and not what is not of the consumer's edge. */
  lemma NothingElseIsDelivered(t: Topology, states: seq<State>, steps: seq<Step>, j: nat, d: Delivery)
    requires Execution(t, states, steps) && j < |states|
    requires forall i: nat :: i < j && Learns(steps, i, d.at.node, d.item) ==> !Proper(t, states[i], d)
    ensures Deliveries(states[j], d) == 0
  {
    InvariantHolds(t, states, steps, j);
    assert Accounted(t, states[j], d);
    if Proper(t, states[j], d) && (d.at.node, d.item) in states[j].granted {
      var i := GrantedByLearning(t, states, steps, j, d.at.node, d.item);
      GrantsLast(t, states[i], steps[i], states[i + 1], d.at.node, d.item);
      ExecutionExtends(t, states, steps, i, j);
    }
  }

  // --- Acknowledgement safety ---

  /** A consumer of the item's own edge has run its callback on exactly this item. */
  ghost predicate Consumed(s: State, item: Item)
  {
    Published(s, item) && At(s, item).Data?
    && exists d <- s.runs :: d.item == item && d.at.edge == At(s, item).edge
  }

  /** Whatever is missing from a store is data that was consumed. */
  ghost predicate Safe(s: State)
  {
    forall item :: Published(s, item) && item !in s.stored ==> Consumed(s, item)
  }

  /** Every consumer can hear of at most one producer of its edge besides its own node. */
  ghost predicate OneForeignProducer(t: Topology)
  {
    forall c, p, q ::
      (&& c in t.consumers && p in t.producers && q in t.producers
       && c.edge == p.edge == q.edge && p.node != c.node && q.node != c.node)
      ==> p == q
  }

  /** The item that an acknowledgement makes a producer erase is one the answered callback ran on. */
  lemma AckNamesItsItem(t: Topology, s: State, n: Notice) returns (d: Delivery)
    requires OneForeignProducer(t) && LogProper(t, s) && AllAccounted(t, s) && NoticeProper(t, s, n)
    ensures d in s.runs && Proper(t, s, d) && d.item.node == n.at.node
    ensures ParseNumber(At(s, n.ack).Text()) == Some(d.item.seqNo)
  {
    assert EntryProper(t, s, n.ack);
    d :| d in s.runs && d.at == Endpoint(n.ack.node, n.at.edge) && At(s, n.ack).text == Dump(d.item.seqNo);
    RunsAreProper(t, s, d);
    assert EntryProper(t, s, d.item);
    AcknowledgementRoundTrip(d.item.seqNo);
  }

  lemma ConsumedExtends(s: State, s': State, item: Item)
    requires Extends(s, s') && Consumed(s, item)
    ensures Consumed(s', item)
  {
  }

  /** Only the handling of an acknowledgement removes something from a store. */
  lemma OnlyAcksErase(t: Topology, s: State, step: Step, s': State, item: Item)
    requires Next(t, s, step, s') && item in s.stored && item !in s'.stored
    ensures step.HandleAck? && step.notice in s.notices && Published(s, step.notice.ack)
    ensures item.node == step.notice.at.node && ParseNumber(At(s, step.notice.ack).Text()) == Some(item.seqNo)
  {
  }

  lemma ErasedWasConsumed(t: Topology, s: State, step: Step, s': State, item: Item)
    requires OneForeignProducer(t) && Invariant(t, s) && Next(t, s, step, s')
    requires item in s.stored && item !in s'.stored
    ensures Consumed(s, item)
  {
    OnlyAcksErase(t, s, step, s', item);
    var d := AckNamesItsItem(t, s, step.notice);
    assert item == d.item;
  }

  lemma SafeStep(t: Topology, s: State, step: Step, s': State)
    requires OneForeignProducer(t) && Invariant(t, s) && Safe(s) && Next(t, s, step, s')
    ensures Safe(s')
  {
    forall item | Published(s', item) && item !in s'.stored
      ensures Consumed(s', item)
    {
      NextExtends(t, s, step, s');
      if item in s.stored {
        ErasedWasConsumed(t, s, step, s', item);
      }
      ConsumedExtends(s, s', item);
    }
  }

  lemma {:induction false} SafeHolds(t: Topology, states: seq<State>, steps: seq<Step>, i: nat)
    requires OneForeignProducer(t) && Execution(t, states, steps) && i < |states|
    ensures Safe(states[i])
  {
    if i > 0 {
      SafeHolds(t, states, steps, i - 1);
      InvariantHolds(t, states, steps, i - 1);
      SafeStep(t, states[i - 1], steps[i - 1], states[i]);
    }
  }

  // --- Acknowledgement completeness ---

  /** An acknowledgement that names the delivery's item, sent from where the callback ran. */
  ghost predicate Acknowledges(s: State, ack: Item, d: Delivery)
  {
    Published(s, ack) && ack.node == d.at.node && At(s, ack) == Ack(d.at.edge, Dump(d.item.seqNo))
  }

  /** The acknowledgement has still to be learned of, or handled, where the item came from. */
  ghost predicate OnItsWay(s: State, ack: Item, d: Delivery)
  {
    Acknowledges(s, ack, d)
    && ((d.item.node, ack) !in s.granted || Notice(Endpoint(d.item.node, d.at.edge), ack) in s.notices)
  }

  /** The item of a callback execution has left its store, or will once its acknowledgement has come through. */
  ghost predicate Clearing(s: State, d: Delivery)
  {
    d.item !in s.stored || d in s.ackDue || exists ack :: OnItsWay(s, ack, d)
  }

  lemma RunOrigin(t: Topology, s: State, d: Delivery)
    requires Invariant(t, s) && d in s.runs
    ensures Proper(t, s, d) && d.item.seqNo < U64 && Endpoint(d.item.node, d.at.edge) in t.producers
  {
    RunsAreProper(t, s, d);
    assert EntryProper(t, s, d.item);
  }

  lemma ClearingAck(t: Topology, s: State, d: Delivery, s': State)
    requires Invariant(t, s) && d in s.runs && Next(t, s, SendAck(d), s')
    ensures Clearing(s', d)
  {
    var ack := NextItem(s, d.at.node);
    NextExtends(t, s, SendAck(d), s');
    assert !Published(s, ack) && (d.item.node, ack) !in s.granted;
    assert OnItsWay(s', ack, d);
  }

  lemma ClearingNotify(t: Topology, s: State, step: Step, s': State, d: Delivery, ack: Item)
    requires Invariant(t, s) && d in s.runs && step.Notify? && Next(t, s, step, s') && OnItsWay(s, ack, d)
    ensures OnItsWay(s', ack, d)
  {
    RunOrigin(t, s, d);
    SeesOnlyItself(t.app, Backchannel(d.at.edge), At(s, ack).Channel());
  }

  lemma ClearingHandle(t: Topology, s: State, step: Step, s': State, d: Delivery, ack: Item)
    requires d.item.seqNo < U64 && step.HandleAck? && Next(t, s, step, s') && OnItsWay(s, ack, d)
    ensures Clearing(s', d)
  {
    AcknowledgementRoundTrip(d.item.seqNo);
    if step.notice == Notice(Endpoint(d.item.node, d.at.edge), ack) {
      assert d.item == Item(d.item.node, d.item.seqNo);
    } else {
      assert OnItsWay(s', ack, d);
    }
  }

  lemma ClearingPublish(t: Topology, s: State, step: Step, s': State, d: Delivery, ack: Item)
    requires Next(t, s, step, s') && !step.Notify? && !step.HandleAck? && OnItsWay(s, ack, d)
    ensures OnItsWay(s', ack, d)
  {
    NextExtends(t, s, step, s');
  }

  lemma StoredOnlyWhenPublished(t: Topology, s: State, step: Step, s': State, item: Item)
    requires Next(t, s, step, s') && Published(s, item) && item !in s.stored
    ensures item !in s'.stored
  {
    NextExtends(t, s, step, s');
  }

  lemma ClearingStep(t: Topology, s: State, step: Step, s': State, d: Delivery)
    requires Invariant(t, s) && d in s.runs && Clearing(s, d) && Next(t, s, step, s')
    ensures Clearing(s', d)
  {
    if d.item !in s.stored {
      RunOrigin(t, s, d);
      StoredOnlyWhenPublished(t, s, step, s', d.item);
    } else if d in s.ackDue {
      if step == SendAck(d) {
        ClearingAck(t, s, d, s');
      } else {
        StillDue(t, s, step, s', d);
      }
    } else {
      var ack :| OnItsWay(s, ack, d);
      if step.Notify? {
        ClearingNotify(t, s, step, s', d, ack);
      } else if step.HandleAck? {
        RunOrigin(t, s, d);
        ClearingHandle(t, s, step, s', d, ack);
      } else {
        ClearingPublish(t, s, step, s', d, ack);
      }
    }
  }

  lemma StillDue(t: Topology, s: State, step: Step, s': State, d: Delivery)
    requires Next(t, s, step, s') && d in s.ackDue && step != SendAck(d)
    ensures d in s'.ackDue
  {
  }

  lemma RunsNew(t: Topology, s: State, step: Step, s': State, d: Delivery)
    requires Next(t, s, step, s') && d in s'.runs && d !in s.runs
    ensures d in s'.ackDue
  {
  }

  lemma {:induction false} ClearingHolds(t: Topology, states: seq<State>, steps: seq<Step>, i: nat, d: Delivery)
    requires Execution(t, states, steps) && i < |states| && d in states[i].runs
    ensures Clearing(states[i], d)
  {
    assert i > 0;
    if d in states[i - 1].runs {
      ClearingHolds(t, states, steps, i - 1, d);
      InvariantHolds(t, states, steps, i - 1);
      ClearingStep(t, states[i - 1], steps[i - 1], states[i], d);
    } else {
      RunsNew(t, states[i - 1], steps[i - 1], states[i], d);
    }
  }

  // --- One acknowledgement for each callback execution, one handling for each notice ---

  /** How often the step was taken before step j. */
  function Taken(steps: seq<Step>, step: Step, j: nat): nat
    requires j <= |steps|
  {
    if j == 0 then 0 else Taken(steps, step, j - 1) + if steps[j - 1] == step then 1 else 0
  }

  lemma AckDueStep(t: Topology, s: State, step: Step, s': State, d: Delivery)
    requires Next(t, s, step, s')
    ensures s'.ackDue[d] + (if step == SendAck(d) then 1 else 0) + multiset(s.runs)[d] == s.ackDue[d] + multiset(s'.runs)[d]
  {
    if step.RunCallback? {
      assert multiset(s.runs + [step.delivery]) == multiset(s.runs) + multiset{step.delivery};
    }
  }

  /** Step i adds as much to what was sent or is due as it adds callback executions. */
  ghost predicate AckBalanced(states: seq<State>, steps: seq<Step>, i: nat, d: Delivery)
    requires i < |steps| < |states|
  {
    states[i + 1].ackDue[d] + (if steps[i] == SendAck(d) then 1 else 0) + multiset(states[i].runs)[d]
    == states[i].ackDue[d] + multiset(states[i + 1].runs)[d]
  }

  lemma {:induction false} BalancedUpTo(states: seq<State>, steps: seq<Step>, j: nat, d: Delivery)
    requires j <= |steps| < |states| && states[0] == Init()
    requires forall i: nat :: i < j ==> AckBalanced(states, steps, i, d)
    ensures Taken(steps, SendAck(d), j) + states[j].ackDue[d] == multiset(states[j].runs)[d]
  {
    if j > 0 {
      BalancedUpTo(states, steps, j - 1, d);
      assert AckBalanced(states, steps, j - 1, d);
    }
  }

  /** In every execution: as many acknowledgements have been sent or are due as callbacks were run. */
  lemma AcknowledgedOncePerRun(t: Topology, states: seq<State>, steps: seq<Step>, j: nat, d: Delivery)
    requires Execution(t, states, steps) && j < |states|
    ensures Taken(steps, SendAck(d), j) + states[j].ackDue[d] == multiset(states[j].runs)[d]
  {
    forall i: nat | i < j ensures AckBalanced(states, steps, i, d) {
      AckDueStep(t, states[i], steps[i], states[i + 1], d);
    }
    BalancedUpTo(states, steps, j, d);
  }

  /** The acknowledgement has reached the node of a producer of its edge. */
  ghost predicate Reached(t: Topology, s: State, n: Notice)
  {
    NoticeProper(t, s, n) && (n.at.node, n.ack) in s.granted
  }

  /** At this step the acknowledgement reaches the node of the producer. */
  ghost predicate Reaches(t: Topology, s: State, step: Step, n: Notice)
  {
    step == Notify(n.at.node, n.ack) && NoticeProper(t, s, n)
  }

  lemma ReachedStep(t: Topology, s: State, step: Step, s': State, n: Notice)
    requires Invariant(t, s) && Next(t, s, step, s')
    ensures Reached(t, s', n) <==> Reached(t, s, n) || Reaches(t, s, step, n)
    ensures !(Reached(t, s, n) && Reaches(t, s, step, n))
  {
    GrantsLast(t, s, step, s', n.at.node, n.ack);
    if (n.at.node, n.ack) in s'.granted {
      assert Published(s, n.ack);
      StepExtends(t, s, step, s');
    }
  }

  lemma NoticesChange(t: Topology, s: State, step: Step, s': State, n: Notice)
    requires Next(t, s, step, s')
    ensures n in s'.notices <==> (n in s.notices && step != HandleAck(n)) || Reaches(t, s, step, n)
    ensures step == HandleAck(n) ==> n in s.notices
  {
    if step.Notify? && Published(s, n.ack) {
      SeesOnlyItself(t.app, Backchannel(n.at.edge), At(s, n.ack).Channel());
    }
  }

  /** One for a notice that waits for its handler. */
  function Waiting(s: State, n: Notice): nat
  {
    if n in s.notices then 1 else 0
  }

  /** One for an acknowledgement that has reached the producer's node. */
  ghost function HasReached(t: Topology, s: State, n: Notice): nat
  {
    if Reached(t, s, n) then 1 else 0
  }

  /** Step i adds as much to what waits or was handled as it lets reach the node. */
  ghost predicate NoticeBalanced(t: Topology, states: seq<State>, steps: seq<Step>, i: nat, n: Notice)
    requires i < |steps| < |states|
  {
    Waiting(states[i], n) <= HasReached(t, states[i], n) ==>
      Waiting(states[i + 1], n) + (if steps[i] == HandleAck(n) then 1 else 0) + HasReached(t, states[i], n)
      == Waiting(states[i], n) + HasReached(t, states[i + 1], n)
  }

  lemma NoticeStep(t: Topology, states: seq<State>, steps: seq<Step>, i: nat, n: Notice)
    requires Execution(t, states, steps) && i < |steps|
    ensures NoticeBalanced(t, states, steps, i, n)
  {
    InvariantHolds(t, states, steps, i);
    ReachedStep(t, states[i], steps[i], states[i + 1], n);
    NoticesChange(t, states[i], steps[i], states[i + 1], n);
  }

  lemma {:induction false} NoticesUpTo(t: Topology, states: seq<State>, steps: seq<Step>, j: nat, n: Notice)
    requires j <= |steps| < |states| && states[0] == Init()
    requires forall i: nat :: i < j ==> NoticeBalanced(t, states, steps, i, n)
    ensures Taken(steps, HandleAck(n), j) + Waiting(states[j], n) == HasReached(t, states[j], n)
  {
    if j > 0 {
      NoticesUpTo(t, states, steps, j - 1, n);
      assert NoticeBalanced(t, states, steps, j - 1, n);
    }
  }

  /**
   In every execution: each acknowledgement that has reached a producer's node is
   waiting for its handler or was handled once, and nothing else ever was.
  */
  lemma HandledOnceEach(t: Topology, states: seq<State>, steps: seq<Step>, j: nat, n: Notice)
    requires Execution(t, states, steps) && j < |states|
    ensures Taken(steps, HandleAck(n), j) + Waiting(states[j], n) == HasReached(t, states[j], n)
  {
    forall i: nat | i < j ensures NoticeBalanced(t, states, steps, i, n) {
      NoticeStep(t, states, steps, i, n);
    }
    NoticesUpTo(t, states, steps, j, n);
  }

  /** No acknowledgement is due, unlearned of by a node with a producer of its edge, or waiting for a handler. */
  ghost predicate AllAcknowledged(t: Topology, s: State)
  {
    && s.ackDue == multiset{} && s.notices == {}
    && forall ack, p :: Published(s, ack) && At(s, ack).Ack? && p in t.producers && p.edge == At(s, ack).edge && p.node != ack.node ==>
         (p.node, ack) in s.granted
  }

  /** What was consumed is gone once its acknowledgements have come through, in every topology. */
  lemma ConsumedIsErased(t: Topology, states: seq<State>, steps: seq<Step>, i: nat, item: Item)
    requires Execution(t, states, steps) && i < |states| && AllAcknowledged(t, states[i]) && Consumed(states[i], item)
    ensures item !in states[i].stored
  {
    var s := states[i];
    var d :| d in s.runs && d.item == item && d.at.edge == At(s, item).edge;
    InvariantHolds(t, states, steps, i);
    RunOrigin(t, s, d);
    ClearingHolds(t, states, steps, i, d);
  }

  /**
   What the backchannel is for, both ways: where a consumer can hear of one producer
   of its edge only, and once all acknowledgements have come through, the stores hold
   exactly what has not been consumed.
  */
  lemma StoresHoldTheUnconsumed(t: Topology, states: seq<State>, steps: seq<Step>, i: nat, item: Item)
    requires Execution(t, states, steps) && i < |states| && OneForeignProducer(t)
    requires AllAcknowledged(t, states[i]) && Published(states[i], item)
    ensures item in states[i].stored <==> !Consumed(states[i], item)
  {
    SafeHolds(t, states, steps, i);
    if Consumed(states[i], item) {
      ConsumedIsErased(t, states, steps, i, item);
    }
  }

  /** The topology allows no execution in which unconsumed data leaves a store. */
  ghost predicate AlwaysSafe(t: Topology)
  {
    forall states, steps, i :: Execution(t, states, steps) && 0 <= i < |states| ==> Safe(states[i])
  }

  // --- The converse: two producers a consumer can hear of break it ---

  function WithDelivery(s: State, d: Delivery): State
  {
    s.(pending := s.pending + multiset{d}, granted := s.granted[(d.at.node, d.item) := 1])
  }

  /** One subscription of one consumer sees one item. */
  lemma NotifyOne(t: Topology, s: State, d: Delivery, part: Part)
    requires Published(s, d.item) && d.at.node != d.item.node && (d.at.node, d.item) !in s.granted
    requires d.at in t.consumers && Parts(s, d.at) == [part]
    requires At(s, d.item).Data? && At(s, d.item).edge == d.at.edge && At(s, d.item).partition == part
    ensures Next(t, s, Notify(d.at.node, d.item), WithDelivery(s, d))
  {
    var channel := At(s, d.item).Channel();
    var s' := WithDelivery(s, d);
    forall e: Delivery | e.item == d.item && e.at.node == d.at.node && e.at in t.consumers
      ensures Seen(t.app, e.at.edge, Parts(s, e.at), channel) == if e == d then 1 else 0
    {
      SeenIsMultiplicity(t.app, e.at.edge, Parts(s, e.at), channel);
    }
    forall n: Notice ensures !Sees(t.app, Backchannel(n.at.edge), channel) {
      SeesOnlyItself(t.app, Backchannel(n.at.edge), channel);
    }
  }

  function WithNotice(s: State, n: Notice): State
  {
    s.(notices := s.notices + {n}, granted := s.granted[(n.at.node, n.ack) := 0])
  }

  /** A producer's node learns of an acknowledgement of its edge. */
  lemma NotifyAck(t: Topology, s: State, n: Notice)
    requires Published(s, n.ack) && n.at.node != n.ack.node && (n.at.node, n.ack) !in s.granted
    requires n.at in t.producers
    requires At(s, n.ack).Ack? && At(s, n.ack).edge == n.at.edge
    ensures Next(t, s, Notify(n.at.node, n.ack), WithNotice(s, n))
  {
    var channel := At(s, n.ack).Channel();
    forall e: Endpoint
      ensures Seen(t.app, e.edge, Parts(s, e), channel) == 0
    {
      SeenIsMultiplicity(t.app, e.edge, Parts(s, e), channel);
    }
    forall m: Notice ensures Sees(t.app, Backchannel(m.at.edge), channel) <==> m.at.edge == n.at.edge {
      SeesOnlyItself(t.app, Backchannel(m.at.edge), channel);
    }
  }

  lemma ExtendExecution(t: Topology, states: seq<State>, steps: seq<Step>, step: Step, s': State)
    requires Execution(t, states, steps) && Next(t, states[|steps|], step, s')
    ensures Execution(t, states + [s'], steps + [step])
  {
  }

  function BothPublished(c: Endpoint, p: Endpoint, q: Endpoint): State
  {
    var ready := Init().(callbacks := {c}, partitions := map[c := [0]]);
    var data := Data(c.edge, 0, "");
    PublishAt(PublishAt(ready, p.node, data), q.node, data)
  }

  lemma ReachBothPublished(t: Topology, c: Endpoint, p: Endpoint, q: Endpoint)
    returns (states: seq<State>, steps: seq<Step>)
    requires c in t.consumers && p in t.producers && q in t.producers && c.edge == p.edge == q.edge
    requires p.node != q.node
    ensures Execution(t, states, steps) && states[|steps|] == BothPublished(c, p, q)
  {
    var s1 := Init().(callbacks := {c});
    var s2 := s1.(partitions := map[c := [0]]);
    var data := Data(c.edge, 0, "");
    var s3 := PublishAt(s2, p.node, data);
    states, steps := [Init()], [];
    ExtendExecution(t, states, steps, SetCallback(c), s1);
    states, steps := states + [s1], steps + [SetCallback(c)];
    ExtendExecution(t, states, steps, Repartition(c, [0]), s2);
    states, steps := states + [s2], steps + [Repartition(c, [0])];
    ExtendExecution(t, states, steps, Publish(p, 0, ""), s3);
    states, steps := states + [s3], steps + [Publish(p, 0, "")];
    ExtendExecution(t, states, steps, Publish(q, 0, ""), BothPublished(c, p, q));
    states, steps := states + [BothPublished(c, p, q)], steps + [Publish(q, 0, "")];
  }

  function Acknowledged(c: Endpoint, p: Endpoint, q: Endpoint): State
  {
    var d := Delivery(c, Item(p.node, 1));
    var s := WithDelivery(BothPublished(c, p, q), d);
    Acked(Ran(s, d), d)
  }

  lemma ReachAcknowledged(t: Topology, c: Endpoint, p: Endpoint, q: Endpoint)
    returns (states: seq<State>, steps: seq<Step>)
    requires c in t.consumers && p in t.producers && q in t.producers && c.edge == p.edge == q.edge
    requires p.node != q.node && c.node != p.node && c.node != q.node
    ensures Execution(t, states, steps) && states[|steps|] == Acknowledged(c, p, q)
  {
    states, steps := ReachBothPublished(t, c, p, q);
    var d := Delivery(c, Item(p.node, 1));
    var s := BothPublished(c, p, q);
    NotifyOne(t, s, d, 0);
    var s5 := WithDelivery(s, d);
    var s6 := Ran(s5, d);
    ExtendExecution(t, states, steps, Notify(c.node, d.item), s5);
    states, steps := states + [s5], steps + [Notify(c.node, d.item)];
    ExtendExecution(t, states, steps, RunCallback(d), s6);
    states, steps := states + [s6], steps + [RunCallback(d)];
    ExtendExecution(t, states, steps, SendAck(d), Acknowledged(c, p, q));
    states, steps := states + [Acknowledged(c, p, q)], steps + [SendAck(d)];
  }

  /** The node of `q` has learned of the acknowledgement and handled it. */
  function Erased(c: Endpoint, p: Endpoint, q: Endpoint): State
  {
    var n := Notice(q, Item(c.node, 1));
    var s := WithNotice(Acknowledged(c, p, q), n);
    s.(notices := s.notices - {n}, stored := s.stored - {Item(q.node, 1)})
  }

  lemma ReachErased(t: Topology, c: Endpoint, p: Endpoint, q: Endpoint)
    returns (states: seq<State>, steps: seq<Step>)
    requires c in t.consumers && p in t.producers && q in t.producers && c.edge == p.edge == q.edge
    requires p.node != q.node && c.node != p.node && c.node != q.node
    ensures Execution(t, states, steps) && states[|steps|] == Erased(c, p, q)
  {
    states, steps := ReachAcknowledged(t, c, p, q);
    var s := Acknowledged(c, p, q);
    var n := Notice(q, Item(c.node, 1));
    NotifyAck(t, s, n);
    AcknowledgementRoundTrip(1);
    ExtendExecution(t, states, steps, Notify(q.node, n.ack), WithNotice(s, n));
    states, steps := states + [WithNotice(s, n)], steps + [Notify(q.node, n.ack)];
    ExtendExecution(t, states, steps, HandleAck(n), Erased(c, p, q));
    states, steps := states + [Erased(c, p, q)], steps + [HandleAck(n)];
  }

  /**
   The unsafe execution: two producers publish their first item on the same edge,
   the consumer gets the one of `p` and acknowledges number 1, and `q`, which
   cannot tell the two apart, erases its own item before anybody consumed it.
  */
  lemma UnsafeExecution(t: Topology, c: Endpoint, p: Endpoint, q: Endpoint)
    returns (states: seq<State>, steps: seq<Step>)
    requires c in t.consumers && p in t.producers && q in t.producers && c.edge == p.edge == q.edge
    requires p.node != q.node && c.node != p.node && c.node != q.node
    ensures Execution(t, states, steps) && !Safe(states[|steps|])
  {
    states, steps := ReachErased(t, c, p, q);
    var s, item := Erased(c, p, q), Item(q.node, 1);
    assert s.runs == [Delivery(c, Item(p.node, 1))];
    assert !Consumed(s, item);
    assert Published(s, item) && item !in s.stored;
  }

  /**
   Acknowledgements are safe in every execution exactly when no consumer can hear
   of two producers of its edge: the acknowledgement names a number, not a node.
  */
  lemma SafeExactlyWithOneForeignProducer(t: Topology)
    ensures AlwaysSafe(t) <==> OneForeignProducer(t)
  {
    if OneForeignProducer(t) {
      forall states, steps, i | Execution(t, states, steps) && 0 <= i < |states| ensures Safe(states[i]) {
        SafeHolds(t, states, steps, i);
      }
    } else {
      var c, p, q :| c in t.consumers && p in t.producers && q in t.producers
        && c.edge == p.edge == q.edge && p.node != c.node && q.node != c.node && p != q;
      var states, steps := UnsafeExecution(t, c, p, q);
      assert !Safe(states[|steps|]);
    }
  }
}
