/** The object an application holds: its producers and consumers by edge id. */
module IceFlows {
  import opened Names
  import opened Delivery
  import opened PubSub
  import opened SlidingWindow
  import opened Consumers
  import opened Producers
  import opened Stats
  import opened Wrappers
  import Partitions
  import Dag

  /** Handles that are in step stay so when another consumer gets fresh ones. */
  lemma OthersStillTrack(before: map<nat, Subscription>, after: map<nat, Subscription>, next: nat,
                         id: nat, handles: seq<nat>, otherId: nat, otherHandles: seq<nat>)
    requires id != otherId && Others(before, id) == Others(after, id)
    requires forall h <- handles :: h >= next
    requires forall h <- otherHandles :: h < next
    requires forall h <- before :: before[h].subscriber == CallbackOf(otherId) <==> h in otherHandles
    requires forall h <- after :: after[h].subscriber == CallbackOf(id) ==> h in handles
    ensures forall h <- after :: after[h].subscriber == CallbackOf(otherId) <==> h in otherHandles
  {
    forall h | h in after
      ensures after[h].subscriber == CallbackOf(otherId) <==> h in otherHandles
    {
      if after[h].subscriber != CallbackOf(id) {
        assert h in Others(before, id);
        assert before[h] == Others(before, id)[h] == after[h];
      }
    }
  }

  lemma OthersStillHave(before: map<nat, Subscription>, after: map<nat, Subscription>, id: nat, otherId: nat, otherHandles: seq<nat>)
    requires id != otherId && Others(before, id) == Others(after, id)
    requires forall h <- otherHandles :: h in before && before[h].subscriber == CallbackOf(otherId)
    ensures forall h <- otherHandles :: h in after && after[h] == before[h]
  {
    forall h | h in otherHandles ensures h in after && after[h] == before[h] {
      assert h in Others(before, id) && Others(before, id)[h] == before[h] && Others(after, id)[h] == after[h];
    }
  }

  ghost predicate ConsumersFit(pubSub: SVSPubSub, consumers: map<Component, IceflowConsumer>)
  {
    && (forall e <- consumers :: consumers[e].pubSub == pubSub && consumers[e].edge == e)
    && forall e, f :: e in consumers && f in consumers && e != f ==>
         consumers[e] != consumers[f] && consumers[e].id != consumers[f].id
  }

  ghost predicate ProducersFit(pubSub: SVSPubSub, producers: map<Component, IceflowProducer>)
  {
    forall e <- producers ::
      producers[e].pubSub == pubSub && producers[e].edge == e && producers[e].numberOfPartitions > 0
  }

  class IceFlow {
    const pubSub: SVSPubSub
    const producers: map<Component, IceflowProducer>
    const consumers: map<Component, IceflowConsumer>

    /**
     Each map value is an object of its own, made for the edge it is kept under, on one
     publish/subscribe object; consumers have distinct identities, producers listen,
     and no operation ever records a production.
    */
    ghost predicate Valid()
      reads this, pubSub, consumers.Values, producers.Values`timestamps, producers.Values`idleSince
    {
      && pubSub.Valid()
      && ConsumersFit(pubSub, consumers) && (forall e <- consumers :: consumers[e].Tracks())
      && ProducersFit(pubSub, producers) && (!pubSub.expired ==> forall e <- producers :: producers[e].Listens())
      && forall e <- producers :: producers[e].Unrecorded()
    }

    constructor (pubSub: SVSPubSub, producers: map<Component, IceflowProducer>, consumers: map<Component, IceflowConsumer>)
      requires pubSub.Valid()
      requires ConsumersFit(pubSub, consumers) && forall e <- consumers :: consumers[e].Tracks()
      requires ProducersFit(pubSub, producers) && (!pubSub.expired ==> forall e <- producers :: producers[e].Listens())
      requires forall e <- producers :: producers[e].Unrecorded()
      ensures Valid() && this.pubSub == pubSub && this.producers == producers && this.consumers == consumers
    {
      this.pubSub, this.producers, this.consumers := pubSub, producers, consumers;
    }

    method RegisterConsumerCallback(edge: Component) returns (ok: bool)
      requires Valid()
      modifies consumers.Values`hasCallback
      ensures Valid() && (ok <==> edge in consumers)
      ensures forall e <- consumers :: consumers[e].hasCallback == (e == edge || old(consumers[e].hasCallback))
    {
      ok := edge in consumers;
      if ok {
        consumers[edge].SetConsumerCallback();
      }
    }

    /** Subscribing and unsubscribing consumers leaves the producers' subscriptions alone. */
    lemma StillListens(before: map<nat, Subscription>, id: nat, e: Component)
      requires e in producers && producers[e].pubSub == pubSub
      requires Others(before, id) == Others(pubSub.live, id)
      requires exists h <- before :: before[h] == Subscription(Backchannel(producers[e].edge), BackchannelHandler)
      ensures producers[e].Listens()
    {
      var h :| h in before && before[h] == Subscription(Backchannel(producers[e].edge), BackchannelHandler);
      assert h in Others(before, id);
      assert pubSub.live[h] == Others(pubSub.live, id)[h] == before[h];
    }

    /** `ok` is false where the code throws; the consumer's own failure is not passed on. */
    method RepartitionConsumer(edge: Component, partitions: seq<Part>) returns (ok: bool)
      requires Valid()
      modifies consumers.Values`handles, pubSub`live, pubSub`nextHandle
      ensures Valid()
      ensures ok <==> edge in consumers
      ensures ok && !pubSub.expired ==> consumers[edge].SubscribedTo(partitions)
      ensures ok ==> consumers[edge].Foreign() == old(consumers[edge].Foreign())
      ensures !ok ==> pubSub.live == old(pubSub.live)
      ensures forall e <- consumers :: e != edge ==> consumers[e].handles == old(consumers[e].handles)
      ensures forall e <- consumers, parts: seq<Part> ::
        e != edge && !pubSub.expired && old(consumers[e].Has(parts)) ==> consumers[e].Has(parts)
    {
      ok := edge in consumers;
      if ok {
        ghost var before, next := pubSub.live, pubSub.nextHandle;
        var _ := consumers[edge].Repartition(partitions);
        forall e | e in consumers && e != edge
          ensures consumers[e].Tracks()
        {
          if !pubSub.expired {
            OthersStillTrack(before, pubSub.live, next, consumers[edge].id, consumers[edge].handles, consumers[e].id, consumers[e].handles);
          }
        }
        forall e, parts: seq<Part> | e in consumers && e != edge && !pubSub.expired && old(consumers[e].Has(parts))
          ensures consumers[e].Has(parts)
        {
          OthersStillHave(before, pubSub.live, consumers[edge].id, consumers[e].id, consumers[e].handles);
        }
        forall e | e in producers && !pubSub.expired ensures producers[e].Listens() {
          StillListens(before, consumers[edge].id, e);
        }
      }
    }

    /**
     The repartitioning service: expands the half-open range and hands it on. A
     request along [lower, upper) leaves the edge's consumer with exactly those partitions.
    */
    method Repartition(edge: Component, lower: Part, upper: Part) returns (success: bool)
      requires Valid()
      modifies consumers.Values`handles, pubSub`live, pubSub`nextHandle
      ensures Valid()
      ensures success <==> edge in consumers
      ensures success && !pubSub.expired ==> consumers[edge].SubscribedTo(Partitions.Range(lower, upper))
    {
      var partitions := Partitions.ExpandRange(lower, upper);
      success := RepartitionConsumer(edge, partitions[..]);
    }

    method RepartitionProducer(edge: Component, n: nat) returns (ok: bool)
      requires Valid() && n < U64
      modifies producers.Values`topicPartitions
      ensures Valid() && (ok <==> edge in producers && n > 0)
      ensures forall e <- producers ::
        producers[e].topicPartitions == if ok && e == edge then Declared(n) else old(producers[e].topicPartitions)
    {
      ok := edge in producers;
      if ok {
        ok := producers[edge].SetTopicPartitions(n);
      }
    }

    method PushData(edge: Component, payload: string, draw: nat) returns (ok: bool)
      requires Valid() && draw < U32 && |pubSub.published| + 1 < U64
      modifies pubSub`published, pubSub`store
      ensures Valid() && (ok <==> edge in producers)
      ensures !ok || pubSub.expired ==> pubSub.published == old(pubSub.published) && pubSub.store == old(pubSub.store)
      ensures ok && !pubSub.expired ==>
        && pubSub.published == old(pubSub.published) + [Data(edge, draw % producers[edge].numberOfPartitions, payload)]
        && pubSub.store == old(pubSub.store) + {StoreName(pubSub.node, pubSub.app, |pubSub.published|)}
    {
      ok := edge in producers;
      if ok {
        var _ := producers[edge].PushData(payload, draw);
      }
    }

    /** An item of the edge comes in; see `IceflowConsumer.SubscribeCallBack`. */
    method Receive(edge: Component, seqNo: nat, data: string, answers: seq<Publication>, throws: bool, now: int)
      returns (invokedOn: Option<string>)
      requires Valid() && edge in consumers && |pubSub.published| + |answers| + 1 < U64 && seqNo < U64
      modifies consumers.Values`timestamps, consumers.Values`idleSince, pubSub`published, pubSub`store
      ensures Valid() && invokedOn == if consumers[edge].hasCallback then Some(data) else None
      ensures pubSub.published == old(pubSub.published)
        + if consumers[edge].hasCallback && !pubSub.expired then consumers[edge].Answered(answers, throws, seqNo) else []
      ensures pubSub.store == old(pubSub.store)
        + NamesFrom(pubSub.node, pubSub.app, |old(pubSub.published)|, |pubSub.published|)
    {
      invokedOn := consumers[edge].SubscribeCallBack(seqNo, data, answers, throws, now);
    }

    /** The handles of the consumers of some edges. */
    ghost function HandlesOf(edges: set<Component>): set<nat>
      requires edges <= consumers.Keys
      reads consumers.Values
    {
      set e, h | e in edges && h in consumers[e].handles :: h
    }

    /** One round of the loop below: a copy of the consumer is made, asked, and destroyed. */
    method StatsOfCopy(consumer: IceflowConsumer, now: int) returns (stats: UnitStats)
      requires pubSub.Valid() && consumer.pubSub == pubSub
      modifies pubSub`live
      ensures pubSub.Valid() && stats == StatsAt(consumer, now)
      ensures pubSub.live == if pubSub.expired then old(pubSub.live) else old(pubSub.live) - set h <- consumer.handles
    {
      var copy := new IceflowConsumer.CopyOf(consumer);
      stats := copy.GetConsumptionStats(now);
      copy.UnsubscribeFromAllPartitions();
    }

    ghost function StatsAt(consumer: IceflowConsumer, now: int): UnitStats
      reads consumer
    {
      UnitStats(|Pruned(AsWritten, consumer.timestamps, now)|, IdleTime(now, consumer.idleSince))
    }

    /** The loop over the consumers, by value. */
    method CollectStats(now: int) returns (stats: map<Component, UnitStats>)
      requires pubSub.Valid() && forall e <- consumers :: consumers[e].pubSub == pubSub
      modifies pubSub`live
      ensures pubSub.Valid() && stats.Keys == consumers.Keys
      ensures forall e <- consumers :: stats[e] == StatsAt(consumers[e], now)
      ensures pubSub.live == if pubSub.expired then old(pubSub.live) else old(pubSub.live) - HandlesOf(consumers.Keys)
    {
      stats := map[];
      var left := consumers.Keys;
      while left != {}
        invariant left <= consumers.Keys && stats.Keys == consumers.Keys - left
        invariant pubSub.Valid()
        invariant forall e <- stats :: stats[e] == StatsAt(consumers[e], now)
        invariant pubSub.live == if pubSub.expired then old(pubSub.live) else old(pubSub.live) - HandlesOf(consumers.Keys - left)
      {
        var edge :| edge in left;
        var result := StatsOfCopy(consumers[edge], now);
        stats := stats[edge := result];
        ghost var done := consumers.Keys - left;
        left := left - {edge};
        assert consumers.Keys - left == done + {edge};
        assert HandlesOf(done + {edge}) == HandlesOf(done) + set h <- consumers[edge].handles;
      }
      assert consumers.Keys - {} == consumers.Keys;
    }

    /**
     Iterating over the consumers by value: each copy reports the right statistics,
     but its destructor then unsubscribes the handles it shares. Afterwards no
     consumer has a live subscription, while all handle lists are as before: the
     handles stay in step with the subscriptions exactly for consumers that had none.
     `RepartitionConsumer` repairs the others.
    */
    method GetConsumerStats(now: int) returns (stats: map<Component, UnitStats>)
      requires Valid()
      modifies pubSub`live
      ensures Valid() && stats.Keys == consumers.Keys
      ensures !pubSub.expired ==> NoneSubscribed()
      ensures forall e <- consumers :: stats[e] == StatsAt(consumers[e], now)
      ensures pubSub.live == if pubSub.expired then old(pubSub.live) else old(pubSub.live) - HandlesOf(consumers.Keys)
      ensures !pubSub.expired ==> forall e <- consumers, partitions: seq<Part> ::
        consumers[e].SubscribedTo(partitions) <==> partitions == [] && consumers[e].handles == []
    {
      stats := CollectStats(now);
      if !pubSub.expired {
        NothingLeft(old(pubSub.live));
      }
    }

    /** No consumer of the instance has a live subscription. */
    ghost predicate NoneSubscribed()
      reads pubSub`live
    {
      forall e <- consumers, h <- pubSub.live :: pubSub.live[h].subscriber != CallbackOf(consumers[e].id)
    }

    lemma NothingLeft(before: map<nat, Subscription>)
      requires pubSub.Valid() && !pubSub.expired && pubSub.live == before - HandlesOf(consumers.Keys)
      requires forall e <- consumers :: consumers[e].pubSub == pubSub
      requires forall e <- consumers :: forall h <- consumers[e].handles :: h < pubSub.nextHandle
      requires forall e <- consumers :: forall h <- before :: before[h].subscriber == CallbackOf(consumers[e].id) <==> h in consumers[e].handles
      requires forall e <- producers :: producers[e].pubSub == pubSub
      requires forall e <- producers :: exists h <- before :: before[h] == Subscription(Backchannel(producers[e].edge), BackchannelHandler)
      ensures NoneSubscribed()
      ensures forall e <- consumers :: consumers[e].Tracks()
      ensures forall e <- producers :: producers[e].Listens()
      ensures forall e <- consumers, partitions: seq<Part> ::
        consumers[e].SubscribedTo(partitions) <==> partitions == [] && consumers[e].handles == []
    {
      forall e | e in consumers
        ensures consumers[e].Tracks()
        ensures forall h <- pubSub.live :: pubSub.live[h].subscriber != CallbackOf(consumers[e].id)
      {
        assert forall h <- consumers[e].handles :: h in HandlesOf(consumers.Keys);
      }
      forall e | e in producers ensures producers[e].Listens() {
        var h :| h in before && before[h] == Subscription(Backchannel(producers[e].edge), BackchannelHandler);
        assert pubSub.live[h] == before[h];
      }
      forall e, partitions: seq<Part> | e in consumers
        ensures consumers[e].SubscribedTo(partitions) <==> partitions == [] && consumers[e].handles == []
      {
        consumers[e].WithoutSubscriptions(partitions);
      }
    }

    /**
     Copies of the producers are asked; none keeps subscriptions that its destructor
     would drop. No unit is ever reported, since none is recorded.
    */
    method GetProducerStats(now: int) returns (stats: map<Component, UnitStats>)
      requires Valid()
      ensures stats == map e | e in producers :: UnitStats(0, IdleTime(now, 0))
    {
      stats := map[];
      var left := producers.Keys;
      while left != {}
        invariant left <= producers.Keys
        invariant stats == map e | e in producers.Keys - left :: UnitStats(0, IdleTime(now, 0))
      {
        var edge :| edge in left;
        var copy := new IceflowProducer.CopyOf(producers[edge]);
        var result := copy.GetProductionStats(now);
        stats, left := stats[edge := result], left - {edge};
      }
      assert producers.Keys - {} == producers.Keys;
    }

    /**
     A query by the executor, both sides in sequence: it gets the union of the edges
     with narrowed statistics of each, and all consumers lose their subscriptions.
    */
    method QueryOver(now: int) returns (result: map<Component, EdgeStats>)
      requires Valid()
      modifies pubSub`live
      ensures Valid() && result.Keys == producers.Keys + consumers.Keys
      ensures !pubSub.expired ==> NoneSubscribed()
      ensures forall e <- result :: result[e] == EdgeStats(
        if e in producers then Some(UnitStats(0, IdleTime(now, 0))) else None,
        if e in consumers then Some(Narrow(StatsAt(consumers[e], now))) else None)
      ensures pubSub.live == if pubSub.expired then old(pubSub.live) else old(pubSub.live) - HandlesOf(consumers.Keys)
    {
      var consumed := GetConsumerStats(now);
      var produced := GetProducerStats(now);
      result := Exchange(produced, consumed);
    }
  }

  // --- Construction ---

  /** The constructor's first loop: a producer for each downstream edge. */
  method MakeProducers(pubSub: SVSPubSub, counts: map<Component, Count>) returns (producers: map<Component, IceflowProducer>)
    requires pubSub.Valid() && !pubSub.expired
    modifies pubSub`live, pubSub`nextHandle
    ensures pubSub.Valid() && ProducersFit(pubSub, producers) && producers.Keys == counts.Keys
    ensures forall e <- producers :: producers[e].Listens() && producers[e].numberOfPartitions == counts[e]
    ensures forall e <- producers ::
      fresh(producers[e]) && producers[e].topicPartitions == Declared(counts[e]) && producers[e].Unrecorded()
    ensures forall h <- pubSub.live :: h in old(pubSub.live) || pubSub.live[h].subscriber == BackchannelHandler
    ensures forall h <- old(pubSub.live) :: h in pubSub.live && pubSub.live[h] == old(pubSub.live)[h]
  {
    producers := map[];
    var left := counts.Keys;
    while left != {}
      invariant left <= counts.Keys && producers.Keys == counts.Keys - left
      invariant pubSub.Valid() && ProducersFit(pubSub, producers)
      invariant forall e <- producers :: producers[e].Listens() && producers[e].numberOfPartitions == counts[e]
      invariant forall e <- producers ::
        fresh(producers[e]) && producers[e].topicPartitions == Declared(counts[e]) && producers[e].Unrecorded()
      invariant forall h <- pubSub.live :: h in old(pubSub.live) || pubSub.live[h].subscriber == BackchannelHandler
      invariant forall h <- old(pubSub.live) :: h in pubSub.live && pubSub.live[h] == old(pubSub.live)[h]
    {
      var edge :| edge in left;
      ghost var before := pubSub.live;
      var producer := IceflowProducer.Make(pubSub, edge, counts[edge]);
      forall e | e in producers ensures producers[e].Listens() {
        var h :| h in before && before[h] == Subscription(Backchannel(e), BackchannelHandler);
        assert pubSub.live[h] == before[h];
      }
      producers, left := producers[edge := producer], left - {edge};
    }
  }

  /** Its second loop: a consumer for each upstream edge, none of which subscribes to anything. */
  method MakeConsumers(pubSub: SVSPubSub, edges: set<Component>, now: int) returns (consumers: map<Component, IceflowConsumer>)
    requires pubSub.Valid() && !pubSub.expired
    requires forall h <- pubSub.live :: pubSub.live[h].subscriber == BackchannelHandler
    ensures ConsumersFit(pubSub, consumers) && consumers.Keys == edges
    ensures forall e <- consumers :: fresh(consumers[e]) && consumers[e].SubscribedTo([]) && !consumers[e].hasCallback
  {
    consumers := map[];
    var left, id := edges, 0;
    while left != {}
      invariant left <= edges && consumers.Keys == edges - left && ConsumersFit(pubSub, consumers)
      invariant forall e <- consumers :: consumers[e].id < id
      invariant forall e <- consumers :: fresh(consumers[e]) && consumers[e].SubscribedTo([]) && !consumers[e].hasCallback
    {
      var edge :| edge in left;
      var consumer := new IceflowConsumer(pubSub, edge, id, now);
      consumers, left, id := consumers[edge := consumer], left - {edge}, id + 1;
    }
  }

  /** The constructor of an instance, on what the application graph says of it. */
  method Wire(node: Name, app: Name, instance: Dag.Instance, now: int) returns (flow: IceFlow)
    ensures fresh(flow) && flow.Valid() && fresh(flow.pubSub) && !flow.pubSub.expired
    ensures flow.pubSub.node == node && flow.pubSub.app == app && flow.pubSub.published == [] && flow.pubSub.store == {}
    ensures flow.producers.Keys == instance.producers.Keys && flow.consumers.Keys == instance.consumers
    ensures forall e <- flow.producers ::
      && fresh(flow.producers[e])
      && flow.producers[e].numberOfPartitions == instance.producers[e]
      && flow.producers[e].topicPartitions == Declared(instance.producers[e])
    ensures forall e <- flow.consumers ::
      && fresh(flow.consumers[e])
      && flow.consumers[e].SubscribedTo([]) && !flow.consumers[e].hasCallback
  {
    var pubSub := new SVSPubSub(node, app);
    var producers := MakeProducers(pubSub, instance.producers);
    var consumers := MakeConsumers(pubSub, instance.consumers, now);
    flow := new IceFlow(pubSub, producers, consumers);
  }

  /** From the graph to the objects: whatever `Dag.Construct` accepts is wired, and nothing else. */
  method ConstructFlow(nodes: seq<Dag.Node>, name: string, node: Name, app: Name, now: int) returns (flow: IceFlow?, ghost at: nat)
    ensures flow != null ==>
      && at < |nodes| && nodes[at].name == name && (forall i :: 0 <= i < at ==> nodes[i].name != name)
      && flow.Valid()
      && (forall e :: e in flow.producers <==> Dag.HasEdge(nodes, at, e))
      && (forall e <- flow.producers :: exists j: nat ::
            Dag.FirstAt(nodes, at, j, e) && nodes[at].downstream[j].maxPartitions == flow.producers[e].numberOfPartitions)
      && flow.consumers.Keys == Dag.ConsumedIds(nodes, nodes[at].task)
    ensures flow == null <==>
      || (forall n <- nodes :: n.name != name)
      || (at < |nodes| && nodes[at].name == name && exists edge <- nodes[at].downstream :: edge.maxPartitions == 0)
  {
    var instance;
    instance, at := Dag.Construct(nodes, name);
    if instance.None? {
      return null, at;
    }
    flow := Wire(node, app, instance.value, now);
  }
}
