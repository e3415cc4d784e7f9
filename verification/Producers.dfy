/**
 A producer for one edge: its choice of partitions, what it publishes, and what
 its backchannel handler erases.
*/
module Producers {
  import opened Names
  import opened Delivery
  import opened Acknowledgements
  import opened PubSub
  import opened SlidingWindow
  import opened Stats

  /** The declared partitions after a successful call with n; they are stored as 32-bit numbers. */
  function Declared(n: nat): set<Part>
  {
    set p: Part | Below(p, n)
  }

  predicate Below(p: Part, n: nat)
  {
    p < n
  }

  class IceflowProducer {
    const pubSub: SVSPubSub
    const edge: Component
    /** Set once, by the constructor; choices are made with it. */
    const numberOfPartitions: Part
    var topicPartitions: set<Part>
    var timestamps: seq<int>
    var idleSince: int

    ghost predicate Valid()
      reads pubSub
    {
      numberOfPartitions > 0 && pubSub.Valid()
    }

    /** The producer's handler is subscribed to its backchannel. */
    ghost predicate Listens()
      reads pubSub`live
    {
      exists h <- pubSub.live :: pubSub.live[h] == Subscription(Backchannel(edge), BackchannelHandler)
    }

    /** No production has been recorded: no time of one, and the idle time still counts from the clock's origin. */
    ghost predicate Unrecorded()
      reads this`timestamps, this`idleSince
    {
      timestamps == [] && idleSince == 0
    }

    constructor Unchecked(pubSub: SVSPubSub, edge: Component, numberOfPartitions: Part)
      ensures this.pubSub == pubSub && this.edge == edge && this.numberOfPartitions == numberOfPartitions
      ensures topicPartitions == {} && Unrecorded()
    {
      this.pubSub, this.edge, this.numberOfPartitions := pubSub, edge, numberOfPartitions;
      topicPartitions, timestamps, idleSince := {}, [], 0;
    }

    /** A member-wise copy. */
    constructor CopyOf(other: IceflowProducer)
      ensures pubSub == other.pubSub && edge == other.edge && numberOfPartitions == other.numberOfPartitions
      ensures topicPartitions == other.topicPartitions && timestamps == other.timestamps && idleSince == other.idleSince
    {
      pubSub, edge, numberOfPartitions := other.pubSub, other.edge, other.numberOfPartitions;
      topicPartitions, timestamps, idleSince := other.topicPartitions, other.timestamps, other.idleSince;
    }

    /**
     Construction: it throws if there are no partitions, and then nothing is left of
     it; else the handler of the backchannel is subscribed.
    */
    static method Make(pubSub: SVSPubSub, edge: Component, numberOfPartitions: Part) returns (producer: IceflowProducer?)
      requires pubSub.Valid()
      modifies pubSub`live, pubSub`nextHandle
      ensures pubSub.Valid() && (producer == null <==> numberOfPartitions == 0)
      ensures producer == null || pubSub.expired ==> pubSub.live == old(pubSub.live) && pubSub.nextHandle == old(pubSub.nextHandle)
      ensures producer != null && !pubSub.expired ==>
        pubSub.nextHandle == old(pubSub.nextHandle) + 1
        && pubSub.live == old(pubSub.live)[old(pubSub.nextHandle) := Subscription(Backchannel(edge), BackchannelHandler)]
      ensures producer != null ==>
        && fresh(producer) && producer.Valid() && (!pubSub.expired ==> producer.Listens())
        && producer.pubSub == pubSub && producer.edge == edge && producer.numberOfPartitions == numberOfPartitions
        && producer.topicPartitions == Declared(numberOfPartitions) && producer.Unrecorded()
    {
      producer := new IceflowProducer.Unchecked(pubSub, edge, numberOfPartitions);
      var ok := producer.SetTopicPartitions(numberOfPartitions);
      if !ok {
        return null;
      }
      producer.SetupBackchannel();
    }

    method SetupBackchannel()
      requires pubSub.Valid()
      modifies pubSub`live, pubSub`nextHandle
      ensures pubSub.Valid()
      ensures pubSub.expired ==> pubSub.live == old(pubSub.live) && pubSub.nextHandle == old(pubSub.nextHandle)
      ensures !pubSub.expired ==>
        Listens() && pubSub.nextHandle == old(pubSub.nextHandle) + 1
        && pubSub.live == old(pubSub.live)[old(pubSub.nextHandle) := Subscription(Backchannel(edge), BackchannelHandler)]
    {
      if !pubSub.expired {
        var handle := pubSub.Subscribe(Backchannel(edge), BackchannelHandler);
        assert pubSub.live[handle] == Subscription(Backchannel(edge), BackchannelHandler);
      }
    }

    /** `ok` is false where the code throws. The number that choices are made with stays as it is. */
    method SetTopicPartitions(n: nat) returns (ok: bool)
      requires n < U64
      modifies this`topicPartitions
      ensures ok <==> n > 0
      ensures topicPartitions == if ok then Declared(n) else old(topicPartitions)
    {
      if n == 0 {
        return false;
      }
      topicPartitions := {};
      for i := 0 to n
        invariant topicPartitions == Declared(i)
      {
        topicPartitions := topicPartitions + {i % U32};
      }
      ok := true;
    }

    /** `draw` is the generator's output, any 32-bit number. */
    method GetNextPartitionNumber(draw: nat) returns (partition: Part)
      requires Valid() && draw < U32
      ensures partition == draw % numberOfPartitions < numberOfPartitions
    {
      partition := draw % numberOfPartitions;
    }

    /** Publishes on the chosen partition and stores the data under the next sequence number. */
    method PushData(data: string, draw: nat) returns (partition: Part)
      requires Valid() && draw < U32 && |pubSub.published| + 1 < U64
      modifies pubSub`published, pubSub`store
      ensures Valid() && partition == draw % numberOfPartitions
      ensures pubSub.expired ==> pubSub.published == old(pubSub.published) && pubSub.store == old(pubSub.store)
      ensures !pubSub.expired ==>
        && pubSub.published == old(pubSub.published) + [Data(edge, partition, data)]
        && pubSub.store == old(pubSub.store) + {StoreName(pubSub.node, pubSub.app, |pubSub.published|)}
    {
      partition := GetNextPartitionNumber(draw);
      if !pubSub.expired {
        var _ := pubSub.Publish(Data(edge, partition, data));
      }
    }

    method CleanUpTimestamps(reference: int)
      modifies this`timestamps
      ensures timestamps == Pruned(AsWritten, old(timestamps), reference)
    {
      while timestamps != []
        invariant Pruned(AsWritten, timestamps, reference) == Pruned(AsWritten, old(timestamps), reference)
        decreases |timestamps|
      {
        var timePassed := timestamps[0] - reference;
        if timePassed <= MAX_AGE {
          break;
        }
        timestamps := timestamps[1..];
      }
    }

    /** Unlike a consumer's, it does not restart the idle time. */
    method SaveTimestamp(timestamp: int)
      modifies this`timestamps
      ensures timestamps == Pruned(AsWritten, old(timestamps) + [timestamp], timestamp)
    {
      timestamps := timestamps + [timestamp];
      CleanUpTimestamps(timestamp);
    }

    method GetProductionStats(now: int) returns (stats: UnitStats)
      modifies this`timestamps
      ensures timestamps == Pruned(AsWritten, old(timestamps), now)
      ensures stats == UnitStats(|timestamps|, IdleTime(now, idleSince))
    {
      var idleTime := IdleTime(now, idleSince);
      CleanUpTimestamps(now);
      stats := UnitStats(|timestamps|, idleTime);
    }

    /** The backchannel handler: erases what the text names, and nothing on any other text. */
    method HandleBackchannel(text: string)
      requires Valid()
      modifies pubSub`store
      ensures Valid()
      ensures pubSub.store ==
        match ParseNumber(text)
        case Some(seqNo) => old(pubSub.store) - {StoreName(pubSub.node, pubSub.app, seqNo)}
        case None => old(pubSub.store)
    {
      match ParseNumber(text)
      case Some(seqNo) =>
        pubSub.Erase(StoreName(pubSub.node, pubSub.app, seqNo));
      case None =>
    }
  }

  /** What is declared after a run of calls to `SetTopicPartitions`, those with 0 having failed. */
  function LastSuccessful(initial: nat, calls: seq<nat>): nat
  {
    if calls == [] then initial
    else if calls[|calls| - 1] > 0 then calls[|calls| - 1]
    else LastSuccessful(initial, calls[..|calls| - 1])
  }

  /** The same run on a producer: declared partitions never become those of a failed call. */
  method SetRepeatedly(producer: IceflowProducer, calls: seq<nat>)
    requires forall n <- calls :: n < U64
    requires producer.topicPartitions == Declared(producer.numberOfPartitions)
    modifies producer`topicPartitions
    ensures producer.topicPartitions == Declared(LastSuccessful(producer.numberOfPartitions, calls))
  {
    for i := 0 to |calls|
      invariant producer.topicPartitions == Declared(LastSuccessful(producer.numberOfPartitions, calls[..i]))
    {
      assert calls[..i + 1][..i] == calls[..i];
      assert calls[i] in calls;
      var _ := producer.SetTopicPartitions(calls[i]);
    }
    assert calls[..|calls|] == calls;
  }

  /**
   After any run of repartitionings, every generator output selects a declared
   partition exactly when the last successful count is not below the constructor's.
  */
  lemma ChosenPartitionIsDeclared(initial: Count, calls: seq<nat>)
    ensures (forall draw: nat :: draw < U32 ==> draw % initial in Declared(LastSuccessful(initial, calls)))
      <==> LastSuccessful(initial, calls) >= initial
  {
    var n := LastSuccessful(initial, calls);
    if n < initial {
      var draw: nat := n;
      SmallMod(n, initial);
      assert draw % initial !in Declared(n);
    }
  }

  /** If choices were made with the updated count, each would be declared, and each declared one possible. */
  lemma ChosenWithUpdatedCount(n: Count, p: Part)
    ensures p in Declared(n) <==> exists draw: nat :: draw < U32 && draw % n == p
  {
    if p < n {
      var draw: nat := p;
      SmallMod(p, n);
      assert draw < U32 && draw % n == p;
    }
  }

  lemma SmallMod(x: nat, n: nat)
    requires x < n
    ensures x % n == x
  {
  }
}
