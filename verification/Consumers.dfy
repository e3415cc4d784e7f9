/**
 A consumer of one edge: its subscription handles, its callback, and the
 statistics it keeps.
*/
module Consumers {
  import opened Names
  import opened Acknowledgements
  import opened Wrappers
  import opened PubSub
  import opened SlidingWindow
  import opened Stats

  function Others(live: map<nat, Subscription>, id: nat): map<nat, Subscription>
  {
    map h | h in live && live[h].subscriber != CallbackOf(id) :: live[h]
  }

  class IceflowConsumer {
    const pubSub: SVSPubSub
    const edge: Component
    /** The identity that subscription callbacks are bound to. */
    const id: nat
    var handles: seq<nat>
    var timestamps: seq<int>
    var idleSince: int
    var hasCallback: bool

    /**
     No subscription of this consumer is missing from its handles, and no handle is
     of somebody else's live subscription; a handle may be dead.
    */
    ghost predicate InStep()
      reads this`handles, pubSub`live, pubSub`nextHandle, pubSub`expired
    {
      && (forall h <- handles :: h < pubSub.nextHandle)
      && (!pubSub.expired ==>
            forall h <- pubSub.live :: pubSub.live[h].subscriber == CallbackOf(id) <==> h in handles)
    }

    ghost predicate Tracks()
      reads this`handles, pubSub
    {
      pubSub.Valid() && InStep()
    }

    /** The handles are exactly this consumer's live subscriptions: one per entry, in order. */
    ghost predicate Has(partitions: seq<Part>)
      reads this`handles, pubSub`live, pubSub`nextHandle, pubSub`expired
    {
      && InStep() && |handles| == |partitions|
      && (forall i, j :: 0 <= i < j < |handles| ==> handles[i] < handles[j])
      && forall i :: 0 <= i < |handles| ==>
           handles[i] in pubSub.live
           && pubSub.live[handles[i]] == Subscription(Partition(edge, partitions[i]), CallbackOf(id))
    }

    ghost predicate SubscribedTo(partitions: seq<Part>)
      reads this`handles, pubSub
    {
      pubSub.Valid() && Has(partitions)
    }

    /** The live subscriptions of all others. */
    ghost function Foreign(): map<nat, Subscription>
      reads pubSub
    {
      Others(pubSub.live, id)
    }

    /** `id` is new: nothing is subscribed under it yet. */
    constructor (pubSub: SVSPubSub, edge: Component, id: nat, now: int)
      requires pubSub.Valid() && forall h <- pubSub.live :: pubSub.live[h].subscriber != CallbackOf(id)
      ensures this.pubSub == pubSub && this.edge == edge && this.id == id
      ensures handles == [] && timestamps == [] && idleSince == now && !hasCallback
      ensures Tracks() && (!pubSub.expired ==> SubscribedTo([]))
    {
      this.pubSub, this.edge, this.id := pubSub, edge, id;
      handles, timestamps, idleSince, hasCallback := [], [], now, false;
    }

    /** A member-wise copy: it shares the handles, and so the subscriptions behind them. */
    constructor CopyOf(other: IceflowConsumer)
      ensures pubSub == other.pubSub && edge == other.edge && id == other.id
      ensures handles == other.handles && timestamps == other.timestamps
      ensures idleSince == other.idleSince && hasCallback == other.hasCallback
    {
      pubSub, edge, id := other.pubSub, other.edge, other.id;
      handles, timestamps, idleSince, hasCallback := other.handles, other.timestamps, other.idleSince, other.hasCallback;
    }

    method SetConsumerCallback()
      modifies this`hasCallback
      ensures hasCallback
    {
      hasCallback := true;
    }

    method UnsubscribeFromAllPartitions()
      requires pubSub.Valid()
      modifies this`handles, pubSub`live
      ensures pubSub.Valid() && handles == []
      ensures pubSub.live == if pubSub.expired then old(pubSub.live) else old(pubSub.live) - (set h <- old(handles))
    {
      if !pubSub.expired {
        for i := 0 to |handles|
          invariant pubSub.Valid() && handles == old(handles)
          invariant pubSub.live == old(pubSub.live) - (set h <- handles[..i])
        {
          assert handles[..i + 1] == handles[..i] + [handles[i]];
          pubSub.Unsubscribe(handles[i]);
        }
        assert handles[..|handles|] == handles;
      }
      handles := [];
    }

    /** The destructor. */
    method Destroy()
      requires Tracks()
      modifies this`handles, pubSub`live
      ensures Tracks() && Foreign() == old(Foreign())
      ensures !pubSub.expired ==> SubscribedTo([])
    {
      UnsubscribeFromAllPartitions();
    }

    /** `ok` is false where the code throws. */
    method SubscribeToTopicPartition(partition: Part) returns (ok: bool)
      requires pubSub.Valid()
      modifies this`handles, pubSub`live, pubSub`nextHandle
      ensures pubSub.Valid() && ok == !pubSub.expired
      ensures !ok ==> handles == old(handles) && pubSub.live == old(pubSub.live) && pubSub.nextHandle == old(pubSub.nextHandle)
      ensures ok ==>
        && pubSub.nextHandle == old(pubSub.nextHandle) + 1
        && handles == old(handles) + [old(pubSub.nextHandle)]
        && pubSub.live == old(pubSub.live)[old(pubSub.nextHandle) := Subscription(Partition(edge, partition), CallbackOf(id))]
    {
      ok := !pubSub.expired;
      if ok {
        var handle := pubSub.Subscribe(Partition(edge, partition), CallbackOf(id));
        handles := handles + [handle];
      }
    }

    /**
     Afterwards the live subscriptions are those of the given list and no others, and
     nobody else's subscription was touched; dead handles are repaired too. It
     fails exactly when the publish/subscribe object is gone and there was
     something to subscribe to.
    */
    method Repartition(partitions: seq<Part>) returns (ok: bool)
      requires Tracks()
      modifies this`handles, pubSub`live, pubSub`nextHandle
      ensures Tracks() && Foreign() == old(Foreign())
      ensures ok <==> !pubSub.expired || partitions == []
      ensures !pubSub.expired ==> SubscribedTo(partitions)
      ensures pubSub.expired ==> handles == [] && pubSub.live == old(pubSub.live)
      ensures pubSub.nextHandle >= old(pubSub.nextHandle) && forall h <- handles :: h >= old(pubSub.nextHandle)
    {
      UnsubscribeFromAllPartitions();
      for i := 0 to |partitions|
        invariant pubSub.Valid() && Tracks() && Foreign() == old(Foreign())
        invariant pubSub.expired ==> i == 0 && handles == [] && pubSub.live == old(pubSub.live)
        invariant pubSub.nextHandle >= old(pubSub.nextHandle) && forall h <- handles :: h >= old(pubSub.nextHandle)
        invariant !pubSub.expired ==> SubscribedTo(partitions[..i])
      {
        var subscribed := SubscribeToTopicPartition(partitions[i]);
        if !subscribed {
          return false;
        }
        assert Foreign() == old(Foreign());
      }
      assert partitions[..|partitions|] == partitions;
      ok := true;
    }

    method CleanUpTimestamps(reference: int)
      modifies this`timestamps
      ensures timestamps == Pruned(AsWritten, old(timestamps), reference)
    {
      while timestamps != []
        invariant Pruned(AsWritten, timestamps, reference) == Pruned(AsWritten, old(timestamps), reference)
        decreases |timestamps|
      {
        var timePassed := timestamps[0] - reference;
        if timePassed <= MAX_AGE {
          break;
        }
        timestamps := timestamps[1..];
      }
    }

    method SaveTimestamp(now: int)
      modifies this`timestamps, this`idleSince
      ensures timestamps == Pruned(AsWritten, old(timestamps) + [now], now) && idleSince == now
    {
      timestamps := timestamps + [now];
      idleSince := now;
      CleanUpTimestamps(now);
    }

    method GetConsumptionStats(now: int) returns (stats: UnitStats)
      modifies this`timestamps
      ensures timestamps == Pruned(AsWritten, old(timestamps), now)
      ensures stats == UnitStats(|timestamps|, IdleTime(now, idleSince))
    {
      var idleTime := IdleTime(now, idleSince);
      CleanUpTimestamps(now);
      stats := UnitStats(|timestamps|, idleTime);
    }

    /** Without a live subscription of its own, a consumer's handles are in step only if it has none. */
    lemma WithoutSubscriptions(partitions: seq<Part>)
      requires Tracks() && !pubSub.expired
      requires forall h <- pubSub.live :: pubSub.live[h].subscriber != CallbackOf(id)
      ensures SubscribedTo(partitions) <==> partitions == [] && handles == []
    {
      if handles != [] {
        assert handles[0] in handles && handles[0] !in pubSub.live;
      }
    }

    /**
     What an incoming item of the edge causes: nothing without a callback; else the
     callback runs on the data, publishing `answers` while it does, and then, unless
     it throws, exactly the item's sequence number is published on the backchannel.
     Nothing is published once the publish/subscribe object is gone.
    */
    method SubscribeCallBack(seqNo: nat, data: string, answers: seq<Publication>, throws: bool, now: int)
      returns (invokedOn: Option<string>)
      requires pubSub.Valid() && |pubSub.published| + |answers| + 1 < U64 && seqNo < U64
      modifies this`timestamps, this`idleSince, pubSub`published, pubSub`store
      ensures pubSub.Valid()
      ensures invokedOn == if hasCallback then Some(data) else None
      ensures !hasCallback || throws ==> timestamps == old(timestamps) && idleSince == old(idleSince)
      ensures hasCallback && !throws ==> timestamps == Pruned(AsWritten, old(timestamps) + [now], now) && idleSince == now
      ensures !hasCallback || pubSub.expired ==> pubSub.published == old(pubSub.published) && pubSub.store == old(pubSub.store)
      ensures hasCallback && !pubSub.expired ==>
        pubSub.published == old(pubSub.published) + Answered(answers, throws, seqNo)
        && pubSub.store == old(pubSub.store) + NamesFrom(pubSub.node, pubSub.app, |old(pubSub.published)|, |pubSub.published|)
      ensures ParseNumber(Dump(seqNo)) == Some(seqNo)
    {
      AcknowledgementRoundTrip(seqNo);
      if !hasCallback {
        return None;
      }
      invokedOn := Some(data);
      RunCallback(answers);
      if throws {
        return;
      }
      SaveTimestamp(now);
      if !pubSub.expired {
        var _ := pubSub.Publish(Ack(edge, Dump(seqNo)));
      }
    }

    /** What the callback published, and the acknowledgement if it returned. */
    ghost function Answered(answers: seq<Publication>, throws: bool, seqNo: nat): seq<Publication>
    {
      answers + if throws then [] else [Ack(edge, Dump(seqNo))]
    }

    /** The application's callback, as far as this object is concerned. */
    method RunCallback(answers: seq<Publication>)
      requires pubSub.Valid() && |pubSub.published| + |answers| < U64
      modifies pubSub`published, pubSub`store
      ensures pubSub.Valid()
      ensures pubSub.expired ==> pubSub.published == old(pubSub.published) && pubSub.store == old(pubSub.store)
      ensures !pubSub.expired ==>
        pubSub.published == old(pubSub.published) + answers
        && pubSub.store == old(pubSub.store) + NamesFrom(pubSub.node, pubSub.app, |old(pubSub.published)|, |pubSub.published|)
    {
      if !pubSub.expired {
        for i := 0 to |answers|
          invariant pubSub.Valid() && pubSub.published == old(pubSub.published) + answers[..i]
          invariant pubSub.store == old(pubSub.store) + NamesFrom(pubSub.node, pubSub.app, |old(pubSub.published)|, |pubSub.published|)
        {
          assert answers[..i + 1] == answers[..i] + [answers[i]];
          var _ := pubSub.Publish(answers[i]);
        }
        assert answers[..|answers|] == answers;
      }
    }
  }
}
