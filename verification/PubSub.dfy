/**
 The publish/subscribe object of a node, as far as producers and consumers see it.
 Its handles are fresh, its sequence numbers consecutive; both are assumptions
 about a library that is not part of this model.
*/
module PubSub {
  import opened Names

  /** Whom a subscription calls: a consumer, by its identity, or a producer's backchannel handler. */
  datatype Subscriber = CallbackOf(id: nat) | BackchannelHandler

  datatype Subscription = Subscription(channel: Channel, subscriber: Subscriber)

  /** The names under which a node stores its publications after number `from`, up to number `to`. */
  ghost function NamesFrom(node: Name, app: Name, from: nat, to: nat): set<Name>
    requires to < U64
  {
    set k: nat | from < k <= to :: StoreName(node, app, k)
  }

  class SVSPubSub {
    const node: Name
    const app: Name
    /** Whether the object is gone, so that weak references to it cannot be locked. */
    var expired: bool
    var nextHandle: nat
    var live: map<nat, Subscription>
    var published: seq<Publication>
    var store: set<Name>

    ghost predicate Valid()
      reads this
    {
      && |published| < U64
      && forall h <- live :: h < nextHandle
    }

    constructor (node: Name, app: Name)
      ensures Valid() && !expired && live == map[] && published == [] && store == {}
      ensures this.node == node && this.app == app
    {
      this.node, this.app := node, app;
      expired, nextHandle, live, published, store := false, 0, map[], [], {};
    }

    method Subscribe(channel: Channel, subscriber: Subscriber) returns (handle: nat)
      requires Valid() && !expired
      modifies this`nextHandle, this`live
      ensures Valid()
      ensures handle == old(nextHandle) && nextHandle == handle + 1
      ensures live == old(live)[handle := Subscription(channel, subscriber)]
    {
      handle := nextHandle;
      nextHandle := nextHandle + 1;
      live := live[handle := Subscription(channel, subscriber)];
    }

    method Unsubscribe(handle: nat)
      requires Valid() && !expired
      modifies this`live
      ensures Valid() && live == old(live) - {handle}
    {
      live := live - {handle};
    }

    method Publish(publication: Publication) returns (seqNo: nat)
      requires Valid() && !expired && |published| + 1 < U64
      modifies this`published, this`store
      ensures Valid() && seqNo == |published|
      ensures published == old(published) + [publication]
      ensures store == old(store) + {StoreName(node, app, seqNo)}
    {
      published := published + [publication];
      seqNo := |published|;
      store := store + {StoreName(node, app, seqNo)};
    }

    method Erase(name: Name)
      requires Valid()
      modifies this`store
      ensures Valid() && store == old(store) - {name}
    {
      store := store - {name};
    }
  }
}
