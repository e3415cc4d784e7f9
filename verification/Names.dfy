/**
 Names on the wire: the number component, the topic of an edge, what is published
 there, and which publications a prefix subscription sees.
*/
module Names {
  type Octet = x: int | 0 <= x < 256

  /** A generic name component; every component the library builds is generic. */
  type Component = seq<Octet>

  type Name = seq<Component>

  const U32: nat := 0x1_0000_0000
  const U64: nat := 0x1_0000_0000_0000_0000

  /** The big-endian octets of n, exactly k of them. */
  function Octets(n: nat, k: nat): (octets: seq<Octet>)
    ensures |octets| == k
  {
    if k == 0 then [] else Octets(n / 256, k - 1) + [n % 256]
  }

  /** The number a big-endian octet string stands for. */
  function NumberOf(octets: seq<Octet>): nat
  {
    if octets == [] then 0
    else 256 * NumberOf(octets[..|octets| - 1]) + octets[|octets| - 1]
  }

  function Pow256(k: nat): nat
  {
    if k == 0 then 1 else 256 * Pow256(k - 1)
  }

  lemma {:induction false} OctetsRoundTrip(n: nat, k: nat)
    requires n < Pow256(k)
    ensures NumberOf(Octets(n, k)) == n
  {
    if k > 0 {
      OctetsRoundTrip(n / 256, k - 1);
      assert Octets(n, k)[..k - 1] == Octets(n / 256, k - 1);
    }
  }

  /** Non-Negative Integer Encoding of the NDN Packet Format: 1, 2, 4 or 8 octets. */
  function NumberWidth(n: nat): (k: nat)
    requires n < U64
  {
    if n < 0x100 then 1 else if n < 0x1_0000 then 2 else if n < U32 then 4 else 8
  }

  function NumberComponent(n: nat): Component
    requires n < U64
  {
    Octets(n, NumberWidth(n))
  }

  lemma NumberComponentRoundTrip(n: nat)
    requires n < U64
    ensures NumberOf(NumberComponent(n)) == n
    ensures |NumberComponent(n)| in {1, 2, 4, 8}
    ensures |NumberComponent(n)| > 1 ==> n >= 0x100
    ensures |NumberComponent(n)| > 2 ==> n >= 0x1_0000
    ensures |NumberComponent(n)| > 4 ==> n >= 0x1_0000_0000
  {
    assert Pow256(1) == 0x100;
    assert Pow256(2) == 0x1_0000;
    assert Pow256(3) == 0x100_0000;
    assert Pow256(4) == U32;
    assert Pow256(6) == 0x1_0000 * U32;
    assert Pow256(8) == U64;
    OctetsRoundTrip(n, NumberWidth(n));
  }

  /** The most significant octet comes first. */
  lemma BigEndian(a: Octet, b: Octet, c: Octet, d: Octet, octets: seq<Octet>)
    ensures NumberOf([]) == 0 && NumberOf(octets + [a]) == 256 * NumberOf(octets) + a
    ensures NumberOf([a]) == a && NumberOf([a, b]) == 256 * a + b
    ensures NumberOf([a, b, c, d]) == 0x100_0000 * a + 0x1_0000 * b + 256 * c + d
  {
    assert (octets + [a])[..|octets|] == octets;
    assert [a][..0] == [];
    assert [a, b][..1] == [a];
    assert [a, b, c][..2] == [a, b];
    assert [a, b, c, d][..3] == [a, b, c];
    assert NumberOf([a, b, c]) == 256 * NumberOf([a, b]) + c;
  }

  /** The component `backchannel`: eleven octets. */
  const BACKCHANNEL: Component := [98, 97, 99, 107, 99, 104, 97, 110, 110, 101, 108]

  /** What is published on, and subscribed to, for one edge. */
  datatype Channel = Partition(edge: Component, number: nat) | Backchannel(edge: Component)
  {
    predicate Valid() {
      Partition? ==> number < U64
    }
  }

  type Part = p: nat | p < 0x1_0000_0000

  datatype Publication =
    | Data(edge: Component, partition: Part, payload: string)
    | Ack(edge: Component, text: string)
  {
    function Channel(): (channel: Channel)
      ensures channel.Valid()
    {
      match this
      case Data(edge, partition, _) => Partition(edge, partition)
      case Ack(edge, _) => Backchannel(edge)
    }

    function Text(): string {
      if Data? then payload else text
    }
  }

  function Suffix(channel: Channel): Component
    requires channel.Valid()
  {
    match channel
    case Partition(_, number) => NumberComponent(number)
    case Backchannel(_) => BACKCHANNEL
  }

  function ChannelName(app: Name, channel: Channel): Name
    requires channel.Valid()
  {
    app + [channel.edge] + [Suffix(channel)]
  }

  /**
   The topic of a channel: the application's name, the edge id, and then the
   partition's number or the word `backchannel`.
  */
  lemma TopicIs(app: Name, channel: Channel)
    requires channel.Valid()
    ensures var topic := ChannelName(app, channel);
      && |topic| == |app| + 2 && topic[..|app|] == app && topic[|app|] == channel.edge
      && match channel
         case Partition(_, number) => NumberOf(topic[|app| + 1]) == number && topic[|app| + 1] == NumberComponent(number)
         case Backchannel(_) =>
           |topic[|app| + 1]| == 11 && forall i :: 0 <= i < 11 ==> topic[|app| + 1][i] == "backchannel"[i] as int
  {
    if channel.Partition? {
      NumberComponentRoundTrip(channel.number);
    }
  }

  /** A subscription to `subscribed` sees every publication whose name it is a prefix of. */
  predicate Sees(app: Name, subscribed: Channel, published: Channel)
    requires subscribed.Valid() && published.Valid()
  {
    ChannelName(app, subscribed) <= ChannelName(app, published)
  }

  lemma SuffixInjective(a: Channel, b: Channel)
    requires a.Valid() && b.Valid() && a.edge == b.edge
    requires Suffix(a) == Suffix(b)
    ensures a == b
  {
    if a.Partition? {
      NumberComponentRoundTrip(a.number);
    }
    if b.Partition? {
      NumberComponentRoundTrip(b.number);
    }
  }

  /**
   Topics do not interfere: a subscription sees exactly its own channel. In
   particular a partition never sees a backchannel nor the other way round.
  */
  lemma SeesOnlyItself(app: Name, subscribed: Channel, published: Channel)
    requires subscribed.Valid() && published.Valid()
    ensures Sees(app, subscribed, published) <==> subscribed == published
  {
    var s, p := ChannelName(app, subscribed), ChannelName(app, published);
    if s <= p {
      assert s[|app|] == p[|app|];
      assert s[|app| + 1] == p[|app| + 1];
      SuffixInjective(subscribed, published);
    }
  }

  /**
   The general rule, for edge ids that parse to any number of components: apart
   from the channel itself, a subscription sees another topic exactly when its
   own name lies inside that topic. Edge ids of one component rule that out.
  */
  lemma SeesNestedTopics(app: Name, a: Name, m: Component, b: Name, n: Component)
    ensures app + a + [m] <= app + b + [n] <==> (a == b && m == n) || a + [m] <= b
  {
    var s, p := app + a + [m], app + b + [n];
    assert s[|app|..] == a + [m];
    assert p[|app|..] == b + [n];
    assert s == app + (a + [m]) && p == app + (b + [n]);
    if s <= p {
      assert forall i :: 0 <= i < |a + [m]| ==> (a + [m])[i] == s[|app| + i] == p[|app| + i] == (b + [n])[i];
      if |a| >= |b| {
        assert a == (a + [m])[..|a|] == (b + [n])[..|b|] == b;
        assert m == (a + [m])[|a|] == (b + [n])[|b|] == n;
      }
    }
  }

  /** The name under which a node's store keeps its publication number `seqNo`. */
  function StoreName(node: Name, app: Name, seqNo: nat): Name
    requires seqNo < U64
  {
    node + app + [NumberComponent(seqNo)]
  }

  /** The node's own name comes first, then the application's, and then the number. */
  lemma StoreNameIs(node: Name, app: Name, seqNo: nat)
    requires seqNo < U64
    ensures var name := StoreName(node, app, seqNo);
      && |name| == |node| + |app| + 1 && name[..|node|] == node && name[|node|..|node| + |app|] == app
      && NumberOf(name[|name| - 1]) == seqNo && name[|name| - 1] == NumberComponent(seqNo)
  {
    NumberComponentRoundTrip(seqNo);
  }

  /** Within one node, distinct sequence numbers are stored under distinct names. */
  lemma StoreNameInjective(node: Name, app: Name, a: nat, b: nat)
    requires a < U64 && b < U64
    ensures StoreName(node, app, a) == StoreName(node, app, b) <==> a == b
  {
    NumberComponentRoundTrip(a);
    NumberComponentRoundTrip(b);
    assert StoreName(node, app, a)[|node + app|] == NumberComponent(a);
    assert StoreName(node, app, b)[|node + app|] == NumberComponent(b);
  }
}
