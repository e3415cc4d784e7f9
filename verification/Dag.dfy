/** The application graph: lookups, upstream edges, and the wiring of an instance. */
module Dag {
  import opened Names
  import opened Wrappers
  import opened Delivery

  datatype Edge = Edge(id: Component, target: string, maxPartitions: Part)

  datatype Node = Node(task: string, name: string, downstream: seq<Edge>)

  method FindNodeByName(nodes: seq<Node>, name: string) returns (found: Option<Node>, ghost at: nat)
    ensures found.None? <==> forall node <- nodes :: node.name != name
    ensures found.Some? ==>
      at < |nodes| && nodes[at] == found.value && found.value.name == name && forall i :: 0 <= i < at ==> nodes[i].name != name
  {
    at := 0;
    for i := 0 to |nodes|
      invariant forall j :: 0 <= j < i ==> nodes[j].name != name
    {
      if nodes[i].name == name {
        return Some(nodes[i]), i;
      }
    }
    found := None;
  }

  /** The first edge of a list with the given target. */
  function FirstTo(edges: seq<Edge>, task: string): (found: Option<Edge>)
    ensures found.None? <==> forall edge <- edges :: edge.target != task
    ensures found.Some? ==> found.value in edges && found.value.target == task
  {
    if edges == [] then None
    else if edges[0].target == task then Some(edges[0])
    else FirstTo(edges[1..], task)
  }

  /** The first edge in the graph with the given id: of the first node that has one, its first. */
  method FindEdgeByName(nodes: seq<Node>, id: Component) returns (found: Option<Edge>, ghost i: nat, ghost j: nat)
    ensures found.None? <==> forall node <- nodes :: forall edge <- node.downstream :: edge.id != id
    ensures found.Some? ==>
      && i < |nodes| && j < |nodes[i].downstream| && nodes[i].downstream[j] == found.value && found.value.id == id
      && (forall k :: 0 <= k < i ==> forall edge <- nodes[k].downstream :: edge.id != id)
      && forall k :: 0 <= k < j ==> nodes[i].downstream[k].id != id
  {
    i, j := 0, 0;
    for m := 0 to |nodes|
      invariant forall k :: 0 <= k < m ==> forall edge <- nodes[k].downstream :: edge.id != id
    {
      var edges := nodes[m].downstream;
      for n := 0 to |edges|
        invariant forall k :: 0 <= k < n ==> edges[k].id != id
      {
        if edges[n].id == id {
          return Some(edges[n]), m, n;
        }
      }
    }
    found := None;
  }

  /** Per node, in order, its first edge to the task. */
  function Upstream(nodes: seq<Node>, task: string): seq<(Node, Edge)>
  {
    if nodes == [] then []
    else
      var last := nodes[|nodes| - 1];
      Upstream(nodes[..|nodes| - 1], task)
      + match FirstTo(last.downstream, task)
        case Some(edge) => [(last, edge)]
        case None => []
  }

  method FindUpstreamEdges(nodes: seq<Node>, task: string) returns (upstream: seq<(Node, Edge)>)
    ensures upstream == Upstream(nodes, task)
  {
    upstream := [];
    for i := 0 to |nodes|
      invariant upstream == Upstream(nodes[..i], task)
    {
      assert nodes[..i + 1][..i] == nodes[..i];
      match FirstTo(nodes[i].downstream, task)
      case Some(edge) =>
        upstream := upstream + [(nodes[i], edge)];
      case None =>
    }
    assert nodes[..|nodes|] == nodes;
  }

  /** All edges of a list with the given target, in order. */
  function EdgesTo(edges: seq<Edge>, task: string): (found: seq<Edge>)
    ensures FirstTo(edges, task) == if found == [] then None else Some(found[0])
  {
    if edges == [] then []
    else (if edges[0].target == task then [edges[0]] else []) + EdgesTo(edges[1..], task)
  }

  function Pairs(node: Node, edges: seq<Edge>): (pairs: seq<(Node, Edge)>)
    ensures |pairs| == |edges|
  {
    seq(|edges|, i requires 0 <= i < |edges| => (node, edges[i]))
  }

  /** The inverse of the downstream relation at a task, in full. */
  function Inverse(nodes: seq<Node>, task: string): seq<(Node, Edge)>
  {
    if nodes == [] then []
    else
      var last := nodes[|nodes| - 1];
      Inverse(nodes[..|nodes| - 1], task) + Pairs(last, EdgesTo(last.downstream, task))
  }

  /** One pair per node with an edge to the task, in node order, with its first such edge; `at` tells the nodes. */
  ghost predicate PlacedAt(nodes: seq<Node>, task: string, upstream: seq<(Node, Edge)>, at: seq<nat>)
  {
    && |at| == |upstream|
    && (forall k, l :: 0 <= k < l < |at| ==> at[k] < at[l])
    && (forall k :: 0 <= k < |at| ==>
          at[k] < |nodes| && FirstTo(nodes[at[k]].downstream, task).Some?
          && upstream[k] == (nodes[at[k]], FirstTo(nodes[at[k]].downstream, task).value))
    && forall i :: 0 <= i < |nodes| && FirstTo(nodes[i].downstream, task).Some? ==> i in at
  }

  lemma PlacedPast(front: seq<Node>, task: string, upstream: seq<(Node, Edge)>, at: seq<nat>, last: Node)
    requires PlacedAt(front, task, upstream, at) && FirstTo(last.downstream, task).None?
    ensures PlacedAt(front + [last], task, upstream, at)
  {
  }

  lemma PlacedOn(front: seq<Node>, task: string, upstream: seq<(Node, Edge)>, at: seq<nat>, last: Node)
    requires PlacedAt(front, task, upstream, at) && FirstTo(last.downstream, task).Some?
    ensures PlacedAt(front + [last], task, upstream + [(last, FirstTo(last.downstream, task).value)], at + [|front|])
  {
    var nodes, next := front + [last], at + [|front|];
    assert next[|at|] == |front| && nodes[|front|] == last;
    forall i | 0 <= i < |nodes| && FirstTo(nodes[i].downstream, task).Some? ensures i in next {
      assert i < |front| ==> i in at;
    }
  }

  lemma {:induction false} UpstreamIsFirstEdges(nodes: seq<Node>, task: string) returns (at: seq<nat>)
    ensures PlacedAt(nodes, task, Upstream(nodes, task), at)
  {
    at := [];
    if nodes != [] {
      var front, last := nodes[..|nodes| - 1], nodes[|nodes| - 1];
      at := UpstreamIsFirstEdges(front, task);
      assert nodes == front + [last];
      if FirstTo(last.downstream, task).Some? {
        PlacedOn(front, task, Upstream(front, task), at, last);
        at := at + [|front|];
      } else {
        PlacedPast(front, task, Upstream(front, task), at, last);
      }
    }
  }

  ghost predicate OneEdgeTo(nodes: seq<Node>, task: string)
  {
    forall node <- nodes :: |EdgesTo(node.downstream, task)| <= 1
  }

  lemma {:induction false} UpstreamCounts(nodes: seq<Node>, task: string)
    ensures |Upstream(nodes, task)| <= |Inverse(nodes, task)|
    ensures OneEdgeTo(nodes, task) ==> Upstream(nodes, task) == Inverse(nodes, task)
    ensures !OneEdgeTo(nodes, task) ==> |Upstream(nodes, task)| < |Inverse(nodes, task)|
  {
    if nodes != [] {
      var front, last := nodes[..|nodes| - 1], nodes[|nodes| - 1];
      assert nodes == front + [last];
      UpstreamCounts(front, task);
      var found := EdgesTo(last.downstream, task);
      if |found| == 1 {
        assert Pairs(last, found) == [(last, found[0])];
      }
      if OneEdgeTo(nodes, task) {
        assert forall node <- front :: node in nodes;
        assert last in nodes;
      }
    }
  }

  /** The lookup is the full inverse exactly when no node has two edges to the task. */
  lemma UpstreamIsInverse(nodes: seq<Node>, task: string)
    ensures Upstream(nodes, task) == Inverse(nodes, task) <==> OneEdgeTo(nodes, task)
  {
    UpstreamCounts(nodes, task);
  }

  // --- Wiring ---

  /** The producers (with their partition counts) and consumers of an instance, by edge id. */
  datatype Instance = Instance(producers: map<Component, Count>, consumers: set<Component>)

  /** The constructor of an instance: it throws for an unknown name or an edge without partitions. */
  method Construct(nodes: seq<Node>, name: string) returns (result: Option<Instance>, ghost at: nat)
    ensures (forall node <- nodes :: node.name != name) ==> result.None?
    ensures (exists node <- nodes :: node.name == name) ==>
      && at < |nodes| && nodes[at].name == name && (forall i :: 0 <= i < at ==> nodes[i].name != name)
      && (result.Some? <==> forall edge <- nodes[at].downstream :: edge.maxPartitions > 0)
    ensures result.Some? ==> at < |nodes| && Wired(nodes, at, result.value)
  {
    var found;
    found, at := FindNodeByName(nodes, name);
    if found.None? {
      return None, at;
    }
    var downstream := found.value.downstream;
    var producers: map<Component, Count> := map[];
    for i := 0 to |downstream|
      invariant forall j :: 0 <= j < i ==> downstream[j].maxPartitions > 0
      invariant forall j: nat, id :: j < i && EdgeAt(nodes, at, j, id) ==> id in producers
      invariant forall id :: id in producers ==>
        exists j: nat :: FirstAt(nodes, at, j, id) && nodes[at].downstream[j].maxPartitions == producers[id]
    {
      if downstream[i].maxPartitions == 0 {
        return None, at;
      }
      if downstream[i].id !in producers {
        assert FirstAt(nodes, at, i, downstream[i].id);
        producers := producers[downstream[i].id := downstream[i].maxPartitions];
      }
    }
    var upstream := FindUpstreamEdges(nodes, found.value.task);
    var consumers: set<Component> := {};
    for i := 0 to |upstream|
      invariant consumers == set j | 0 <= j < i :: upstream[j].1.id
    {
      consumers := consumers + {upstream[i].1.id};
    }
    result := Some(Instance(producers, consumers));
  }

  /** The ids of the edges the upstream lookup finds for a task. */
  function ConsumedIds(nodes: seq<Node>, task: string): set<Component>
  {
    set k | 0 <= k < |Upstream(nodes, task)| :: Upstream(nodes, task)[k].1.id
  }

  /** The j-th edge of the i-th node has this id. */
  predicate EdgeAt(nodes: seq<Node>, i: nat, j: nat, id: Component)
  {
    i < |nodes| && j < |nodes[i].downstream| && nodes[i].downstream[j].id == id
  }

  /** The node's first edge with this id is the j-th. */
  ghost predicate FirstAt(nodes: seq<Node>, i: nat, j: nat, id: Component)
  {
    EdgeAt(nodes, i, j, id) && forall k: nat :: k < j ==> !EdgeAt(nodes, i, k, id)
  }

  ghost predicate HasEdge(nodes: seq<Node>, i: nat, id: Component)
  {
    exists j: nat :: EdgeAt(nodes, i, j, id)
  }

  /**
   The instance belongs to the node: a producer per id of a downstream edge, with the
   count of the first edge of that id, and a consumer per upstream edge found.
  */
  ghost predicate Wired(nodes: seq<Node>, at: nat, instance: Instance)
    requires at < |nodes|
  {
    && (forall id :: id in instance.producers <==> HasEdge(nodes, at, id))
    && (forall id :: id in instance.producers ==>
          exists j: nat :: FirstAt(nodes, at, j, id) && nodes[at].downstream[j].maxPartitions == instance.producers[id])
    && instance.consumers == ConsumedIds(nodes, nodes[at].task)
  }

  /** Some node lists an edge of this id with the task as its target. */
  ghost predicate Lists(nodes: seq<Node>, task: string, id: Component)
  {
    exists i: nat, j: nat :: EdgeAt(nodes, i, j, id) && nodes[i].downstream[j].target == task
  }

  /** No edge id occurs at two places of the graph. */
  ghost predicate UniqueIds(nodes: seq<Node>)
  {
    forall i: nat, j: nat, k: nat, l: nat, id :: EdgeAt(nodes, i, j, id) && EdgeAt(nodes, k, l, id) ==> i == k && j == l
  }

  predicate FirstEdgeIs(nodes: seq<Node>, i: nat, task: string, id: Component)
  {
    i < |nodes| && FirstTo(nodes[i].downstream, task).Some? && FirstTo(nodes[i].downstream, task).value.id == id
  }

  lemma ConsumedIdsAreFirstEdges(nodes: seq<Node>, task: string, id: Component)
    ensures id in ConsumedIds(nodes, task) <==> exists i: nat :: FirstEdgeIs(nodes, i, task, id)
  {
    var at := UpstreamIsFirstEdges(nodes, task);
    forall i: nat | FirstEdgeIs(nodes, i, task, id) ensures id in ConsumedIds(nodes, task) {
      var k :| 0 <= k < |at| && at[k] == i;
      assert Upstream(nodes, task)[k].1 == FirstTo(nodes[i].downstream, task).value;
    }
    if id in ConsumedIds(nodes, task) {
      var k :| 0 <= k < |at| && Upstream(nodes, task)[k].1.id == id;
      assert FirstEdgeIs(nodes, at[k], task, id);
    }
  }

  lemma {:induction false} FirstPosition(edges: seq<Edge>, task: string) returns (m: nat)
    requires FirstTo(edges, task).Some?
    ensures m < |edges| && edges[m] == FirstTo(edges, task).value
    ensures forall j :: 0 <= j < m ==> edges[j].target != task
  {
    if edges[0].target == task {
      m := 0;
    } else {
      m := FirstPosition(edges[1..], task);
      m := m + 1;
    }
  }

  lemma {:induction false} SecondPosition(edges: seq<Edge>, task: string) returns (j: nat, l: nat)
    requires |EdgesTo(edges, task)| > 1
    ensures j < l < |edges| && edges[j].target == task && edges[l].target == task
  {
    if edges[0].target == task {
      var k := FirstPosition(edges[1..], task);
      j, l := 0, k + 1;
    } else {
      j, l := SecondPosition(edges[1..], task);
      j, l := j + 1, l + 1;
    }
  }

  lemma {:induction false} OnlyPosition(edges: seq<Edge>, task: string, j: nat)
    requires |EdgesTo(edges, task)| <= 1 && j < |edges| && edges[j].target == task
    ensures FirstTo(edges, task) == Some(edges[j])
  {
    if j > 0 {
      OnlyPosition(edges[1..], task, j - 1);
    }
  }

  lemma ConsumedIsListed(nodes: seq<Node>, task: string, id: Component)
    requires id in ConsumedIds(nodes, task)
    ensures Lists(nodes, task, id)
  {
    ConsumedIdsAreFirstEdges(nodes, task, id);
    var i: nat :| FirstEdgeIs(nodes, i, task, id);
    var m := FirstPosition(nodes[i].downstream, task);
    assert EdgeAt(nodes, i, m, id);
  }

  lemma ListedIsConsumed(nodes: seq<Node>, task: string, id: Component)
    requires OneEdgeTo(nodes, task) && Lists(nodes, task, id)
    ensures id in ConsumedIds(nodes, task)
  {
    var i: nat, j: nat :| EdgeAt(nodes, i, j, id) && nodes[i].downstream[j].target == task;
    assert nodes[i] in nodes;
    OnlyPosition(nodes[i].downstream, task, j);
    assert FirstEdgeIs(nodes, i, task, id);
    ConsumedIdsAreFirstEdges(nodes, task, id);
  }

  lemma SecondEdgeIsMissed(nodes: seq<Node>, task: string) returns (id: Component)
    requires UniqueIds(nodes) && !OneEdgeTo(nodes, task)
    ensures Lists(nodes, task, id) && id !in ConsumedIds(nodes, task)
  {
    var node :| node in nodes && |EdgesTo(node.downstream, task)| > 1;
    var i: nat :| i < |nodes| && nodes[i] == node;
    var j, l := SecondPosition(node.downstream, task);
    id := node.downstream[l].id;
    assert EdgeAt(nodes, i, l, id);
    ConsumedIdsAreFirstEdges(nodes, task, id);
    forall k: nat | FirstEdgeIs(nodes, k, task, id) ensures false {
      var m := FirstPosition(nodes[k].downstream, task);
      assert EdgeAt(nodes, k, m, id);
    }
  }

  /**
   The consumers of a task's instances are complete, one for each edge listed with
   that task as its target, exactly when no node lists two such edges; they are
   always sound.
  */
  lemma WiringIsComplete(nodes: seq<Node>, task: string)
    requires UniqueIds(nodes)
    ensures (forall id :: id in ConsumedIds(nodes, task) <==> Lists(nodes, task, id)) <==> OneEdgeTo(nodes, task)
    ensures forall id :: id in ConsumedIds(nodes, task) ==> Lists(nodes, task, id)
  {
    forall id | id in ConsumedIds(nodes, task) ensures Lists(nodes, task, id) {
      ConsumedIsListed(nodes, task, id);
    }
    if OneEdgeTo(nodes, task) {
      forall id | Lists(nodes, task, id) ensures id in ConsumedIds(nodes, task) {
        ListedIsConsumed(nodes, task, id);
      }
    } else {
      var id := SecondEdgeIsMissed(nodes, task);
    }
  }

  /**
   Both ends of an edge: with at most one edge from any node to B's task, the
   instance of A has the producer for each of A's edges, and the instance of B has
   a consumer for it exactly when B's task is its target.
  */
  lemma BothEndsAreWired(nodes: seq<Node>, a: nat, b: nat, j: nat, producing: Instance, consuming: Instance)
    requires UniqueIds(nodes) && a < |nodes| && b < |nodes| && j < |nodes[a].downstream|
    requires OneEdgeTo(nodes, nodes[b].task) && Wired(nodes, a, producing) && Wired(nodes, b, consuming)
    ensures var edge := nodes[a].downstream[j];
      && edge.id in producing.producers && producing.producers[edge.id] == edge.maxPartitions
      && (edge.id in consuming.consumers <==> edge.target == nodes[b].task)
  {
    var edge, task := nodes[a].downstream[j], nodes[b].task;
    assert EdgeAt(nodes, a, j, edge.id);
    assert HasEdge(nodes, a, edge.id);
    if edge.id in consuming.consumers {
      ConsumedIsListed(nodes, task, edge.id);
      var k: nat, l: nat :| EdgeAt(nodes, k, l, edge.id) && nodes[k].downstream[l].target == task;
    } else if edge.target == task {
      ListedIsConsumed(nodes, task, edge.id);
    }
  }

  // --- Running instances of the nodes ---

  /** The topology of a deployment in which node `n` of the network runs `nodes[instances[n]]`. */
  ghost predicate Deployed(t: Topology, nodes: seq<Node>, instances: map<NodeId, nat>)
  {
    && (forall n <- instances :: instances[n] < |nodes|)
    && (forall e: Endpoint :: e in t.consumers <==>
          e.node in instances && e.edge in ConsumedIds(nodes, nodes[instances[e.node]].task))
    && forall e: Endpoint :: e in t.producers <==>
          e.node in instances && HasEdge(nodes, instances[e.node], e.edge)
  }

  /** The consumer hears from this instance of the node its edge comes from. */
  ghost predicate HearsFrom(t: Topology, nodes: seq<Node>, instances: map<NodeId, nat>, c: Endpoint, n: NodeId)
  {
    c in t.consumers && n in instances && n != c.node && HasEdge(nodes, instances[n], c.edge)
  }

  /** Besides itself, a consumer has at most one instance of the node its edge comes from. */
  ghost predicate NotScaledOut(t: Topology, nodes: seq<Node>, instances: map<NodeId, nat>)
  {
    forall c, m, n ::
      HearsFrom(t, nodes, instances, c, m) && HearsFrom(t, nodes, instances, c, n) && instances[m] == instances[n] ==> m == n
  }

  lemma SameSource(nodes: seq<Node>, i: nat, k: nat, id: Component)
    requires UniqueIds(nodes) && HasEdge(nodes, i, id) && HasEdge(nodes, k, id)
    ensures i == k
  {
    var j: nat :| EdgeAt(nodes, i, j, id);
    var l: nat :| EdgeAt(nodes, k, l, id);
  }

  lemma NotScaledOutIsSafe(t: Topology, nodes: seq<Node>, instances: map<NodeId, nat>)
    requires UniqueIds(nodes) && Deployed(t, nodes, instances) && NotScaledOut(t, nodes, instances)
    ensures OneForeignProducer(t)
  {
    forall c, p, q | c in t.consumers && p in t.producers && q in t.producers
      && c.edge == p.edge == q.edge && p.node != c.node && q.node != c.node
      ensures p == q
    {
      SameSource(nodes, instances[p.node], instances[q.node], c.edge);
      assert HearsFrom(t, nodes, instances, c, p.node) && HearsFrom(t, nodes, instances, c, q.node);
    }
  }

  lemma ScaledOutIsUnsafe(t: Topology, nodes: seq<Node>, instances: map<NodeId, nat>)
    requires Deployed(t, nodes, instances) && !NotScaledOut(t, nodes, instances)
    ensures !OneForeignProducer(t)
  {
    var c, m, n :| HearsFrom(t, nodes, instances, c, m) && HearsFrom(t, nodes, instances, c, n)
      && instances[m] == instances[n] && m != n;
    assert Endpoint(m, c.edge) in t.producers && Endpoint(n, c.edge) in t.producers;
  }

  /**
   Scaling out and acknowledgements: a deployment never erases unconsumed data, in
   any execution, exactly when no consumer hears from two instances of one
   producing node.
  */
  lemma SafeExactlyWhenNotScaledOut(t: Topology, nodes: seq<Node>, instances: map<NodeId, nat>)
    requires UniqueIds(nodes) && Deployed(t, nodes, instances)
    ensures AlwaysSafe(t) <==> NotScaledOut(t, nodes, instances)
  {
    SafeExactlyWithOneForeignProducer(t);
    if NotScaledOut(t, nodes, instances) {
      NotScaledOutIsSafe(t, nodes, instances);
    } else {
      ScaledOutIsUnsafe(t, nodes, instances);
    }
  }
}
