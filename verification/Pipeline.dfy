/**
 Partition assignment, delivery and counting put together: which assignments make
 delivery exact, and what the word-count application then computes.
*/
module Pipeline {
  import opened Names
  import opened Delivery
  import opened ExactlyOnce
  import opened Partitions
  import opened Seqs
  import opened Stages
  import WordCount

  /** The consumers of the edge run on exactly these nodes, one on each. */
  ghost predicate ConsumersAre(t: Topology, edge: Component, nodes: seq<NodeId>)
  {
    && (forall i, j :: 0 <= i < j < |nodes| ==> nodes[i] != nodes[j])
    && forall c: Endpoint :: c.edge == edge ==> (c in t.consumers <==> c.node in nodes)
  }

  function ConsumerOn(edge: Component, nodes: seq<NodeId>, j: nat): Endpoint
    requires j < |nodes|
  {
    Endpoint(nodes[j], edge)
  }

  /** If the list of the consumer `owner(p)`, and no other, holds p, and once, that is a cover. */
  lemma CoverFromOwners(t: Topology, s: State, edge: Component, nodes: seq<NodeId>, n: Part, owner: Part -> nat)
    requires ConsumersAre(t, edge, nodes)
    requires forall p: Part :: p < n ==> owner(p) < |nodes|
    requires forall j, p: Part :: 0 <= j < |nodes| && p < n ==>
      multiset(Parts(s, ConsumerOn(edge, nodes, j)))[p] == if owner(p) == j then 1 else 0
    ensures Covered(t, s, edge, n)
  {
    var owners := seq(n, p requires 0 <= p < n => nodes[owner(p)]);
    forall c, p: Part | c in t.consumers && c.edge == edge && p < n
      ensures multiset(Parts(s, c))[p] == if c.node == owners[p] then 1 else 0
    {
      var j :| 0 <= j < |nodes| && nodes[j] == c.node;
      assert c == ConsumerOn(edge, nodes, j);
    }
    assert CoveredBy(t, s, edge, owners);
  }

  /** Strided lists with the indices 0 .. n - 1 cover all partitions up to the highest. */
  lemma StridedListsCover(t: Topology, s: State, edge: Component, nodes: seq<NodeId>, highest: Part)
    requires ConsumersAre(t, edge, nodes) && |nodes| > 0 && highest + 1 < U32
    requires forall j :: 0 <= j < |nodes| ==> Parts(s, ConsumerOn(edge, nodes, j)) == Strided(highest, j, |nodes|)
    ensures Covered(t, s, edge, highest + 1)
  {
    var n := |nodes|;
    forall j, p: Part | 0 <= j < n && p < highest + 1
      ensures multiset(Parts(s, ConsumerOn(edge, nodes, j)))[p] == if p % n == j then 1 else 0
    {
      StridedListsPartition(highest, 0, n, j, p);
    }
    CoverFromOwners(t, s, edge, nodes, highest + 1, (p: Part) => p % n);
  }

  /** Repartitioning requests along a chain of bounds cover all partitions. */
  lemma RangesCover(t: Topology, s: State, edge: Component, nodes: seq<NodeId>, bounds: seq<Part>, n: Part)
    requires ConsumersAre(t, edge, nodes) && Chain(bounds, n) && |bounds| == |nodes| + 1
    requires forall k :: 0 <= k < |nodes| ==> Parts(s, ConsumerOn(edge, nodes, k)) == Range(bounds[k], bounds[k + 1])
    ensures Covered(t, s, edge, n)
  {
    forall j, p: Part | 0 <= j < |nodes| && p < n
      ensures multiset(Parts(s, ConsumerOn(edge, nodes, j)))[p] == if RangeOf(bounds, n, p, 0) == j then 1 else 0
    {
      RangesTile(bounds, n, p, j);
    }
    CoverFromOwners(t, s, edge, nodes, n, (p: Part) => if p < n then RangeOf(bounds, n, p, 0) else 0);
  }

  ghost predicate SubscribedWith(t: Topology, s: State, edge: Component, nodes: seq<NodeId>, lists: seq<seq<Part>>)
  {
    ConsumersAre(t, edge, nodes) && |lists| == |nodes|
    && forall j: nat :: j < |nodes| ==> Parts(s, ConsumerOn(edge, nodes, j)) == lists[j]
  }

  lemma ConsumerIndex(t: Topology, edge: Component, nodes: seq<NodeId>, c: Endpoint) returns (j: nat)
    requires ConsumersAre(t, edge, nodes) && c in t.consumers && c.edge == edge
    ensures j < |nodes| && nodes[j] == c.node && c == ConsumerOn(edge, nodes, j)
    ensures forall k: nat :: k < |nodes| ==> (nodes[k] == c.node <==> k == j)
  {
    j :| 0 <= j < |nodes| && nodes[j] == c.node;
  }

  // --- The word-count application over the delivery protocol ---

  /** The source published the lines of the text, the second stage answered each with its words. */
  ghost predicate WordCountRun(t: Topology, states: seq<State>, steps: seq<Step>, lineEdge: Component, wordEdge: Component, text: string)
  {
    && Execution(t, states, steps)
    && Settled(t, states, steps, |steps|, lineEdge) && Settled(t, states, steps, |steps|, wordEdge)
    && multiset(PayloadsPublished(states[|steps|], lineEdge)) == multiset(WordCount.Lines(text))
    && Answers(Stage(WordCount.Words, lineEdge, wordEdge), states, steps)
  }

  /** The items one consumer's callback was run on, in order. */
  function ItemsRunAt(runs: seq<Delivery>, c: Endpoint): seq<Item>
  {
    if runs == [] then []
    else
      var last := runs[|runs| - 1];
      ItemsRunAt(runs[..|runs| - 1], c) + if last.at == c then [last.item] else []
  }

  /** The map of the counter behind a consumer: each payload its callback was handed is counted. */
  function CountsAt(s: State, c: Endpoint): map<string, nat>
  {
    WordCount.CountPayloads(map[], Map(PayloadOf(s), ItemsRunAt(s.runs, c)))
  }

  /** What each of the counters has for a word. */
  function CountAt(s: State, edge: Component, counters: seq<NodeId>, word: string): nat -> nat
  {
    (i: nat) => if i < |counters| then WordCount.CountOf(CountsAt(s, Endpoint(counters[i], edge)), word) else 0
  }

  /** What the counters together have for it. */
  function Total(s: State, edge: Component, counters: seq<NodeId>, word: string): nat
  {
    Sum(CountAt(s, edge, counters, word), |counters|)
  }

  // --- Adding up the counters ---

  /** How often a word occurs in the payloads handed to each of the counters. */
  function OccurrencesAt(payload: Item -> string, runs: seq<Delivery>, edge: Component, counters: seq<NodeId>, word: string): nat -> nat
  {
    (i: nat) => if i < |counters| then WordCount.Occurrences(Map(payload, ItemsRunAt(runs, Endpoint(counters[i], edge))), word) else 0
  }

  lemma TotalIsOccurrences(s: State, edge: Component, counters: seq<NodeId>, word: string)
    ensures Total(s, edge, counters, word) == Sum(OccurrencesAt(PayloadOf(s), s.runs, edge, counters, word), |counters|)
  {
    var f, g := OccurrencesAt(PayloadOf(s), s.runs, edge, counters, word), CountAt(s, edge, counters, word);
    forall i: nat | i < |counters| ensures g(i) == f(i) {
      CountIsOccurrences(s, Endpoint(counters[i], edge), word);
    }
    SumDiffers(f, g, |counters|, 0, 0);
  }

  lemma CountIsOccurrences(s: State, c: Endpoint, word: string)
    ensures WordCount.CountOf(CountsAt(s, c), word) == WordCount.Occurrences(Map(PayloadOf(s), ItemsRunAt(s.runs, c)), word)
  {
    WordCount.CountOfPayloads(Map(PayloadOf(s), ItemsRunAt(s.runs, c)), word);
  }

  /** How often the word occurs in the payload of one run. */
  function Share(payload: Item -> string, d: Delivery, word: string): nat
  {
    multiset(WordCount.LoweredWords(payload(d.item)))[word]
  }

  lemma OneMoreRun(payload: Item -> string, front: seq<Delivery>, last: Delivery, c: Endpoint, word: string)
    ensures WordCount.Occurrences(Map(payload, ItemsRunAt(front + [last], c)), word)
         == WordCount.Occurrences(Map(payload, ItemsRunAt(front, c)), word)
            + if last.at == c then Share(payload, last, word) else 0
  {
    assert (front + [last])[..|front|] == front;
    var before := ItemsRunAt(front, c);
    if last.at == c {
      assert Map(payload, before + [last.item]) == Map(payload, before) + [payload(last.item)];
      WordCount.OneMorePayload(Map(payload, before), payload(last.item), word);
    } else {
      assert before + [] == before;
    }
  }

  lemma OneMoreOnEdge(payload: Item -> string, front: seq<Delivery>, last: Delivery, edge: Component, word: string)
    ensures WordCount.Occurrences(Map(payload, ItemsRun(front + [last], edge)), word)
         == WordCount.Occurrences(Map(payload, ItemsRun(front, edge)), word)
            + if last.at.edge == edge then Share(payload, last, word) else 0
  {
    assert (front + [last])[..|front|] == front;
    var before := ItemsRun(front, edge);
    if last.at.edge == edge {
      assert Map(payload, before + [last.item]) == Map(payload, before) + [payload(last.item)];
      WordCount.OneMorePayload(Map(payload, before), payload(last.item), word);
    } else {
      assert before + [] == before;
    }
  }

  lemma OneMoreCounted(payload: Item -> string, front: seq<Delivery>, last: Delivery, edge: Component,
                       counters: seq<NodeId>, word: string, owner: nat)
    requires forall i: nat :: i < |counters| ==> (Endpoint(counters[i], edge) == last.at <==> i == owner)
    ensures Sum(OccurrencesAt(payload, front + [last], edge, counters, word), |counters|)
         == Sum(OccurrencesAt(payload, front, edge, counters, word), |counters|)
            + if owner < |counters| then Share(payload, last, word) else 0
  {
    var f, g := OccurrencesAt(payload, front, edge, counters, word), OccurrencesAt(payload, front + [last], edge, counters, word);
    forall i: nat | i < |counters| ensures g(i) == f(i) + if i == owner then Share(payload, last, word) else 0 {
      OneMoreRun(payload, front, last, Endpoint(counters[i], edge), word);
    }
    SumDiffers(f, g, |counters|, owner, Share(payload, last, word));
  }

  /** The run's counter, or none if the run is not of this edge. */
  function Owner(counters: seq<NodeId>, at: Endpoint, edge: Component): (owner: nat)
    ensures owner <= |counters|
    ensures owner < |counters| ==> Endpoint(counters[owner], edge) == at
    ensures owner == |counters| ==> at.edge != edge || at.node !in counters
  {
    if at.edge == edge && at.node in counters then IndexOf(counters, at.node) else |counters|
  }

  function IndexOf(nodes: seq<NodeId>, node: NodeId): (i: nat)
    requires node in nodes
    ensures i < |nodes| && nodes[i] == node
  {
    if nodes[0] == node then 0 else 1 + IndexOf(nodes[1..], node)
  }

  /** Each execution on the edge is counted by one counter. */
  lemma {:induction false} CountersAddUp(payload: Item -> string, runs: seq<Delivery>, edge: Component, counters: seq<NodeId>, word: string)
    requires forall i, j :: 0 <= i < j < |counters| ==> counters[i] != counters[j]
    requires forall d <- runs :: d.at.edge == edge ==> d.at.node in counters
    ensures Sum(OccurrencesAt(payload, runs, edge, counters, word), |counters|)
         == WordCount.Occurrences(Map(payload, ItemsRun(runs, edge)), word)
  {
    if runs == [] {
      NoRuns(payload, edge, counters, word, |counters|);
    } else {
      var front, last := runs[..|runs| - 1], runs[|runs| - 1];
      assert runs == front + [last];
      assert last in runs && forall d <- front :: d in runs;
      CountersAddUp(payload, front, edge, counters, word);
      OneMoreCounted(payload, front, last, edge, counters, word, Owner(counters, last.at, edge));
      OneMoreOnEdge(payload, front, last, edge, word);
    }
  }

  lemma {:induction false} NoRuns(payload: Item -> string, edge: Component, counters: seq<NodeId>, word: string, k: nat)
    requires k <= |counters|
    ensures Sum(OccurrencesAt(payload, [], edge, counters, word), k) == 0
    ensures WordCount.Occurrences(Map(payload, ItemsRun([], edge)), word) == 0
  {
    if k > 0 {
      NoRuns(payload, edge, counters, word, k - 1);
    }
  }

  /** With the counters on these nodes, what they have together is what one counter of all payloads would have. */
  lemma TotalIsOfAll(t: Topology, s: State, edge: Component, counters: seq<NodeId>, word: string)
    requires Invariant(t, s) && ConsumersAre(t, edge, counters)
    ensures Total(s, edge, counters, word) == WordCount.CountOf(WordCount.CountPayloads(map[], PayloadsConsumed(s, edge)), word)
  {
    forall d | d in s.runs && d.at.edge == edge ensures d.at.node in counters {
      RunsAreProper(t, s, d);
    }
    TotalIsOccurrences(s, edge, counters, word);
    CountersAddUp(PayloadOf(s), s.runs, edge, counters, word);
    WordCount.CountOfPayloads(PayloadsConsumed(s, edge), word);
  }

  lemma {:induction false} OnlyCounter(runs: seq<Delivery>, c: Endpoint)
    requires forall d <- runs :: d.at.edge == c.edge ==> d.at == c
    ensures ItemsRunAt(runs, c) == ItemsRun(runs, c.edge)
  {
    if runs != [] {
      var front, last := runs[..|runs| - 1], runs[|runs| - 1];
      assert last in runs && forall d <- front :: d in runs;
      OnlyCounter(front, c);
    }
  }

  /** A single counter has them all. */
  lemma CounterHasAll(t: Topology, s: State, edge: Component, node: NodeId)
    requires Invariant(t, s) && ConsumersAre(t, edge, [node])
    ensures CountsAt(s, Endpoint(node, edge)) == WordCount.CountPayloads(map[], PayloadsConsumed(s, edge))
  {
    forall d | d in s.runs && d.at.edge == edge ensures d.at == Endpoint(node, edge) {
      RunsAreProper(t, s, d);
    }
    OnlyCounter(s.runs, Endpoint(node, edge));
  }

  // --- The counts of a run ---

  ghost predicate AllHeldOnce(t: Topology, states: seq<State>, steps: seq<Step>, edge: Component)
  {
    |states| == |steps| + 1
    && forall item :: OnEdge(states[|steps|], item, edge) ==> HeldOnce(t, states, steps, |steps|, item)
  }

  /** The words the counter is handed are those of the lines the splitters were handed. */
  lemma WordsArrive(t: Topology, states: seq<State>, steps: seq<Step>, lineEdge: Component, wordEdge: Component, text: string)
    requires WordCountRun(t, states, steps, lineEdge, wordEdge, text) && AllHeldOnce(t, states, steps, wordEdge)
    ensures var s := states[|steps|];
      multiset(PayloadsConsumed(s, wordEdge)) == multiset(Flatten(Map(WordCount.Words, PayloadsConsumed(s, lineEdge))))
  {
    ConsumedIsPublishedExactly(t, states, steps, |steps|, wordEdge);
    StageAppliesItsFunction(t, Stage(WordCount.Words, lineEdge, wordEdge), states, steps);
  }

  /**
   If each line and each word was held once when the nodes learned of it, then in the
   final state each lower-cased word of the text is counted as often as it occurs,
   over all counters together, and a single counter has exactly those counts, however
   partitions were drawn, handed over between items, and deliveries, callbacks,
   publications of the splitters and acknowledgements interleaved.
  */
  lemma WordCountOverDelivery(t: Topology, states: seq<State>, steps: seq<Step>, lineEdge: Component, wordEdge: Component,
                              counters: seq<NodeId>, text: string)
    requires WordCountRun(t, states, steps, lineEdge, wordEdge, text) && ConsumersAre(t, wordEdge, counters)
    requires AllHeldOnce(t, states, steps, lineEdge) && AllHeldOnce(t, states, steps, wordEdge)
    ensures forall word ::
      Total(states[|steps|], wordEdge, counters, word) == multiset(Map(WordCount.Lower, WordCount.Words(text)))[word]
    ensures |counters| == 1 ==>
      CountsAt(states[|steps|], Endpoint(counters[0], wordEdge)) == WordCount.CountFrom(map[], Map(WordCount.Lower, WordCount.Words(text)))
  {
    var s := states[|steps|];
    ConsumedIsPublishedExactly(t, states, steps, |steps|, lineEdge);
    WordsArrive(t, states, steps, lineEdge, wordEdge, text);
    WordCount.EndToEnd(text, PayloadsConsumed(s, lineEdge), PayloadsConsumed(s, wordEdge));
    InvariantHolds(t, states, steps, |steps|);
    forall word
      ensures Total(s, wordEdge, counters, word) == multiset(Map(WordCount.Lower, WordCount.Words(text)))[word]
    {
      TotalIsOfAll(t, s, wordEdge, counters, word);
    }
    if |counters| == 1 {
      assert counters == [counters[0]];
      CounterHasAll(t, s, wordEdge, counters[0]);
    }
  }

  /** Whenever a node learned of an item of the edge, its consumer's list was the one given for it. */
  ghost predicate LearnedWith(t: Topology, states: seq<State>, steps: seq<Step>, edge: Component, nodes: seq<NodeId>, lists: seq<seq<Part>>)
  {
    ConsumersAre(t, edge, nodes) && NoSelfConsumer(t, edge) && |lists| == |nodes|
    && forall i: nat, k: nat, item :: k < |nodes| && Meets(t, states, steps, i, ConsumerOn(edge, nodes, k), item) ==>
         Parts(states[i], ConsumerOn(edge, nodes, k)) == lists[k]
  }

  lemma HeldAsListed(t: Topology, states: seq<State>, steps: seq<Step>, j: nat, edge: Component, nodes: seq<NodeId>, lists: seq<seq<Part>>,
                     item: Item, i: nat, e: Endpoint) returns (k: nat)
    requires Execution(t, states, steps) && LearnedWith(t, states, steps, edge, nodes, lists)
    requires i < j < |states| && OnEdge(states[j], item, edge) && Meets(t, states, steps, i, e, item)
    ensures k < |nodes| && e == ConsumerOn(edge, nodes, k)
    ensures Held(states[i], e, item) == multiset(lists[k])[At(states[j], item).partition]
  {
    ExecutionExtends(t, states, steps, i, j);
    k := ConsumerIndex(t, edge, nodes, e);
  }

  /** With fixed lists, an item is held once if just one list has its partition, once, and held by none if no list has it. */
  lemma HeldByLists(t: Topology, states: seq<State>, steps: seq<Step>, j: nat, edge: Component, nodes: seq<NodeId>, lists: seq<seq<Part>>,
                    item: Item, owner: nat)
    requires Execution(t, states, steps) && LearnedWith(t, states, steps, edge, nodes, lists)
    requires j < |states| && OnEdge(states[j], item, edge)
    requires forall k: nat :: k < |lists| ==> multiset(lists[k])[At(states[j], item).partition] == if k == owner then 1 else 0
    ensures owner < |nodes| ==> HeldOnce(t, states, steps, j, item)
    ensures owner >= |nodes| ==> HeldByNone(t, states, steps, j, item)
  {
    forall i: nat, e | i < j && Meets(t, states, steps, i, e, item)
      ensures Held(states[i], e, item) == if owner < |nodes| && e == ConsumerOn(edge, nodes, owner) then 1 else 0
    {
      var k := HeldAsListed(t, states, steps, j, edge, nodes, lists, item, i, e);
    }
    if owner < |nodes| {
      InvariantHolds(t, states, steps, j);
      assert EntryProper(t, states[j], item);
      assert HeldOnlyBy(t, states, steps, j, item, ConsumerOn(edge, nodes, owner));
    }
  }
}
