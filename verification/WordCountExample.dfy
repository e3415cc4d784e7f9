/**
 The word-count example as it is wired: what its splitters are subscribed to, when its
 counts come out right, and an execution of each kind.
*/
module WordCountExample {
  import opened Names
  import opened Delivery
  import opened ExactlyOnce
  import opened Partitions
  import opened Seqs
  import opened Pipeline
  import WordCount

  /**
   The lists that the two instances are given by the loop with the indices 1 and 2,
   stride 2, and the number of partitions for the highest one.
  */
  ghost predicate ExampleLists(n: Count, lists: seq<seq<Part>>)
  {
    |lists| == 2 && forall j: nat :: j < 2 ==> Returns(n, j + 1, 2, lists[j])
  }

  lemma LoopOfTwo(n: Count, index: Part)
    requires index == 1 || index == 2
    ensures Terminates(n, index, 2) <==> EndsCleanly(n, index, 2)
    ensures Terminates(n, 2, 2) <==> n < U32 - 2
    ensures Terminates(n, 2, 2) ==> Terminates(n, 1, 2)
  {
    assert Gap(2) == 2;
  }

  /** Both loops return exactly when the number of partitions is below 2^32 - 2. */
  lemma ExampleListsExist(n: Count)
    ensures (exists lists :: ExampleLists(n, lists)) <==> n < U32 - 2
  {
    LoopOfTwo(n, 2);
    StopsExactlyWhenTerminates(n, 1, 2);
    StopsExactlyWhenTerminates(n, 2, 2);
    if n < U32 - 2 {
      var i: nat :| Stops(n, 1, 2, i);
      var k: nat :| Stops(n, 2, 2, k);
      var lists := [Rounds(1, 2, i), Rounds(2, 2, k)];
      assert Returns(n, 1, 2, lists[0]) && Returns(n, 2, 2, lists[1]);
      assert ExampleLists(n, lists);
    }
    forall lists | ExampleLists(n, lists) ensures n < U32 - 2 {
      assert Returns(n, 1 + 1, 2, lists[1]);
    }
  }

  lemma ExampleListIsStrided(n: Count, lists: seq<seq<Part>>, j: nat)
    requires ExampleLists(n, lists) && j < 2
    ensures lists[j] == Strided(n, 1 + j, 2)
  {
    assert Returns(n, j + 1, 2, lists[j]);
    StopsExactlyWhenTerminates(n, j + 1, 2);
    LoopOfTwo(n, j + 1);
    CleanRoundsAreStrided(n, j + 1, 2, lists[j]);
  }

  lemma ExampleListsHold(n: Count, lists: seq<seq<Part>>, j: nat, p: Part)
    requires ExampleLists(n, lists) && j < 2
    ensures p in lists[j] <==> 1 <= p <= n && j == (p - 1) % 2
    ensures multiset(lists[j])[p] == if 1 <= p <= n && j == (p - 1) % 2 then 1 else 0
  {
    ExampleListIsStrided(n, lists, j);
    StridedListsPartition(n, 1, 2, j, p);
  }

  /** Together the two instances are subscribed to 1 .. n. */
  lemma ExampleSubscriptions(t: Topology, s: State, edge: Component, nodes: seq<NodeId>, n: Count, lists: seq<seq<Part>>, c: Endpoint, p: Part)
    requires SubscribedWith(t, s, edge, nodes, lists) && ExampleLists(n, lists)
    requires c in t.consumers && c.edge == edge
    ensures p in Parts(s, c) <==> 1 <= p <= n && nodes[(p - 1) % 2] == c.node
  {
    var j := ConsumerIndex(t, edge, nodes, c);
    ExampleListsHold(n, lists, j, p);
  }

  /** So nobody ever sees partition 0, which producers do use: the partitions are not covered. */
  lemma ExampleMissesPartitionZero(t: Topology, s: State, edge: Component, nodes: seq<NodeId>, n: Count, lists: seq<seq<Part>>)
    requires SubscribedWith(t, s, edge, nodes, lists) && ExampleLists(n, lists)
    ensures !Covered(t, s, edge, n)
    ensures forall c <- t.consumers :: c.edge == edge ==> 0 !in Parts(s, c)
  {
    forall c | c in t.consumers && c.edge == edge ensures 0 !in Parts(s, c) && multiset(Parts(s, c))[0] == 0 {
      ExampleSubscriptions(t, s, edge, nodes, n, lists, c, 0);
    }
    forall owners | |owners| == n as int ensures !CoveredBy(t, s, edge, owners) {
      assert Endpoint(owners[0], edge) in t.consumers ==> multiset(Parts(s, Endpoint(owners[0], edge)))[0] == 0;
    }
  }

  /** The counter's edge has one partition, and the counter is subscribed to it. */
  lemma CounterHoldsWords(t: Topology, states: seq<State>, steps: seq<Step>, wordEdge: Component, counter: NodeId)
    requires Execution(t, states, steps) && LearnedWith(t, states, steps, wordEdge, [counter], [[0]]) && AtMost(t, wordEdge, 1)
    ensures AllHeldOnce(t, states, steps, wordEdge)
  {
    forall item | OnEdge(states[|steps|], item, wordEdge) ensures HeldOnce(t, states, steps, |steps|, item) {
      InvariantHolds(t, states, steps, |steps|);
      assert EntryProper(t, states[|steps|], item);
      HeldByLists(t, states, steps, |steps|, wordEdge, [counter], [[0]], item, 0);
    }
  }

  /** Drawn on partition 0. */
  function OnZero(s: State): Item -> bool
  {
    item => Published(s, item) && At(s, item).Data? && At(s, item).partition == 0
  }

  lemma ExampleHolds(t: Topology, states: seq<State>, steps: seq<Step>, edge: Component, nodes: seq<NodeId>, n: Count, lists: seq<seq<Part>>, item: Item)
    requires Execution(t, states, steps) && |nodes| == 2 && LearnedWith(t, states, steps, edge, nodes, lists) && ExampleLists(n, lists)
    requires AtMost(t, edge, n) && OnEdge(states[|steps|], item, edge)
    ensures if OnZero(states[|steps|])(item) then HeldByNone(t, states, steps, |steps|, item) else HeldOnce(t, states, steps, |steps|, item)
  {
    InvariantHolds(t, states, steps, |steps|);
    assert EntryProper(t, states[|steps|], item);
    var p := At(states[|steps|], item).partition;
    ExampleListsHold(n, lists, 0, p);
    ExampleListsHold(n, lists, 1, p);
    HeldByLists(t, states, steps, |steps|, edge, nodes, lists, item, if p == 0 then 2 else (p - 1) % 2);
  }

  /** The published lines are those handed to the splitters and those drawn on partition 0. */
  lemma ExampleLines(t: Topology, states: seq<State>, steps: seq<Step>, edge: Component, nodes: seq<NodeId>, n: Count, lists: seq<seq<Part>>) returns (lost: seq<string>)
    requires Execution(t, states, steps) && Settled(t, states, steps, |steps|, edge)
    requires |nodes| == 2 && LearnedWith(t, states, steps, edge, nodes, lists) && ExampleLists(n, lists) && AtMost(t, edge, n)
    ensures var s := states[|steps|];
      && lost == Map(PayloadOf(s), Filter(OnZero(s), ItemsPublished(s, edge)))
      && multiset(PayloadsConsumed(s, edge) + lost) == multiset(PayloadsPublished(s, edge))
  {
    var s := states[|steps|];
    forall item | OnEdge(s, item, edge)
      ensures if OnZero(s)(item) then HeldByNone(t, states, steps, |steps|, item) else HeldOnce(t, states, steps, |steps|, item)
    {
      ExampleHolds(t, states, steps, edge, nodes, n, lists, item);
    }
    ConsumedAndLost(t, states, steps, |steps|, edge, OnZero(s));
    var run, missed := ItemsRun(s.runs, edge), Filter(OnZero(s), ItemsPublished(s, edge));
    lost := Map(PayloadOf(s), missed);
    MapPermutation(PayloadOf(s), run + missed, ItemsPublished(s, edge));
    MapConcat(PayloadOf(s), run, missed);
  }

  lemma LostItems(t: Topology, s: State, edge: Component, item: Item)
    requires Invariant(t, s)
    ensures item in Filter(OnZero(s), ItemsPublished(s, edge)) <==> OnEdge(s, item, edge) && At(s, item).partition == 0
  {
    ItemCounts(t, s, edge, item);
    FilterCount(OnZero(s), ItemsPublished(s, edge), item);
    assert item in Filter(OnZero(s), ItemsPublished(s, edge)) <==> item in multiset(Filter(OnZero(s), ItemsPublished(s, edge)));
  }

  /** The counter's map is the count of the lower-cased words of the text. */
  ghost predicate CounterIsRight(s: State, c: Endpoint, text: string)
  {
    CountsAt(s, c) == WordCount.CountFrom(map[], Map(WordCount.Lower, WordCount.Words(text)))
  }

  /**
   The example as it is wired, two splitters with its own lists and one counter: the
   final counts are right exactly when no line with a word was drawn on partition 0.
  */
  lemma ExampleIsRightExactly(t: Topology, states: seq<State>, steps: seq<Step>, lineEdge: Component, wordEdge: Component, text: string,
                              splitters: seq<NodeId>, counter: NodeId, n: Count, lists: seq<seq<Part>>)
    requires WordCountRun(t, states, steps, lineEdge, wordEdge, text)
    requires |splitters| == 2 && LearnedWith(t, states, steps, lineEdge, splitters, lists) && ExampleLists(n, lists) && AtMost(t, lineEdge, n)
    requires LearnedWith(t, states, steps, wordEdge, [counter], [[0]]) && AtMost(t, wordEdge, 1)
    ensures var s := states[|steps|];
      CounterIsRight(s, Endpoint(counter, wordEdge), text)
      <==> forall item :: OnEdge(s, item, lineEdge) && At(s, item).partition == 0 ==> WordCount.Words(At(s, item).Text()) == []
  {
    var s := states[|steps|];
    CounterHoldsWords(t, states, steps, wordEdge, counter);
    WordsArrive(t, states, steps, lineEdge, wordEdge, text);
    var lost := ExampleLines(t, states, steps, lineEdge, splitters, n, lists);
    WordCount.EndToEndWithLoss(text, PayloadsConsumed(s, lineEdge), lost, PayloadsConsumed(s, wordEdge));
    LostLines(t, states, steps, lineEdge, lost);
    InvariantHolds(t, states, steps, |steps|);
    CounterHasAll(t, s, wordEdge, counter);
  }

  lemma LostLines(t: Topology, states: seq<State>, steps: seq<Step>, edge: Component, lost: seq<string>)
    requires Execution(t, states, steps)
    requires var s := states[|steps|]; lost == Map(PayloadOf(s), Filter(OnZero(s), ItemsPublished(s, edge)))
    ensures var s := states[|steps|];
      (forall line <- lost :: WordCount.Words(line) == [])
      <==> forall item :: OnEdge(s, item, edge) && At(s, item).partition == 0 ==> WordCount.Words(At(s, item).Text()) == []
  {
    var s := states[|steps|];
    var missed := Filter(OnZero(s), ItemsPublished(s, edge));
    InvariantHolds(t, states, steps, |steps|);
    forall item ensures item in missed <==> OnEdge(s, item, edge) && At(s, item).partition == 0 {
      LostItems(t, s, edge, item);
    }
    forall item | item in missed ensures At(s, item).Text() in lost {
      var i :| 0 <= i < |missed| && missed[i] == item;
      assert lost[i] == PayloadOf(s)(item);
    }
    forall line | line in lost ensures exists item :: item in missed && At(s, item).Text() == line {
      var i :| 0 <= i < |lost| && lost[i] == line;
      assert missed[i] in missed;
    }
  }
}
