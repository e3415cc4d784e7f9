/**
 Two executions of the word-count example on the text "a": one that loses its only
 line, and one that counts it.
*/
module WordCountRuns {
  import opened Names
  import opened Acknowledgements
  import opened Delivery
  import opened ExactlyOnce
  import opened Partitions
  import opened Stages
  import opened Pipeline
  import opened WordCountExample
  import opened Wrappers
  import WordCount
  import opened Dag

  /** The edges `t2l` and `l2w`. */
  const LINES: Component := [116, 50, 108]
  const WORDS: Component := [108, 50, 119]

  const SPLITTING: Stage := Stage(WordCount.Words, LINES, WORDS)

  const SOURCE: Endpoint := Endpoint(0, LINES)
  const FIRST: Endpoint := Endpoint(1, LINES)
  const SECOND: Endpoint := Endpoint(2, LINES)
  const COUNTER: Endpoint := Endpoint(3, WORDS)

  /** Lines on three partitions, words on one; the source on node 0, two splitters, and the counter on node 3. */
  function Deployment(app: Name): Topology
  {
    Topology(app, map[SOURCE := 3, Endpoint(1, WORDS) := 1, Endpoint(2, WORDS) := 1], {FIRST, SECOND, COUNTER})
  }

  const LISTS: seq<seq<Part>> := [[1, 3], [2]]

  lemma ListsAreTheExample()
    ensures ExampleLists(3, LISTS)
  {
    assert Counter(1, 2, 1) == 3 && Counter(1, 2, 2) == 5;
    assert Returns(3, 1, 2, LISTS[0]);
    assert Counter(2, 2, 1) == 4;
    assert Returns(3, 2, 2, LISTS[1]);
  }

  lemma DeploymentIsTheExample(app: Name)
    ensures var t := Deployment(app);
      && ConsumersAre(t, LINES, [1, 2]) && ConsumersAre(t, WORDS, [3])
      && NoSelfConsumer(t, LINES) && NoSelfConsumer(t, WORDS) && AtMost(t, LINES, 3) && AtMost(t, WORDS, 1)
  {
    assert LINES[0] != WORDS[0];
  }

  // --- The example's graph ---

  const GRAPH: seq<Node> := [
    Node("1", "text2lines", [Edge(LINES, "2", 3)]),
    Node("2", "lines2words", [Edge(WORDS, "3", 1)]),
    Node("3", "wordcount", [])]

  /** The node of the graph that each node of the network runs; two run the splitter. */
  const INSTANCES: map<NodeId, nat> := map[0 := 0, 1 := 1, 2 := 1, 3 := 2]

  lemma GraphEdges(i: nat, j: nat, id: Component)
    ensures EdgeAt(GRAPH, i, j, id) <==> j == 0 && ((i == 0 && id == LINES) || (i == 1 && id == WORDS))
    ensures LINES != WORDS
  {
    assert LINES[0] != WORDS[0];
  }

  lemma FirstToOne(edge: Edge, task: string)
    ensures FirstTo([edge], task) == if edge.target == task then Some(edge) else None
    ensures EdgesTo([edge], task) == if edge.target == task then [edge] else []
  {
    assert [edge][1..] == [];
  }

  /** Who consumes what: each edge's target does, and nobody else. */
  lemma GraphConsumers(i: nat, id: Component)
    requires i < 3
    ensures id in ConsumedIds(GRAPH, GRAPH[i].task) <==> (i == 1 && id == LINES) || (i == 2 && id == WORDS)
    ensures OneEdgeTo(GRAPH, GRAPH[i].task)
  {
    var task := GRAPH[i].task;
    FirstToOne(Edge(LINES, "2", 3), task);
    FirstToOne(Edge(WORDS, "3", 1), task);
    assert FirstTo(GRAPH[2].downstream, task) == None;
    assert "1"[0] != "2"[0] && "2"[0] != "3"[0] && "1"[0] != "3"[0];
    ConsumedIdsAreFirstEdges(GRAPH, task, id);
    assert FirstEdgeIs(GRAPH, 0, task, id) <==> i == 1 && id == LINES;
    assert FirstEdgeIs(GRAPH, 1, task, id) <==> i == 2 && id == WORDS;
    assert !FirstEdgeIs(GRAPH, 2, task, id);
  }

  lemma GraphHasUniqueIds()
    ensures UniqueIds(GRAPH)
  {
    forall i: nat, j: nat, k: nat, l: nat, id | EdgeAt(GRAPH, i, j, id) && EdgeAt(GRAPH, k, l, id) ensures i == k && j == l {
      GraphEdges(i, j, id);
      GraphEdges(k, l, id);
    }
  }

  lemma DeployedConsumer(app: Name, e: Endpoint)
    ensures e in Deployment(app).consumers <==>
      e.node in INSTANCES && e.edge in ConsumedIds(GRAPH, GRAPH[INSTANCES[e.node]].task)
  {
    if e.node in INSTANCES {
      GraphConsumers(INSTANCES[e.node], e.edge);
    }
  }

  lemma DeployedProducer(app: Name, e: Endpoint)
    ensures e in Deployment(app).producers <==> e.node in INSTANCES && HasEdge(GRAPH, INSTANCES[e.node], e.edge)
  {
    if e.node in INSTANCES {
      GraphProducers(INSTANCES[e.node], e.edge);
    }
  }

  lemma ConsumersDeployed(app: Name)
    ensures forall n <- INSTANCES :: INSTANCES[n] < |GRAPH|
    ensures forall e: Endpoint :: e in Deployment(app).consumers <==>
      e.node in INSTANCES && e.edge in ConsumedIds(GRAPH, GRAPH[INSTANCES[e.node]].task)
  {
    forall e: Endpoint ensures e in Deployment(app).consumers <==>
      e.node in INSTANCES && e.edge in ConsumedIds(GRAPH, GRAPH[INSTANCES[e.node]].task)
    {
      DeployedConsumer(app, e);
    }
  }

  lemma ProducersDeployed(app: Name)
    ensures forall e: Endpoint :: e in Deployment(app).producers <==> e.node in INSTANCES && HasEdge(GRAPH, INSTANCES[e.node], e.edge)
  {
    forall e: Endpoint ensures e in Deployment(app).producers <==> e.node in INSTANCES && HasEdge(GRAPH, INSTANCES[e.node], e.edge) {
      DeployedProducer(app, e);
    }
  }

  lemma DeployedFrom(t: Topology, nodes: seq<Node>, instances: map<NodeId, nat>)
    requires forall n <- instances :: instances[n] < |nodes|
    requires forall e: Endpoint :: e in t.consumers <==>
      e.node in instances && e.edge in ConsumedIds(nodes, nodes[instances[e.node]].task)
    requires forall e: Endpoint :: e in t.producers <==> e.node in instances && HasEdge(nodes, instances[e.node], e.edge)
    ensures Deployed(t, nodes, instances)
  {
  }

  /** The deployment is what wiring the graph gives, with two instances of the splitter. */
  lemma GraphIsDeployed(app: Name)
    ensures UniqueIds(GRAPH) && Deployed(Deployment(app), GRAPH, INSTANCES)
  {
    GraphHasUniqueIds();
    ConsumersDeployed(app);
    ProducersDeployed(app);
    DeployedFrom(Deployment(app), GRAPH, INSTANCES);
  }

  lemma GraphProducers(i: nat, id: Component)
    ensures HasEdge(GRAPH, i, id) <==> (i == 0 && id == LINES) || (i == 1 && id == WORDS)
  {
    GraphEdges(i, 0, id);
    forall j: nat | EdgeAt(GRAPH, i, j, id) ensures j == 0 {
      GraphEdges(i, j, id);
    }
  }

  /** So the example's acknowledgements are not safe: the counter hears of both splitters. */
  lemma ExampleIsUnsafe(app: Name)
    ensures !AlwaysSafe(Deployment(app))
  {
    GraphIsDeployed(app);
    SafeExactlyWhenNotScaledOut(Deployment(app), GRAPH, INSTANCES);
    GraphProducers(1, WORDS);
    assert HearsFrom(Deployment(app), GRAPH, INSTANCES, COUNTER, 1);
    assert HearsFrom(Deployment(app), GRAPH, INSTANCES, COUNTER, 2);
  }

  // --- Building an execution step by step ---

  ghost predicate Assigned(s: State)
  {
    Parts(s, FIRST) == [1, 3] && Parts(s, SECOND) == [2] && Parts(s, COUNTER) == [0]
  }

  /** What the theorem about the example asks of an execution, except for its end. */
  ghost predicate SoFar(t: Topology, states: seq<State>, steps: seq<Step>)
  {
    && Execution(t, states, steps)
    && LearnedWith(t, states, steps, LINES, [1, 2], LISTS) && LearnedWith(t, states, steps, WORDS, [3], [[0]])
    && (forall j: nat :: j < |steps| ==> PaysAt(SPLITTING, states, steps, j))
    && Heard(states, steps)
  }

  /** Nothing is handed to a consumer without a callback. */
  ghost predicate Heard(states: seq<State>, steps: seq<Step>)
    requires |steps| < |states|
  {
    forall j :: 0 <= j < |steps| && steps[j].RunCallback? ==> steps[j].delivery.at in states[j].callbacks
  }

  lemma HeardOn(states: seq<State>, steps: seq<Step>, step: Step, s': State)
    requires |states| == |steps| + 1 && Heard(states, steps)
    requires step.RunCallback? ==> step.delivery.at in states[|steps|].callbacks
    ensures Heard(states + [s'], steps + [step])
  {
  }

  lemma {:induction false} OwedInFront(stage: Stage, states: seq<State>, steps: seq<Step>, s': State, step: Step, j: nat)
    requires |states| == |steps| + 1 && j <= |steps|
    ensures Owed(stage, states + [s'], steps + [step], j) == Owed(stage, states, steps, j)
  {
    if j > 0 {
      OwedInFront(stage, states, steps, s', step, j - 1);
    }
  }

  lemma LearnedOn(t: Topology, states: seq<State>, steps: seq<Step>, step: Step, s': State,
                  edge: Component, nodes: seq<NodeId>, lists: seq<seq<Part>>)
    requires |states| == |steps| + 1 && LearnedWith(t, states, steps, edge, nodes, lists)
    requires step.Notify? ==>
      forall k: nat :: k < |nodes| ==> Parts(states[|steps|], ConsumerOn(edge, nodes, k)) == lists[k]
    ensures LearnedWith(t, states + [s'], steps + [step], edge, nodes, lists)
  {
    var more, next := states + [s'], steps + [step];
    forall i: nat, k: nat, item | k < |nodes| && Meets(t, more, next, i, ConsumerOn(edge, nodes, k), item)
      ensures Parts(more[i], ConsumerOn(edge, nodes, k)) == lists[k]
    {
      if i < |steps| {
        assert Meets(t, states, steps, i, ConsumerOn(edge, nodes, k), item);
      }
    }
  }

  lemma PaysOn(states: seq<State>, steps: seq<Step>, step: Step, s': State)
    requires |states| == |steps| + 1 && forall j: nat :: j < |steps| ==> PaysAt(SPLITTING, states, steps, j)
    requires Pays(SPLITTING, step, Owed(SPLITTING, states, steps, |steps|))
    ensures forall j: nat :: j < |steps| + 1 ==> PaysAt(SPLITTING, states + [s'], steps + [step], j)
    ensures Owed(SPLITTING, states + [s'], steps + [step], |steps| + 1)
         == OwedAfter(SPLITTING, states[|steps|], step, Owed(SPLITTING, states, steps, |steps|))
  {
    forall j: nat | j < |steps| + 1 ensures PaysAt(SPLITTING, states + [s'], steps + [step], j) {
      OwedInFront(SPLITTING, states, steps, s', step, j);
      assert j < |steps| ==> PaysAt(SPLITTING, states, steps, j);
    }
    OwedInFront(SPLITTING, states, steps, s', step, |steps|);
  }

  lemma LinesOn(t: Topology, states: seq<State>, steps: seq<Step>, step: Step, s': State)
    requires Execution(t, states, steps) && Next(t, states[|steps|], step, s')
    ensures PayloadsPublished(s', LINES) == PayloadsPublished(states[|steps|], LINES) + NewlyPushed(LINES, step)
  {
    InvariantHolds(t, states, steps, |steps|);
    PublishedStep(t, states[|steps|], step, s', LINES);
  }

  /** The execution of one step more. */
  lemma Go(t: Topology, states: seq<State>, steps: seq<Step>, step: Step, s': State)
    requires SoFar(t, states, steps) && Next(t, states[|steps|], step, s')
    requires step.Notify? ==> Assigned(states[|steps|])
    requires step.RunCallback? ==> step.delivery.at in states[|steps|].callbacks
    requires Pays(SPLITTING, step, Owed(SPLITTING, states, steps, |steps|))
    ensures SoFar(t, states + [s'], steps + [step])
    ensures Owed(SPLITTING, states + [s'], steps + [step], |steps| + 1)
         == OwedAfter(SPLITTING, states[|steps|], step, Owed(SPLITTING, states, steps, |steps|))
    ensures PayloadsPublished(s', LINES) == PayloadsPublished(states[|steps|], LINES) + NewlyPushed(LINES, step)
  {
    ExtendExecution(t, states, steps, step, s');
    LearnedOn(t, states, steps, step, s', LINES, [1, 2], LISTS);
    LearnedOn(t, states, steps, step, s', WORDS, [3], [[0]]);
    PaysOn(states, steps, step, s');
    HeardOn(states, steps, step, s');
    LinesOn(t, states, steps, step, s');
  }

  /** An execution so far, by the state it ends in, what the splitters owe, and the lines published. */
  ghost predicate Reached(t: Topology, s: State, owed: seq<Duty>, lines: seq<string>)
  {
    exists states, steps :: ReachedBy(t, states, steps, s, owed, lines)
  }

  ghost predicate ReachedBy(t: Topology, states: seq<State>, steps: seq<Step>, s: State, owed: seq<Duty>, lines: seq<string>)
  {
    && SoFar(t, states, steps) && states[|steps|] == s
    && Owed(SPLITTING, states, steps, |steps|) == owed && PayloadsPublished(s, LINES) == lines
  }

  lemma GoOn(t: Topology, s: State, owed: seq<Duty>, lines: seq<string>, step: Step, s': State)
    requires Reached(t, s, owed, lines) && Next(t, s, step, s')
    requires step.Notify? ==> Assigned(s)
    requires step.RunCallback? ==> step.delivery.at in s.callbacks
    requires Pays(SPLITTING, step, owed)
    ensures Reached(t, s', OwedAfter(SPLITTING, s, step, owed), lines + NewlyPushed(LINES, step))
  {
    var states, steps :| ReachedBy(t, states, steps, s, owed, lines);
    Go(t, states, steps, step, s');
    assert ReachedBy(t, states + [s'], steps + [step], s', OwedAfter(SPLITTING, s, step, owed), lines + NewlyPushed(LINES, step));
  }

  /** A step that neither runs a callback nor publishes data. */
  lemma GoQuietly(t: Topology, s: State, owed: seq<Duty>, lines: seq<string>, step: Step, s': State)
    requires Reached(t, s, owed, lines) && Next(t, s, step, s') && (step.Notify? ==> Assigned(s))
    requires !step.RunCallback? && !step.Publish?
    ensures Reached(t, s', owed, lines)
  {
    GoOn(t, s, owed, lines, step, s');
    assert lines + [] == lines;
  }

  /** Callbacks set and lists handed out. */
  function Ready(): State
  {
    Init().(callbacks := {FIRST, SECOND, COUNTER}, partitions := map[FIRST := [1, 3], SECOND := [2], COUNTER := [0]])
  }

  lemma ReachInit(app: Name)
    ensures Reached(Deployment(app), Init(), [], [])
  {
    DeploymentIsTheExample(app);
    assert PayloadsPublished(Init(), LINES) == [];
    assert ReachedBy(Deployment(app), [Init()], [], Init(), [], []);
  }

  lemma ReachCallbacks(app: Name)
    ensures Reached(Deployment(app), Init().(callbacks := {FIRST, SECOND, COUNTER}), [], [])
  {
    var t := Deployment(app);
    ReachInit(app);
    var s1 := Init().(callbacks := {FIRST});
    var s2 := Init().(callbacks := {FIRST, SECOND});
    var s3 := Init().(callbacks := {FIRST, SECOND, COUNTER});
    GoQuietly(t, Init(), [], [], SetCallback(FIRST), s1);
    assert s2.callbacks == s1.callbacks + {SECOND};
    GoQuietly(t, s1, [], [], SetCallback(SECOND), s2);
    assert s3.callbacks == s2.callbacks + {COUNTER};
    GoQuietly(t, s2, [], [], SetCallback(COUNTER), s3);
  }

  lemma ReachReady(app: Name)
    ensures Reached(Deployment(app), Ready(), [], [])
  {
    var t := Deployment(app);
    ReachCallbacks(app);
    var s3 := Init().(callbacks := {FIRST, SECOND, COUNTER});
    var s4 := s3.(partitions := map[FIRST := [1, 3]]);
    var s5 := s3.(partitions := map[FIRST := [1, 3], SECOND := [2]]);
    GoQuietly(t, s3, [], [], Repartition(FIRST, [1, 3]), s4);
    GoQuietly(t, s4, [], [], Repartition(SECOND, [2]), s5);
    GoQuietly(t, s5, [], [], Repartition(COUNTER, [0]), Ready());
  }

  const LINE: Item := Item(0, 1)

  /** The source has published the line, drawing a partition. */
  function Drawn(partition: Part): State
  {
    PublishAt(Ready(), 0, Data(LINES, partition, "a"))
  }

  lemma DrawnIsStep(app: Name, draw: nat)
    requires draw < 3
    ensures Next(Deployment(app), Ready(), Publish(SOURCE, draw, "a"), Drawn(draw))
  {
    assert draw % 3 == draw;
    assert CanPublish(Ready(), 0);
  }

  /** The edges differ, so that the source's publication is none of the splitters'. */
  lemma SourceIsNoSplitter(draw: nat)
    ensures LINES != WORDS && !Pushes(WORDS, Publish(SOURCE, draw, "a"))
    ensures NewlyPushed(LINES, Publish(SOURCE, draw, "a")) == ["a"]
  {
    assert LINES[0] != WORDS[0];
  }

  lemma ReachDrawn(app: Name, draw: nat)
    requires draw < 3
    ensures Reached(Deployment(app), Drawn(draw), [], ["a"])
  {
    ReachReady(app);
    DrawnIsStep(app, draw);
    SourceIsNoSplitter(draw);
    GoOn(Deployment(app), Ready(), [], [], Publish(SOURCE, draw, "a"), Drawn(draw));
    assert [] + ["a"] == ["a"];
  }

  /** The text has one line, and the line one word. */
  lemma TheText()
    ensures WordCount.Lines("a") == ["a"] && WordCount.Words("a") == ["a"]
  {
    WordCount.WordAlone("a");
    WordCount.JoinedSplit(["a"]);
    WordCount.LinesCons("a", "");
    WordCount.LineEndIs("a", 0, 1);
    WordCount.NextLine("a", 0, 1, 1);
    assert "a"[0..1] == "a";
  }

  /** Both edges have settled in the state: every item on them has arrived. */
  ghost predicate AllArrived(t: Topology, s: State)
  {
    forall item :: OnEdge(s, item, LINES) || OnEdge(s, item, WORDS) ==> Arrived(t, s, item)
  }

  /** An execution to this state meets all hypotheses of the theorem about the example. */
  ghost predicate ExampleRun(t: Topology, states: seq<State>, steps: seq<Step>)
  {
    && WordCountRun(t, states, steps, LINES, WORDS, "a")
    && LearnedWith(t, states, steps, LINES, [1, 2], LISTS) && ExampleLists(3, LISTS) && AtMost(t, LINES, 3)
    && LearnedWith(t, states, steps, WORDS, [3], [[0]]) && AtMost(t, WORDS, 1)
  }

  lemma Conclude(app: Name, s: State) returns (states: seq<State>, steps: seq<Step>)
    requires Reached(Deployment(app), s, [], ["a"]) && AllArrived(Deployment(app), s)
    ensures ExampleRun(Deployment(app), states, steps) && states[|steps|] == s
  {
    states, steps :| ReachedBy(Deployment(app), states, steps, s, [], ["a"]);
    TheText();
    ListsAreTheExample();
    DeploymentIsTheExample(app);
  }

  // --- The line is lost ---

  function Missed(): State
  {
    WithoutGrant(WithoutGrant(Drawn(0), 1, LINE), 2, LINE)
  }

  /** A splitter's node learns of the line, whose partition its list does not have. */
  lemma ReachMissedBy(app: Name, s: State, splitter: Endpoint)
    requires Reached(Deployment(app), s, [], ["a"]) && Assigned(s) && (splitter == FIRST || splitter == SECOND)
    requires OnEdge(s, LINE, LINES) && At(s, LINE).partition !in Parts(s, splitter) && (splitter.node, LINE) !in s.granted
    ensures Reached(Deployment(app), WithoutGrant(s, splitter.node, LINE), [], ["a"])
  {
    NotifyNone(Deployment(app), s, splitter, LINE);
    GoQuietly(Deployment(app), s, [], ["a"], Notify(splitter.node, LINE), WithoutGrant(s, splitter.node, LINE));
  }

  lemma ReachMissed(app: Name)
    ensures Reached(Deployment(app), Missed(), [], ["a"])
  {
    ReachDrawn(app, 0);
    ReachMissedBy(app, Drawn(0), FIRST);
    ReachMissedBy(app, WithoutGrant(Drawn(0), 1, LINE), SECOND);
  }

  lemma MissedIsSettled(app: Name)
    ensures AllArrived(Deployment(app), Missed())
    ensures OnEdge(Missed(), LINE, LINES) && At(Missed(), LINE).partition == 0 && At(Missed(), LINE).Text() == "a"
  {
  }

  /**
   The line is drawn on partition 0, both splitters' nodes learn of it, and that is all
   that ever happens: the counter stays empty.
  */
  lemma ExampleLosesLine(app: Name) returns (states: seq<State>, steps: seq<Step>)
    ensures ExampleRun(Deployment(app), states, steps) && !CounterIsRight(states[|steps|], COUNTER, "a")
  {
    ReachMissed(app);
    MissedIsSettled(app);
    states, steps := Conclude(app, Missed());
    ExampleIsRightExactly(Deployment(app), states, steps, LINES, WORDS, "a", [1, 2], 3, 3, LISTS);
    TheText();
  }

  // --- The line is counted ---

  const WORD: Item := Item(2, 1)

  /** The second splitter has been handed the line and has published its word. */
  function Split(): State
  {
    var d := Delivery(SECOND, LINE);
    PublishAt(Ran(WithDelivery(Drawn(2), d), d), 2, Data(WORDS, 0, "a"))
  }

  lemma ReachLearned(app: Name)
    ensures Reached(Deployment(app), WithDelivery(Drawn(2), Delivery(SECOND, LINE)), [], ["a"])
  {
    var d := Delivery(SECOND, LINE);
    ReachDrawn(app, 2);
    NotifyOne(Deployment(app), Drawn(2), d, 2);
    GoQuietly(Deployment(app), Drawn(2), [], ["a"], Notify(2, LINE), WithDelivery(Drawn(2), d));
  }

  lemma ReachSplit(app: Name)
    ensures Reached(Deployment(app), Split(), [], ["a"])
  {
    var d := Delivery(SECOND, LINE);
    var s := WithDelivery(Drawn(2), d);
    ReachLearned(app);
    ReachRan(app, s, d);
    ReachPaid(app, Ran(s, d));
  }

  lemma ReachPaid(app: Name, s: State)
    requires Reached(Deployment(app), s, [Duty(2, "a")], ["a"]) && CanPublish(s, 2)
    ensures Reached(Deployment(app), PublishAt(s, 2, Data(WORDS, 0, "a")), [], ["a"])
  {
    var step, s' := Publish(Endpoint(2, WORDS), 0, "a"), PublishAt(s, 2, Data(WORDS, 0, "a"));
    OneDuty();
    SourceIsNoSplitter(0);
    assert Next(Deployment(app), s, step, s');
    GoOn(Deployment(app), s, [Duty(2, "a")], ["a"], step, s');
    assert ["a"] + [] == ["a"];
  }

  lemma ReachRan(app: Name, s: State, d: Delivery)
    requires d == Delivery(SECOND, LINE) && s == WithDelivery(Drawn(2), d) && Reached(Deployment(app), s, [], ["a"])
    ensures Reached(Deployment(app), Ran(s, d), [Duty(2, "a")], ["a"])
  {
    TheText();
    GoOn(Deployment(app), s, [], ["a"], RunCallback(d), Ran(s, d));
    assert PayloadOf(s)(LINE) == "a";
    assert Duties(2, ["a"]) == [Duty(2, "a")];
    assert [] + [Duty(2, "a")] == [Duty(2, "a")] && ["a"] + [] == ["a"];
  }

  /** The only duty is the first one, and nothing is left without it. */
  lemma OneDuty()
    ensures var owed := [Duty(2, "a")]; FirstDuty(owed, 2) == 0 && owed[..0] + owed[1..] == []
  {
  }

  /** The line is acknowledged. */
  function Acknowledged(): State
  {
    PublishAt(Split().(ackDue := multiset{}), 2, Ack(LINES, Dump(1)))
  }

  lemma AcknowledgedIsStep(app: Name)
    ensures Next(Deployment(app), Split(), SendAck(Delivery(SECOND, LINE)), Acknowledged())
  {
    var d := Delivery(SECOND, LINE);
    assert Split().ackDue == multiset{d};
    assert multiset{d} - multiset{d} == multiset{};
  }

  /** The first splitter's node has learned of the line, in vain, and the counter has been handed the word. */
  function Counted(): State
  {
    var word := Delivery(COUNTER, WORD);
    Ran(WithDelivery(WithoutGrant(Acknowledged(), 1, LINE), word), word)
  }

  lemma SplitIs()
    ensures var s := Split();
      && s.log == map[0 := [Data(LINES, 2, "a")], 2 := [Data(WORDS, 0, "a")]]
      && s.granted == map[(2, LINE) := 1] && s.pending == multiset{}
      && s.callbacks == Ready().callbacks && s.partitions == Ready().partitions
  {
    assert Drawn(2).log == map[0 := [Data(LINES, 2, "a")]] by {
      assert [] + [Data(LINES, 2, "a")] == [Data(LINES, 2, "a")];
    }
    assert [] + [Data(WORDS, 0, "a")] == [Data(WORDS, 0, "a")];
  }

  /** Every item there is in the end. */
  ghost predicate HasAll(s: State)
  {
    && s.log == map[0 := [Data(LINES, 2, "a")], 2 := [Data(WORDS, 0, "a"), Ack(LINES, Dump(1))]]
    && s.pending == multiset{}
  }

  lemma AcknowledgedIs()
    ensures var s := Acknowledged();
      HasAll(s) && s.granted == map[(2, LINE) := 1] && COUNTER in s.callbacks && Assigned(s)
  {
    SplitIs();
    assert [Data(WORDS, 0, "a")] + [Ack(LINES, Dump(1))] == [Data(WORDS, 0, "a"), Ack(LINES, Dump(1))];
  }

  lemma ReachAcknowledged(app: Name)
    ensures Reached(Deployment(app), Acknowledged(), [], ["a"])
  {
    ReachSplit(app);
    AcknowledgedIsStep(app);
    GoQuietly(Deployment(app), Split(), [], ["a"], SendAck(Delivery(SECOND, LINE)), Acknowledged());
  }

  lemma ReachEnd(app: Name, s: State)
    requires Reached(Deployment(app), s, [], ["a"]) && HasAll(s) && Assigned(s)
    requires s.granted == map[(2, LINE) := 1] && COUNTER in s.callbacks
    ensures var word := Delivery(COUNTER, WORD);
      Reached(Deployment(app), Ran(WithDelivery(WithoutGrant(s, 1, LINE), word), word), [], ["a"])
  {
    ItemsOf(s);
    ReachMissedBy(app, s, FIRST);
    ReachCounter(app, WithoutGrant(s, 1, LINE), Delivery(COUNTER, WORD));
  }

  lemma ReachCounted(app: Name)
    ensures Reached(Deployment(app), Counted(), [], ["a"])
  {
    ReachAcknowledged(app);
    AcknowledgedIs();
    ReachEnd(app, Acknowledged());
  }

  lemma ReachCounter(app: Name, s: State, word: Delivery)
    requires Reached(Deployment(app), s, [], ["a"]) && word == Delivery(COUNTER, WORD)
    requires OnEdge(s, WORD, WORDS) && At(s, WORD).partition == 0 && (3, WORD) !in s.granted
    requires COUNTER in s.callbacks && Assigned(s)
    ensures Reached(Deployment(app), Ran(WithDelivery(s, word), word), [], ["a"])
  {
    var t, s' := Deployment(app), WithDelivery(s, word);
    NotifyOne(t, s, word, 0);
    GoQuietly(t, s, [], ["a"], Notify(3, WORD), s');
    SourceIsNoSplitter(0);
    GoOn(t, s', [], ["a"], RunCallback(word), Ran(s', word));
    assert ["a"] + [] == ["a"];
  }

  lemma CountedIs()
    ensures HasAll(Counted()) && Counted().granted == map[(2, LINE) := 1, (1, LINE) := 0, (3, WORD) := 1]
  {
    AcknowledgedIs();
  }

  lemma CountedIsSettled(app: Name)
    ensures AllArrived(Deployment(app), Counted())
    ensures forall item :: OnEdge(Counted(), item, LINES) ==> At(Counted(), item).partition == 2
  {
    CountedIs();
    ItemsOf(Counted());
    SettledBy(app, Counted());
  }

  lemma SettledBy(app: Name, s: State)
    requires HasAll(s) && s.granted == map[(2, LINE) := 1, (1, LINE) := 0, (3, WORD) := 1]
    ensures AllArrived(Deployment(app), s)
  {
    ItemsOf(s);
    SourceIsNoSplitter(0);
  }

  lemma ItemsOf(s: State)
    requires HasAll(s)
    ensures forall item :: OnEdge(s, item, LINES) <==> item == LINE
    ensures forall item :: OnEdge(s, item, WORDS) <==> item == WORD
    ensures At(s, LINE).partition == 2 && At(s, WORD).partition == 0
  {
    SourceIsNoSplitter(0);
  }

  /** With the line drawn on partition 2 instead, it is split and its word counted. */
  lemma ExampleCountsLine(app: Name) returns (states: seq<State>, steps: seq<Step>)
    ensures ExampleRun(Deployment(app), states, steps) && CounterIsRight(states[|steps|], COUNTER, "a")
  {
    ReachCounted(app);
    CountedIsSettled(app);
    states, steps := Conclude(app, Counted());
    ExampleIsRightExactly(Deployment(app), states, steps, LINES, WORDS, "a", [1, 2], 3, 3, LISTS);
  }
}
