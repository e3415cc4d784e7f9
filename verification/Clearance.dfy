/**
 An execution to its end: an item is published, consumed and acknowledged, and its
 producer erases it.
*/
module Clearance {
  import opened Names
  import opened Acknowledgements
  import opened Delivery
  import opened ExactlyOnce

  /** The node of the item's producer has learned of the acknowledgement and handled it. */
  function Erased(s: State, n: Notice, item: Item): State
  {
    var noticed := WithNotice(s, n);
    noticed.(notices := noticed.notices - {n}, stored := noticed.stored - {item})
  }

  /** From a callback execution to the erasure of its item. */
  lemma AcknowledgeAndErase(t: Topology, before: seq<State>, done: seq<Step>, d: Delivery, p: Endpoint)
    returns (states: seq<State>, steps: seq<Step>)
    requires Execution(t, before, done) && p in t.producers && p.edge == d.at.edge && p.node == d.item.node && p.node != d.at.node
    requires var s := before[|done|];
      && d in s.ackDue && CanPublish(s, d.at.node) && d.item.seqNo < U64
      && (p.node, NextItem(s, d.at.node)) !in s.granted
    ensures Execution(t, states, steps)
    ensures var s := before[|done|];
      states[|steps|] == Erased(Acked(s, d), Notice(p, NextItem(s, d.at.node)), d.item)
  {
    var s := before[|done|];
    var acked, n := Acked(s, d), Notice(p, NextItem(s, d.at.node));
    ExtendExecution(t, before, done, SendAck(d), acked);
    states, steps := before + [acked], done + [SendAck(d)];
    NotifyAck(t, acked, n);
    ExtendExecution(t, states, steps, Notify(p.node, n.ack), WithNotice(acked, n));
    states, steps := states + [WithNotice(acked, n)], steps + [Notify(p.node, n.ack)];
    HandlingErases(t, acked, n, d);
    ExtendExecution(t, states, steps, HandleAck(n), Erased(acked, n, d.item));
    states, steps := states + [Erased(acked, n, d.item)], steps + [HandleAck(n)];
  }

  lemma HandlingErases(t: Topology, s: State, n: Notice, d: Delivery)
    requires Acknowledges(s, n.ack, d) && n.at.node == d.item.node && d.item.seqNo < U64
    ensures Next(t, WithNotice(s, n), HandleAck(n), Erased(s, n, d.item))
  {
    AcknowledgementRoundTrip(d.item.seqNo);
    assert Item(n.at.node, d.item.seqNo) == d.item;
  }

  /** The end of the execution below. */
  function End(c: Endpoint, p: Endpoint): State
  {
    var d := Delivery(c, Item(p.node, 1));
    Erased(Acked(Ran(WithDelivery(Offered(c, c, p), d), d), d), Notice(p, Item(c.node, 1)), d.item)
  }

  lemma ReachEnd(t: Topology, c: Endpoint, p: Endpoint) returns (states: seq<State>, steps: seq<Step>)
    requires c in t.consumers && p in t.producers && c.edge == p.edge && c.node != p.node
    ensures Execution(t, states, steps) && states[|steps|] == End(c, p)
  {
    var d := Delivery(c, Item(p.node, 1));
    states, steps := ReachOffered(t, c, c, p);
    states, steps := LearnAndRun(t, states, steps, d);
    var s := states[|steps|];
    assert NextItem(s, c.node) == Item(c.node, 1);
    states, steps := AcknowledgeAndErase(t, states, steps, d, p);
  }

  lemma EndIsComplete(t: Topology, c: Endpoint, p: Endpoint)
    requires OneForeignProducer(t) && c in t.consumers && p in t.producers && c.edge == p.edge && c.node != p.node
    ensures AllAcknowledged(t, End(c, p))
    ensures Consumed(End(c, p), Item(p.node, 1)) && Item(p.node, 1) !in End(c, p).stored
  {
    var s, d := End(c, p), Delivery(c, Item(p.node, 1));
    assert s.runs == [d];
    forall ack, q | Published(s, ack) && At(s, ack).Ack? && q in t.producers && q.edge == At(s, ack).edge && q.node != ack.node
      ensures (q.node, ack) in s.granted
    {
      assert ack == Item(c.node, 1);
      assert q == p;
    }
  }

  /**
   In every topology where stores are safe, each consumer of a producer on another
   node can consume its first item, and the item is then erased with nothing left due.
  */
  lemma ClearedExecution(t: Topology, c: Endpoint, p: Endpoint) returns (states: seq<State>, steps: seq<Step>)
    requires OneForeignProducer(t) && c in t.consumers && p in t.producers && c.edge == p.edge && c.node != p.node
    ensures Execution(t, states, steps) && AllAcknowledged(t, states[|steps|])
    ensures Consumed(states[|steps|], Item(p.node, 1)) && Item(p.node, 1) !in states[|steps|].stored
  {
    states, steps := ReachEnd(t, c, p);
    EndIsComplete(t, c, p);
  }
}
