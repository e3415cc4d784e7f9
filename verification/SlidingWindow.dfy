/**
 The sliding window behind the consumption statistics, as the code prunes it and
 as its one-second limit is evidently meant. Times are in nanoseconds.
*/
module SlidingWindow {
  const MAX_AGE: int := 1_000_000_000

  datatype Variant = AsWritten | AsIntended

  /** The code subtracts the reference time from the timestamp, not the other way round. */
  function Age(variant: Variant, timestamp: int, reference: int): int
  {
    if variant.AsWritten? then timestamp - reference else reference - timestamp
  }

  /** Timestamps are dropped from the front until one is young enough. */
  function Pruned(variant: Variant, timestamps: seq<int>, reference: int): seq<int>
  {
    if timestamps == [] || Age(variant, timestamps[0], reference) <= MAX_AGE then timestamps
    else Pruned(variant, timestamps[1..], reference)
  }

  /**
   As written, exactly the front timestamps more than a second after the reference
   time are dropped; as intended, those more than a second before it.
  */
  lemma {:induction false} PrunedIs(variant: Variant, timestamps: seq<int>, reference: int) returns (k: nat)
    ensures k <= |timestamps| && Pruned(variant, timestamps, reference) == timestamps[k..]
    ensures forall i :: 0 <= i < k ==>
      if variant.AsWritten? then timestamps[i] > reference + 1_000_000_000 else timestamps[i] < reference - 1_000_000_000
    ensures k < |timestamps| ==>
      if variant.AsWritten? then timestamps[k] <= reference + 1_000_000_000 else timestamps[k] >= reference - 1_000_000_000
  {
    if timestamps == [] || Age(variant, timestamps[0], reference) <= MAX_AGE {
      k := 0;
    } else {
      k := PrunedIs(variant, timestamps[1..], reference);
      k := k + 1;
    }
  }

  /** A consumption is saved, or the statistics are queried, at some clock reading. */
  datatype Event = Save(at: int) | Query(at: int)

  function Window(variant: Variant, events: seq<Event>): seq<int>
  {
    if events == [] then []
    else
      var before, last := Window(variant, events[..|events| - 1]), events[|events| - 1];
      Pruned(variant, if last.Save? then before + [last.at] else before, last.at)
  }

  /** Every consumption there has been. */
  function History(events: seq<Event>): seq<int>
  {
    if events == [] then []
    else
      var before, last := History(events[..|events| - 1]), events[|events| - 1];
      if last.Save? then before + [last.at] else before
  }

  /** What each event does: a consumption is recorded, and the front is pruned as of the event's time. */
  lemma NextEvent(variant: Variant, events: seq<Event>, at: int)
    ensures Window(variant, []) == [] && History([]) == []
    ensures Window(variant, events + [Save(at)]) == Pruned(variant, Window(variant, events) + [at], at)
    ensures Window(variant, events + [Query(at)]) == Pruned(variant, Window(variant, events), at)
    ensures History(events + [Save(at)]) == History(events) + [at] && History(events + [Query(at)]) == History(events)
  {
    assert (events + [Save(at)])[..|events|] == events && (events + [Query(at)])[..|events|] == events;
  }

  /** The consumptions at most `MAX_AGE` before the reference time. */
  function Recent(timestamps: seq<int>, reference: int): seq<int>
  {
    if timestamps == [] then []
    else
      var last := timestamps[|timestamps| - 1];
      Recent(timestamps[..|timestamps| - 1], reference) + if reference - last <= MAX_AGE then [last] else []
  }

  /** The recent ones are those of the last second, each as often as it was recorded. */
  lemma {:induction false} RecentCount(timestamps: seq<int>, reference: int, t: int)
    ensures multiset(Recent(timestamps, reference))[t] == if t >= reference - 1_000_000_000 then multiset(timestamps)[t] else 0
  {
    if timestamps != [] {
      assert timestamps == timestamps[..|timestamps| - 1] + [timestamps[|timestamps| - 1]];
      RecentCount(timestamps[..|timestamps| - 1], reference, t);
    }
  }

  ghost predicate Monotone(events: seq<Event>)
  {
    forall i, j :: 0 <= i <= j < |events| ==> events[i].at <= events[j].at
  }

  ghost predicate Sorted(timestamps: seq<int>)
  {
    forall i, j :: 0 <= i <= j < |timestamps| ==> timestamps[i] <= timestamps[j]
  }

  lemma SortedAppend(timestamps: seq<int>, x: int)
    requires Sorted(timestamps) && forall t <- timestamps :: t <= x
    ensures Sorted(timestamps + [x])
  {
    forall i, j | 0 <= i <= j < |timestamps| + 1
      ensures (timestamps + [x])[i] <= (timestamps + [x])[j]
    {
      assert i < |timestamps| ==> timestamps[i] in timestamps;
    }
  }

  lemma {:induction false} HistorySorted(events: seq<Event>)
    requires Monotone(events)
    ensures Sorted(History(events))
    ensures forall t <- History(events) :: t <= events[|events| - 1].at
  {
    if events != [] {
      var front, last := events[..|events| - 1], events[|events| - 1];
      HistorySorted(front);
      if front != [] {
        assert front[|front| - 1].at <= last.at;
      }
      SortedAppend(History(front), last.at);
    }
  }

  lemma {:induction false} RecentYoung(timestamps: seq<int>, reference: int)
    ensures |Recent(timestamps, reference)| <= |timestamps|
    ensures forall t <- Recent(timestamps, reference) :: t in timestamps && reference - t <= MAX_AGE
    ensures (forall t <- timestamps :: reference - t <= MAX_AGE) ==> Recent(timestamps, reference) == timestamps
    ensures |Recent(timestamps, reference)| == |timestamps| ==> Recent(timestamps, reference) == timestamps
  {
    if timestamps != [] {
      var front, last := timestamps[..|timestamps| - 1], timestamps[|timestamps| - 1];
      assert timestamps == front + [last];
      assert forall t <- front :: t in timestamps;
      assert last in timestamps;
      RecentYoung(front, reference);
    }
  }

  lemma {:induction false} RecentSorted(timestamps: seq<int>, reference: int)
    requires Sorted(timestamps)
    ensures Sorted(Recent(timestamps, reference))
  {
    if timestamps != [] {
      var front, last := timestamps[..|timestamps| - 1], timestamps[|timestamps| - 1];
      RecentSorted(front, reference);
      RecentYoung(front, reference);
      SortedAppend(Recent(front, reference), last);
    }
  }

  lemma {:induction false} RecentOfRecent(timestamps: seq<int>, earlier: int, later: int)
    requires earlier <= later
    ensures Recent(Recent(timestamps, earlier), later) == Recent(timestamps, later)
  {
    if timestamps != [] {
      var front, last := timestamps[..|timestamps| - 1], timestamps[|timestamps| - 1];
      RecentOfRecent(front, earlier, later);
      if earlier - last <= MAX_AGE {
        assert Recent(timestamps, earlier)[..|Recent(front, earlier)|] == Recent(front, earlier);
      } else {
        assert Recent(timestamps, earlier) == Recent(front, earlier);
      }
    }
  }

  /** On a sorted deque, dropping from the front is filtering. */
  lemma {:induction false} PruningFilters(timestamps: seq<int>, reference: int)
    requires Sorted(timestamps)
    ensures Pruned(AsIntended, timestamps, reference) == Recent(timestamps, reference)
  {
    if timestamps == [] || reference - timestamps[0] <= MAX_AGE {
      RecentYoung(timestamps, reference);
    } else {
      PruningFilters(timestamps[1..], reference);
      DropOld(timestamps, reference);
    }
  }

  lemma {:induction false} DropOld(timestamps: seq<int>, reference: int)
    requires timestamps != [] && reference - timestamps[0] > MAX_AGE
    ensures Recent(timestamps, reference) == Recent(timestamps[1..], reference)
  {
    if |timestamps| > 1 {
      var front := timestamps[..|timestamps| - 1];
      DropOld(front, reference);
      assert timestamps[1..][..|timestamps| - 2] == front[1..];
    } else {
      assert timestamps[..0] == [];
    }
  }

  /**
   As intended: with a monotone clock, the deque is sorted after every event and is
   exactly the filter of the whole history, so the reported units are right.
  */
  lemma {:induction false} IntendedWindowIsFilter(events: seq<Event>)
    requires Monotone(events) && events != []
    ensures Window(AsIntended, events) == Recent(History(events), events[|events| - 1].at)
    ensures Sorted(Window(AsIntended, events))
  {
    var front, last := events[..|events| - 1], events[|events| - 1];
    HistorySorted(events);
    RecentSorted(History(events), last.at);
    if front == [] {
      OneWindow(last);
    } else {
      IntendedWindowIsFilter(front);
      HistorySorted(front);
      NextWindow(History(front), front[|front| - 1].at, last);
    }
  }

  lemma OneWindow(event: Event)
    ensures var saved := if event.Save? then [event.at] else [];
      Pruned(AsIntended, saved, event.at) == Recent(saved, event.at)
  {
    PruningFilters(if event.Save? then [event.at] else [], event.at);
  }

  /** One more event on top of a window that is the filter of its history. */
  lemma NextWindow(history: seq<int>, earlier: int, event: Event)
    requires Sorted(history) && earlier <= event.at && forall t <- history :: t <= event.at
    ensures var before := Recent(history, earlier);
      Pruned(AsIntended, if event.Save? then before + [event.at] else before, event.at)
      == Recent(if event.Save? then history + [event.at] else history, event.at)
  {
    var before := Recent(history, earlier);
    RecentSorted(history, earlier);
    RecentYoung(history, earlier);
    RecentOfRecent(history, earlier, event.at);
    if event.Save? {
      SortedAppend(before, event.at);
      PruningFilters(before + [event.at], event.at);
      assert (before + [event.at])[..|before|] == before && (history + [event.at])[..|history|] == history;
    } else {
      PruningFilters(before, event.at);
    }
  }

  /** As written: with a monotone clock nothing is ever pruned, the window is the whole history. */
  lemma {:induction false} WrittenWindowIsHistory(events: seq<Event>)
    requires Monotone(events)
    ensures Window(AsWritten, events) == History(events)
  {
    if events != [] {
      WrittenWindowIsHistory(events[..|events| - 1]);
      HistorySorted(events);
      assert History(events) != [] ==> History(events)[0] in History(events);
    }
  }

  /** So the reported units are right exactly while no consumption is older than the limit. */
  lemma WrittenUnitsAreRight(events: seq<Event>)
    requires Monotone(events) && events != []
    ensures |Window(AsWritten, events)| == |Window(AsIntended, events)|
      <==> forall t <- History(events) :: events[|events| - 1].at - t <= 1_000_000_000
  {
    WrittenWindowIsHistory(events);
    IntendedWindowIsFilter(events);
    RecentYoung(History(events), events[|events| - 1].at);
  }

  /** One consumption, queried two seconds later: it is still counted, and should not be. */
  lemma WrittenUnitsAreWrong() returns (events: seq<Event>)
    ensures Monotone(events) && events == [Save(0), Query(2_000_000_000)]
    ensures |Window(AsWritten, events)| == 1 && |Window(AsIntended, events)| == 0
  {
    events := [Save(0), Query(2_000_000_000)];
    assert events[..1] == [Save(0)] && [Save(0)][..0] == [];
    assert History([Save(0)]) == [0];
    assert History(events) == [0];
    WrittenWindowIsHistory(events);
    IntendedWindowIsFilter(events);
    assert [0][..0] == [];
    assert Recent([0], 2_000_000_000) == [];
  }
}
