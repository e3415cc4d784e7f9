/**
 Edge statistics on their way from a node instance to its executor: two maps are
 sent as two lists, in whatever order the maps are iterated, and joined by edge name.
*/
module Stats {
  import opened Names
  import opened Wrappers

  /** Units produced or consumed in the last second, and idle time: 64-bit numbers. */
  datatype UnitStats = UnitStats(units: nat, idleTime: nat)

  /** Milliseconds between two readings in nanoseconds, truncated and cast to an unsigned 64-bit number. */
  function IdleTime(now: int, since: int): (millis: nat)
    ensures now >= since && now - since < U64 ==> millis == (now - since) / 1_000_000
  {
    (if now >= since then (now - since) / 1_000_000 else -((since - now) / 1_000_000)) % U64
  }

  /**
   Whole milliseconds, rounded towards zero, modulo 2^64: also where the clock reading
   is before the idle time began, which makes the time negative.
  */
  lemma IdleTimeIs(now: int, since: int) returns (k: nat, r: nat)
    ensures IdleTime(now, since) < 0x1_0000_0000_0000_0000 && r < 1_000_000
    ensures now >= since ==> now - since == (k * 0x1_0000_0000_0000_0000 + IdleTime(now, since)) * 1_000_000 + r
    ensures now < since ==> since - now == (k * 0x1_0000_0000_0000_0000 - IdleTime(now, since)) * 1_000_000 + r
  {
    var d := if now >= since then now - since else since - now;
    var m := d / 1_000_000;
    r := d % 1_000_000;
    if now >= since {
      k := m / U64;
      assert m == k * U64 + IdleTime(now, since);
    } else {
      var q := (-m) / U64;
      k := -q;
      assert -m == q * U64 + IdleTime(now, since);
    }
  }

  /** One list entry of the response; its `units` field is 32 bits wide. */
  datatype Entry = Entry(edgeName: Component, units: nat, idleTime: nat)

  datatype EdgeStats = EdgeStats(production: Option<UnitStats>, consumption: Option<UnitStats>)

  function Narrow(stats: UnitStats): UnitStats
  {
    stats.(units := stats.units % U32)
  }

  /** The count is taken modulo 2^32; the idle time stays. */
  lemma NarrowIs(stats: UnitStats)
    ensures Narrow(stats).idleTime == stats.idleTime && Narrow(stats).units < 0x1_0000_0000
    ensures exists k: nat :: stats.units == k * 0x1_0000_0000 + Narrow(stats).units
  {
    assert stats.units == (stats.units / U32) * 0x1_0000_0000 + Narrow(stats).units;
  }

  /** The list holds each entry of the map once, narrowed, in some order. */
  ghost predicate Enumerates(entries: seq<Entry>, stats: map<Component, UnitStats>)
  {
    && (forall i, j :: 0 <= i < j < |entries| ==> entries[i].edgeName != entries[j].edgeName)
    && (forall i :: 0 <= i < |entries| ==>
          entries[i].edgeName in stats
          && UnitStats(entries[i].units, entries[i].idleTime) == Narrow(stats[entries[i].edgeName]))
    && forall name <- stats :: NamesEdge(entries, name)
  }

  predicate NamesEdge(entries: seq<Entry>, name: Component)
  {
    exists i :: 0 <= i < |entries| && entries[i].edgeName == name
  }

  /** One of the two loops that fill the response. */
  method AddEntries(stats: map<Component, UnitStats>) returns (entries: seq<Entry>)
    ensures Enumerates(entries, stats)
  {
    entries := [];
    var left := stats.Keys;
    while left != {}
      invariant left <= stats.Keys
      invariant Enumerates(entries, stats - left)
    {
      var name :| name in left;
      var next := entries + [Entry(name, stats[name].units % U32, stats[name].idleTime)];
      assert next[|entries|].edgeName == name;
      assert forall n :: NamesEdge(entries, n) ==> NamesEdge(next, n) by {
        forall n | NamesEdge(entries, n) ensures NamesEdge(next, n) {
          var i :| 0 <= i < |entries| && entries[i].edgeName == n;
          assert next[i].edgeName == n;
        }
      }
      entries, left := next, left - {name};
    }
    assert stats - {} == stats;
  }

  /** What the last entry of a list says of an edge. */
  function LastOf(entries: seq<Entry>, name: Component): Option<UnitStats>
  {
    if entries == [] then None
    else
      var last := entries[|entries| - 1];
      if last.edgeName == name then Some(UnitStats(last.units, last.idleTime))
      else LastOf(entries[..|entries| - 1], name)
  }

  /** The last entry of a name decides, whatever the list says before. */
  lemma {:induction false} LastOfIs(entries: seq<Entry>, i: nat)
    requires i < |entries| && forall j :: i < j < |entries| ==> entries[j].edgeName != entries[i].edgeName
    ensures LastOf(entries, entries[i].edgeName) == Some(UnitStats(entries[i].units, entries[i].idleTime))
  {
    if i < |entries| - 1 {
      LastOfIs(entries[..|entries| - 1], i);
    }
  }

  function StatsOf(result: map<Component, EdgeStats>, name: Component): EdgeStats
  {
    if name in result then result[name] else EdgeStats(None, None)
  }

  /** What the executor makes of two lists. */
  ghost predicate Joins(result: map<Component, EdgeStats>, production: seq<Entry>, consumption: seq<Entry>)
  {
    && (forall name :: StatsOf(result, name) == EdgeStats(LastOf(production, name), LastOf(consumption, name)))
    && (forall name :: name in result <==> LastOf(production, name).Some? || LastOf(consumption, name).Some?)
  }

  /** The executor's side: one entry per edge that either list names, with what each says of it. */
  method QueryEdgeStats(production: seq<Entry>, consumption: seq<Entry>) returns (result: map<Component, EdgeStats>)
    ensures Joins(result, production, consumption)
  {
    result := map[];
    for i := 0 to |production|
      invariant forall name :: StatsOf(result, name) == EdgeStats(LastOf(production[..i], name), None)
      invariant forall name :: name in result <==> LastOf(production[..i], name).Some?
    {
      assert production[..i + 1][..i] == production[..i];
      var entry := production[i];
      result := result[entry.edgeName := EdgeStats(Some(UnitStats(entry.units, entry.idleTime)), None)];
    }
    assert production[..|production|] == production;
    for i := 0 to |consumption|
      invariant forall name :: StatsOf(result, name) == EdgeStats(LastOf(production, name), LastOf(consumption[..i], name))
      invariant forall name :: name in result <==> LastOf(production, name).Some? || LastOf(consumption[..i], name).Some?
    {
      assert consumption[..i + 1][..i] == consumption[..i];
      var entry := consumption[i];
      var stats := Some(UnitStats(entry.units, entry.idleTime));
      if entry.edgeName in result {
        result := result[entry.edgeName := result[entry.edgeName].(consumption := stats)];
      } else {
        result := result[entry.edgeName := EdgeStats(None, stats)];
      }
    }
    assert consumption[..|consumption|] == consumption;
  }

  function Lookup(stats: map<Component, UnitStats>, name: Component): Option<UnitStats>
  {
    if name in stats then Some(stats[name]) else None
  }

  function NarrowOption(stats: Option<UnitStats>): Option<UnitStats>
  {
    match stats
    case Some(s) => Some(Narrow(s))
    case None => None
  }

  lemma {:induction false} LastOfMissing(entries: seq<Entry>, name: Component)
    requires forall i :: 0 <= i < |entries| ==> entries[i].edgeName != name
    ensures LastOf(entries, name) == None
  {
    if entries != [] {
      LastOfMissing(entries[..|entries| - 1], name);
    }
  }

  lemma EnumerationLookup(entries: seq<Entry>, stats: map<Component, UnitStats>, name: Component)
    requires Enumerates(entries, stats)
    ensures LastOf(entries, name) == NarrowOption(Lookup(stats, name))
  {
    if name in stats {
      assert NamesEdge(entries, name);
      var i :| 0 <= i < |entries| && entries[i].edgeName == name;
      LastOfIs(entries, i);
    } else {
      LastOfMissing(entries, name);
    }
  }

  lemma JoinAt(produced: map<Component, UnitStats>, consumed: map<Component, UnitStats>,
               production: seq<Entry>, consumption: seq<Entry>, result: map<Component, EdgeStats>, name: Component)
    requires Enumerates(production, produced) && Enumerates(consumption, consumed) && Joins(result, production, consumption)
    ensures name in result <==> name in produced || name in consumed
    ensures StatsOf(result, name) == EdgeStats(NarrowOption(Lookup(produced, name)), NarrowOption(Lookup(consumed, name)))
  {
    EnumerationLookup(production, produced, name);
    EnumerationLookup(consumption, consumed, name);
  }

  /**
   The whole way: whatever order the two maps were listed in, the executor ends up
   with the union of their edges and, for each, the pair of what the maps hold,
   unit counts modulo 2^32.
  */
  lemma StatsRoundTrip(produced: map<Component, UnitStats>, consumed: map<Component, UnitStats>,
                       production: seq<Entry>, consumption: seq<Entry>, result: map<Component, EdgeStats>)
    requires Enumerates(production, produced) && Enumerates(consumption, consumed) && Joins(result, production, consumption)
    ensures result.Keys == produced.Keys + consumed.Keys
    ensures forall name :: name in result ==>
      result[name] == EdgeStats(NarrowOption(Lookup(produced, name)), NarrowOption(Lookup(consumed, name)))
  {
    forall name
      ensures name in result <==> name in produced || name in consumed
      ensures StatsOf(result, name) == EdgeStats(NarrowOption(Lookup(produced, name)), NarrowOption(Lookup(consumed, name)))
    {
      JoinAt(produced, consumed, production, consumption, result, name);
    }
  }

  /** For one edge, the executor has the true statistics exactly when neither count exceeds 32 bits. */
  lemma TrueStatsExactlyBelow32Bits(produced: map<Component, UnitStats>, consumed: map<Component, UnitStats>,
                                    production: seq<Entry>, consumption: seq<Entry>,
                                    result: map<Component, EdgeStats>, name: Component)
    requires Enumerates(production, produced) && Enumerates(consumption, consumed) && Joins(result, production, consumption)
    ensures StatsOf(result, name) == EdgeStats(Lookup(produced, name), Lookup(consumed, name))
      <==> (name in produced ==> produced[name].units < U32) && (name in consumed ==> consumed[name].units < U32)
  {
    JoinAt(produced, consumed, production, consumption, result, name);
  }

  /** Both lists one after the other, and what the executor makes of them. */
  method Exchange(produced: map<Component, UnitStats>, consumed: map<Component, UnitStats>)
    returns (result: map<Component, EdgeStats>)
    ensures result.Keys == produced.Keys + consumed.Keys
    ensures forall name :: name in result ==>
      result[name] == EdgeStats(NarrowOption(Lookup(produced, name)), NarrowOption(Lookup(consumed, name)))
  {
    var consumption := AddEntries(consumed);
    var production := AddEntries(produced);
    result := QueryEdgeStats(production, consumption);
    StatsRoundTrip(produced, consumed, production, consumption, result);
  }
}
