/** Whole runs over the map: lookups, creations, loads, deletions and unloading, in any order. */
module MapRuns {
  import opened MapStore
  import opened MapUnload
  import opened Vectors

  /** Unloading is told which positions the database will save. */
  datatype Event =
    | Call(op: Op)
    | Unload(dtime: real, timeout: real, max: nat, saveBeforeUnloading: bool, saves: V3 -> bool)

  /** Unloading takes blocks out of the plain map and puts none in. */
  ghost predicate PlainEvent(event: Event, before: Snapshot, r: MapBlock?, after: Snapshot) {
    match event
    case Call(op) => PlainStep(op, before, r, after)
    case Unload(_, _, _, _, _) =>
      && r == null && after.freed == before.freed + Removed(before.view, after.view)
      && forall p :: p in after.view ==> p in before.view && after.view[p] == before.view[p]
  }

  method UnloadBlocks(m: Map, dtime: real, timeout: real, max: nat, saveBeforeUnloading: bool, saves: V3 -> bool)
    requires m.Valid()
    modifies m, m.sectors.Values, m.view.Values
    ensures m.Valid() && forall p :: p in m.view ==> p in old(m.view) && m.view[p] == old(m.view)[p]
    ensures m.freed == old(m.freed) + Removed(old(m.view), m.view)
    ensures forall c :: c in m.sectors ==> c in old(m.sectors) && m.sectors[c] == old(m.sectors[c])
  {
    var blocks := AllBlocks(m);
    var lim := Limit(timeout, max, saveBeforeUnloading, set b | b in blocks && saves(b.pos));
    hide Map.Valid;
    var unloaded;
    ghost var rest, timers, gone;
    unloaded, rest, timers, gone := TimerUpdate(m, dtime, lim);
  }

  method Happens(m: Map, event: Event) returns (r: MapBlock?)
    requires m.Valid()
    modifies m, m.sectors.Values, m.view.Values
    ensures m.Valid() && PlainEvent(event, old(m.Snap()), r, m.Snap())
    ensures forall c ::
        c in m.sectors ==> (c in old(m.sectors) && m.sectors[c] == old(m.sectors[c])) || fresh(m.sectors[c])
    ensures forall b :: b in m.view.Values ==> b in old(m.view.Values) || fresh(b)
  {
    hide Map.Valid, PlainStep;
    match event {
      case Call(op) => r := m.Apply(op);
      case Unload(dtime, timeout, max, saveBeforeUnloading, saves) =>
        UnloadBlocks(m, dtime, timeout, max, saveBeforeUnloading, saves);
        r := null;
    }
  }

  /** Any run of events gives the results it would give on one plain map, and never a deleted block. */
  method Run(m: Map, events: seq<Event>) returns (results: seq<MapBlock?>, ghost trace: seq<Snapshot>)
    requires m.Valid()
    modifies m, m.sectors.Values, m.view.Values
    ensures m.Valid() && |results| == |events| && |trace| == |events| + 1
    ensures trace[0] == old(m.Snap()) && trace[|events|] == m.Snap()
    ensures forall k :: 0 <= k < |events| ==> PlainEvent(events[k], trace[k], results[k], trace[k + 1])
    ensures forall k :: 0 <= k < |events| && results[k] != null ==> results[k] !in trace[k + 1].freed
  {
    hide Map.Valid;
    results, trace := [], [m.Snap()];
    for i := 0 to |events|
      invariant m.Valid() && |results| == i && |trace| == i + 1
      invariant trace[0] == old(m.Snap()) && trace[i] == m.Snap()
      invariant forall k :: 0 <= k < i ==> PlainEvent(events[k], trace[k], results[k], trace[k + 1])
      invariant forall c :: c in m.sectors ==>
                  (c in old(m.sectors) && m.sectors[c] == old(m.sectors[c])) || fresh(m.sectors[c])
      invariant forall b :: b in m.view.Values ==> b in old(m.view.Values) || fresh(b)
    {
      var r := Happens(m, events[i]);
      results, trace := results + [r], trace + [m.Snap()];
    }
  }
}
