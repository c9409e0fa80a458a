/** Unloading old blocks when the number of loaded blocks is limited. */
module MapUnload {
  import opened Cardinality
  import opened MapStore
  import opened Vectors

  /** May leave memory: nobody refers to it, and its changes are on disk or need not be. */
  predicate Deletable(b: MapBlock, saveBeforeUnloading: bool, saves: set<MapBlock>)
    reads b
  {
    b.refCount == 0 && (!b.modified || !saveBeforeUnloading || b in saves)
  }

  /** The blocks in memory when `queue` still has to be visited and those in `gone` leave when visited. */
  ghost predicate Progress(start: map<V3, MapBlock>, gone: set<MapBlock>, queue: set<MapBlock>, view: map<V3, MapBlock>,
                           unloaded: seq<V3>) {
    && queue <= start.Values
    && (forall p :: p in view <==> p in start && (start[p] in queue || start[p] !in gone))
    && (forall p :: p in view ==> view[p] == start[p])
    && (forall p :: p in unloaded <==> p in start && p !in view)
  }

  lemma ProgressStart(start: map<V3, MapBlock>, gone: set<MapBlock>)
    ensures Progress(start, gone, start.Values, start, [])
  {}

  lemma ProgressKept(start: map<V3, MapBlock>, gone: set<MapBlock>, queue: set<MapBlock>, view: map<V3, MapBlock>,
                     unloaded: seq<V3>, b: MapBlock)
    requires Progress(start, gone, queue, view, unloaded) && b !in gone
    ensures Progress(start, gone, queue - {b}, view, unloaded)
  {}

  lemma ProgressGone(start: map<V3, MapBlock>, gone: set<MapBlock>, queue: set<MapBlock>, view: map<V3, MapBlock>,
                     unloaded: seq<V3>, b: MapBlock)
    requires Progress(start, gone, queue, view, unloaded) && b in gone && b in queue
    requires b.pos in start && start[b.pos] == b && forall p :: p in start ==> start[p].pos == p
    ensures b.pos in view && view[b.pos] == b
    ensures Progress(start, gone, queue - {b}, view - {b.pos}, unloaded + [b.pos])
  {}

  /** Every block's timer advances once. */
  method IncrementUsageTimers(blocks: set<MapBlock>, dtime: real)
    modifies blocks`usageTimer
    ensures forall b :: b in blocks ==> b.usageTimer == old(b.usageTimer) + dtime
  {
    var todo := blocks;
    while todo != {}
      invariant todo <= blocks
      invariant forall b :: b in blocks ==> b.usageTimer == old(b.usageTimer) + if b in todo then 0.0 else dtime
    {
      var b :| b in todo;
      b.usageTimer := b.usageTimer + dtime;
      todo := todo - {b};
    }
  }

  /** The top of the priority queue: a block unused the longest. */
  method Top(queue: set<MapBlock>) returns (top: MapBlock)
    requires queue != {}
    ensures top in queue && forall b :: b in queue ==> b.usageTimer <= top.usageTimer
  {
    top :| top in queue;
    var todo := queue - {top};
    while todo != {}
      invariant todo <= queue && top in queue
      invariant forall b :: b in queue - todo ==> b.usageTimer <= top.usageTimer
    {
      var b :| b in todo;
      if top.usageTimer < b.usageTimer { top := b; }
      todo := todo - {b};
    }
  }

  method AllBlocks(m: Map) returns (blocks: set<MapBlock>)
    requires m.Valid()
    ensures blocks == m.view.Values
  {
    blocks := set c, y | c in m.sectors.Keys && y in m.sectors[c].blocks.Keys :: m.sectors[c].blocks[y];
    forall b | b in m.view.Values ensures b in blocks {
      var p :| p in m.view && m.view[p] == b;
      assert p.y in m.sectors[Column(p)].blocks.Keys;
    }
    forall b | b in blocks ensures b in m.view.Values {
      var c, y :| c in m.sectors.Keys && y in m.sectors[c].blocks.Keys && m.sectors[c].blocks[y] == b;
      assert m.view[V3(c.x, y, c.y)] == b;
    }
  }

  method EmptySectors(m: Map) returns (list: seq<V2>)
    ensures forall c :: c in list <==> c in m.sectors && m.sectors[c].blocks == map[]
  {
    var todo := m.sectors.Keys;
    list := [];
    while todo != {}
      invariant todo <= m.sectors.Keys
      invariant forall c :: c in list <==> c in m.sectors && c !in todo && m.sectors[c].blocks == map[]
    {
      var c :| c in todo;
      if m.sectors[c].blocks == map[] { list := list + [c]; }
      todo := todo - {c};
    }
  }

  /** Visited oldest first, and no more than needed. */
  ghost predicate OldestFirst(timers: map<MapBlock, real>, queue: set<MapBlock>, timeout: real, max: nat)
    requires queue <= timers.Keys
  {
    && (forall a, b :: a in timers && a !in queue && b in queue ==> timers[b] <= timers[a])
    && (|queue| < max ==> forall a :: a in timers && a !in queue ==> timers[a] > timeout)
  }

  lemma OldestNext(timers: map<MapBlock, real>, queue: set<MapBlock>, timeout: real, max: nat, top: MapBlock)
    requires queue <= timers.Keys && OldestFirst(timers, queue, timeout, max)
    requires top in queue && forall b :: b in queue ==> timers[b] <= timers[top]
    requires |queue| > max || timers[top] > timeout
    ensures OldestFirst(timers, queue - {top}, timeout, max)
  {}

  /** The unloaded blocks are listed oldest first, each once. */
  ghost predicate Descending(start: map<V3, MapBlock>, timers: map<MapBlock, real>, unloaded: seq<V3>) {
    && (forall i :: 0 <= i < |unloaded| ==> unloaded[i] in start && start[unloaded[i]] in timers)
    && (forall i, j :: 0 <= i < j < |unloaded| ==>
          unloaded[i] != unloaded[j] && timers[start[unloaded[j]]] <= timers[start[unloaded[i]]])
  }

  lemma DescendingNext(start: map<V3, MapBlock>, timers: map<MapBlock, real>, gone: set<MapBlock>, lim: Limit,
                       queue: set<MapBlock>, view: map<V3, MapBlock>, unloaded: seq<V3>, b: MapBlock)
    requires Progress(start, gone, queue, view, unloaded) && queue <= timers.Keys
        && OldestFirst(timers, queue, lim.timeout, lim.max)
    requires Descending(start, timers, unloaded) && b in queue && b.pos in view && b.pos in start && start[b.pos] == b
    ensures Descending(start, timers, unloaded + [b.pos])
  {
    forall i | 0 <= i < |unloaded|
      ensures unloaded[i] != b.pos && start[unloaded[i]] in timers && timers[b] <= timers[start[unloaded[i]]]
    {
      assert unloaded[i] in unloaded;
    }
  }

  /** The blocks' timers, and which of them may leave, as values. */
  ghost predicate Describes(blocks: set<MapBlock>, timers: map<MapBlock, real>, gone: set<MapBlock>,
                            saveBeforeUnloading: bool, saves: set<MapBlock>)
    reads blocks
  {
    && timers.Keys == blocks
    && (forall b ::
          b in blocks ==> timers[b] == b.usageTimer && (b in gone <==> Deletable(b, saveBeforeUnloading, saves)))
  }

  datatype Limit = Limit(timeout: real, max: nat, saveBeforeUnloading: bool, saves: set<MapBlock>)

  /** What the loop keeps. */
  ghost predicate Unloading(m: Map, base: set<MapBlock>, start: map<V3, MapBlock>, timers: map<MapBlock, real>,
                            gone: set<MapBlock>,
                            lim: Limit,
                            queue: set<MapBlock>, unloaded: seq<V3>)
    reads m, m.sectors.Values, timers.Keys
  {
    && m.Valid()
    && (forall p :: p in start ==> start[p].pos == p)
    && Describes(timers.Keys, timers, gone, lim.saveBeforeUnloading, lim.saves)
    && queue <= timers.Keys
    && Progress(start, gone, queue, m.view, unloaded) && Accounted(base, start, m.view, m.freed)
    && OldestFirst(timers, queue, lim.timeout, lim.max)
    && Descending(start, timers, unloaded)
  }

  lemma TimerValues(m: Map, base: set<MapBlock>, start: map<V3, MapBlock>, timers: map<MapBlock, real>,
                    gone: set<MapBlock>, lim: Limit,
                    queue: set<MapBlock>, unloaded: seq<V3>)
    requires Unloading(m, base, start, timers, gone, lim, queue, unloaded)
    ensures queue <= timers.Keys && forall b :: b in queue ==> timers[b] == b.usageTimer
  {}

  /** The next block off the queue: deleted unless it is referenced or its save fails. */
  method Visit(m: Map, b: MapBlock, unloaded0: seq<V3>, lim: Limit,
               ghost base: set<MapBlock>, ghost start: map<V3, MapBlock>, ghost timers: map<MapBlock, real>,
                   ghost gone: set<MapBlock>,
                   ghost queue: set<MapBlock>)
    returns (unloaded: seq<V3>)
    requires Unloading(m, base, start, timers, gone, lim, queue, unloaded0) && b in queue && queue <= timers.Keys
    requires forall c :: c in queue ==> timers[c] <= timers[b]
    requires |queue| > lim.max || timers[b] > lim.timeout
    modifies m`view, m`freed, m.sectors.Values
    ensures Unloading(m, base, start, timers, gone, lim, queue - {b}, unloaded)
  {
    hide Unloading, Describes, Progress, OldestFirst, Descending, Accounted, Map.Valid;
    QueueBlock(m, base, start, timers, gone, lim, queue, unloaded0, b);
    if b.refCount != 0 || (b.modified && lim.saveBeforeUnloading && b !in lim.saves) {
      OldestNext(timers, queue, lim.timeout, lim.max, b);
      ProgressKept(start, gone, queue, m.view, unloaded0, b);
      UnloadingNow(m, base, start, timers, gone, lim, queue - {b}, unloaded0);
      return unloaded0;
    }
    unloaded := Unload(m, b, unloaded0, lim, base, start, timers, gone, queue);
  }

  /** Deletes a block that may leave. */
  method Unload(m: Map, b: MapBlock, unloaded0: seq<V3>, lim: Limit,
                ghost base: set<MapBlock>, ghost start: map<V3, MapBlock>, ghost timers: map<MapBlock, real>,
                    ghost gone: set<MapBlock>,
                    ghost queue: set<MapBlock>)
    returns (unloaded: seq<V3>)
    requires Unloading(m, base, start, timers, gone, lim, queue, unloaded0) && b in queue && b in gone
        && queue <= timers.Keys
    requires forall c :: c in queue ==> timers[c] <= timers[b]
    requires |queue| > lim.max || timers[b] > lim.timeout
    modifies m`view, m`freed, m.sectors.Values
    ensures Unloading(m, base, start, timers, gone, lim, queue - {b}, unloaded)
  {
    hide Unloading, Describes, Progress, OldestFirst, Descending, Accounted, Map.Valid;
    QueueBlock(m, base, start, timers, gone, lim, queue, unloaded0, b);
    OldestNext(timers, queue, lim.timeout, lim.max, b);
    ProgressGone(start, gone, queue, m.view, unloaded0, b);
    DescendingNext(start, timers, gone, lim, queue, m.view, unloaded0, b);
    InItsSector(m, b.pos);
    AccountedNext(base, start, m.view, m.freed, b.pos);
    m.DeleteIn(m.sectors[Column(b.pos)], b);
    unloaded := unloaded0 + [b.pos];
    UnloadingNow(m, base, start, timers, gone, lim, queue - {b}, unloaded);
  }

  /** The blocks freed since `base` are those that have left the map since `start`. */
  ghost predicate Accounted(base: set<MapBlock>, start: map<V3, MapBlock>, view: map<V3, MapBlock>,
                            freed: set<MapBlock>) {
    freed == base + Removed(start, view)
  }

  lemma AccountedNext(base: set<MapBlock>, start: map<V3, MapBlock>, view: map<V3, MapBlock>, freed: set<MapBlock>,
                      p: V3)
    requires Accounted(base, start, view, freed) && p in start && p in view && view[p] == start[p]
    ensures Accounted(base, start, view - {p}, freed + {view[p]})
  {
    assert Removed(start, view - {p}) == Removed(start, view) + {start[p]};
  }

  lemma AccountedStart(freed: set<MapBlock>, view: map<V3, MapBlock>)
    ensures Accounted(freed, view, view, freed)
  {
    Unremoved(view, view);
  }

  lemma InItsSector(m: Map, p: V3)
    requires m.Valid() && p in m.view
    ensures Column(p) in m.sectors
  {}

  lemma QueueBlock(m: Map, base: set<MapBlock>, start: map<V3, MapBlock>, timers: map<MapBlock, real>,
                   gone: set<MapBlock>, lim: Limit,
                   queue: set<MapBlock>, unloaded: seq<V3>, b: MapBlock)
    requires Unloading(m, base, start, timers, gone, lim, queue, unloaded) && b in queue
    ensures m.Valid() && Describes(timers.Keys, timers, gone, lim.saveBeforeUnloading, lim.saves)
        && queue <= timers.Keys
    ensures Progress(start, gone, queue, m.view, unloaded) && OldestFirst(timers, queue, lim.timeout, lim.max)
    ensures Descending(start, timers, unloaded)
    ensures Accounted(base, start, m.view, m.freed)
    ensures (forall p :: p in start ==> start[p].pos == p) && b.pos in start && start[b.pos] == b
    ensures b in gone <==> Deletable(b, lim.saveBeforeUnloading, lim.saves)
  {}

  lemma UnloadingNow(m: Map, base: set<MapBlock>, start: map<V3, MapBlock>, timers: map<MapBlock, real>,
                     gone: set<MapBlock>, lim: Limit,
                     queue: set<MapBlock>, unloaded: seq<V3>)
    requires m.Valid() && Describes(timers.Keys, timers, gone, lim.saveBeforeUnloading, lim.saves)
        && queue <= timers.Keys
    requires Progress(start, gone, queue, m.view, unloaded) && OldestFirst(timers, queue, lim.timeout, lim.max)
    requires Descending(start, timers, unloaded) && Accounted(base, start, m.view, m.freed)
    requires forall p :: p in start ==> start[p].pos == p
    ensures Unloading(m, base, start, timers, gone, lim, queue, unloaded)
  {}

  /** One turn of the loop; done when the queue is within the limit and its oldest block is not too old. */
  method Turn(m: Map, queue0: set<MapBlock>, unloaded0: seq<V3>, lim: Limit,
              ghost base: set<MapBlock>, ghost start: map<V3, MapBlock>, ghost timers: map<MapBlock, real>,
                  ghost gone: set<MapBlock>)
    returns (queue: set<MapBlock>, unloaded: seq<V3>, done: bool)
    requires Unloading(m, base, start, timers, gone, lim, queue0, unloaded0) && queue0 != {}
    modifies m`view, m`freed, m.sectors.Values
    ensures Unloading(m, base, start, timers, gone, lim, queue, unloaded) && queue <= timers.Keys
    ensures if done then queue == queue0 && IsLast(queue, timers, lim) else queue < queue0
  {
    hide Unloading;
    queue, unloaded := queue0, unloaded0;
    TimerValues(m, base, start, timers, gone, lim, queue, unloaded);
    var b := Top(queue);
    done := |queue| <= lim.max && b.usageTimer <= lim.timeout;
    if !done {
      unloaded := Visit(m, b, unloaded, lim, base, start, timers, gone, queue);
      queue := queue - {b};
    }
  }

  ghost predicate IsLast(queue: set<MapBlock>, timers: map<MapBlock, real>, lim: Limit) {
    |queue| <= lim.max && forall b :: b in queue ==> b in timers && timers[b] <= lim.timeout
  }

  /** The loop over the queue; `saves` holds the blocks whose save succeeds. */
  method UnloadOldest(m: Map, mapblockQueue: set<MapBlock>, lim: Limit,
                      ghost base: set<MapBlock>, ghost start: map<V3, MapBlock>, ghost timers: map<MapBlock, real>,
                          ghost gone: set<MapBlock>)
    returns (unloaded: seq<V3>, ghost rest: set<MapBlock>)
    requires Unloading(m, base, start, timers, gone, lim, mapblockQueue, [])
    modifies m`view, m`freed, m.sectors.Values
    ensures Unloading(m, base, start, timers, gone, lim, rest, unloaded) && IsLast(rest, timers, lim)
  {
    hide Unloading;
    var queue, done := mapblockQueue, false;
    unloaded := [];
    while queue != {} && !done
      invariant Unloading(m, base, start, timers, gone, lim, queue, unloaded)
      invariant done ==> IsLast(queue, timers, lim)
      modifies m`view, m`freed, m.sectors.Values
      decreases queue, !done
    {
      queue, unloaded, done := Turn(m, queue, unloaded, lim, base, start, timers, gone);
    }
    rest := queue;
  }

  /** The blocks that stay in memory although they were visited. */
  ghost function Stuck(timers: map<MapBlock, real>, gone: set<MapBlock>): set<MapBlock> {
    timers.Keys - gone
  }

  /** What is left is within the limit but for blocks that could not leave. */
  lemma LeftWithinLimit(start: map<V3, MapBlock>, gone: set<MapBlock>, queue: set<MapBlock>, view: map<V3, MapBlock>,
                        unloaded: seq<V3>)
    requires Progress(start, gone, queue, view, unloaded)
    ensures view.Values <= queue + (start.Values - gone)
    ensures |view.Values| <= |queue| + |start.Values - gone|
  {
    forall b | b in view.Values ensures b in queue + (start.Values - gone) {
      var p :| p in view && view[p] == b;
    }
    SubsetSize(view.Values, queue + (start.Values - gone));
  }

  lemma PositionsMatch(m: Map)
    requires m.Valid()
    ensures forall p :: p in m.view ==> m.view[p].pos == p
  {}

  /** All timers advance, and every block enters the queue. */
  method FillQueue(m: Map, dtime: real, lim: Limit)
    returns (queue: set<MapBlock>, ghost timers: map<MapBlock, real>, ghost gone: set<MapBlock>)
    requires m.Valid()
    modifies m.view.Values`usageTimer
    ensures queue == m.view.Values && Unloading(m, m.freed, m.view, timers, gone, lim, queue, [])
    ensures timers.Keys == queue && forall b :: b in queue ==> timers[b] == b.usageTimer == old(b.usageTimer) + dtime
    ensures forall b :: b in queue ==>
              (b in gone <==> old(b.refCount == 0 && (!b.modified || !lim.saveBeforeUnloading || b in lim.saves)))
  {
    hide Map.Valid, Accounted, Progress;
    queue := AllBlocks(m);
    PositionsMatch(m);
    IncrementUsageTimers(queue, dtime);
    timers := map b | b in queue :: b.usageTimer;
    gone := set b | b in queue && Deletable(b, lim.saveBeforeUnloading, lim.saves);
    ProgressStart(m.view, gone);
    AccountedStart(m.freed, m.view);
  }

  /** Sectors that hold no block any more leave the map; no block does. */
  method DeleteEmptySectors(m: Map)
    requires m.Valid()
    modifies m
    ensures m.Valid() && m.view == old(m.view) && m.freed == old(m.freed)
    ensures forall c :: c in m.sectors ==> m.sectors[c].blocks != map[]
    ensures forall c :: c in m.sectors ==> c in old(m.sectors) && m.sectors[c] == old(m.sectors[c])
  {
    var sectorDeletionQueue := EmptySectors(m);
    ghost var v := m.view;
    NotInEmptySector(m, sectorDeletionQueue);
    m.DeleteSectors(sectorDeletionQueue);
    assert m.view == v;
  }

  lemma NotInEmptySector(m: Map, list: seq<V2>)
    requires m.Valid() && forall c :: c in list ==> c in m.sectors && m.sectors[c].blocks == map[]
    ensures WithoutColumns(m.view, list) == m.view
  {
    forall p | p in m.view ensures Column(p) !in list {
      assert p.y in m.sectors[Column(p)].blocks;
    }
  }

  lemma UnloadingResult(m: Map, base: set<MapBlock>, start: map<V3, MapBlock>, timers: map<MapBlock, real>,
                        gone: set<MapBlock>, lim: Limit,
                        queue: set<MapBlock>, unloaded: seq<V3>)
    requires Unloading(m, base, start, timers, gone, lim, queue, unloaded) && timers.Keys == start.Values
        && IsLast(queue, timers, lim)
    ensures m.Valid() && queue <= timers.Keys
    ensures Progress(start, gone, queue, m.view, unloaded) && OldestFirst(timers, queue, lim.timeout, lim.max)
    ensures Descending(start, timers, unloaded) && Accounted(base, start, m.view, m.freed)
    ensures |m.view.Values| <= lim.max + |Stuck(timers, gone)|
  {
    LeftWithinLimit(start, gone, queue, m.view, unloaded);
  }

  /** `timerUpdate` with a practical limit on the number of loaded blocks. */
  method TimerUpdate(m: Map, dtime: real, lim: Limit)
    returns (unloaded: seq<V3>, ghost rest: set<MapBlock>, ghost timers: map<MapBlock, real>, ghost gone: set<MapBlock>)
    requires m.Valid()
    modifies m, m.sectors.Values, m.view.Values`usageTimer
    ensures m.Valid()
    ensures timers.Keys == old(m.view.Values) && forall b :: b in timers ==> timers[b] == old(b.usageTimer) + dtime
    ensures forall b :: b in timers ==>
              (b in gone <==> old(b.refCount == 0 && (!b.modified || !lim.saveBeforeUnloading || b in lim.saves)))
    ensures rest <= timers.Keys && Progress(old(m.view), gone, rest, m.view, unloaded)
    ensures OldestFirst(timers, rest, lim.timeout, lim.max) && IsLast(rest, timers, lim)
    ensures Descending(old(m.view), timers, unloaded)
    ensures |m.view.Values| <= lim.max + |Stuck(timers, gone)|
    ensures forall c :: c in m.sectors ==> m.sectors[c].blocks != map[]
    ensures forall c :: c in m.sectors ==> c in old(m.sectors) && m.sectors[c] == old(m.sectors[c])
    ensures Accounted(old(m.freed), old(m.view), m.view, m.freed)
  {
    hide Unloading, Progress, OldestFirst, Descending, Accounted, IsLast, Map.Valid, Deletable, Stuck;
    ghost var base, start := m.freed, m.view;
    var queue;
    queue, timers, gone := FillQueue(m, dtime, lim);
    unloaded, rest := UnloadOldest(m, queue, lim, base, start, timers, gone);
    UnloadingResult(m, base, start, timers, gone, lim, rest, unloaded);
    DeleteEmptySectors(m);
  }
}
