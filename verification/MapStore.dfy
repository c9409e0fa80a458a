/**
 * Blocks in memory: a map of sectors (columns), each a map of blocks, with a one-entry cache at both levels. A block
 * or sector that the program frees is recorded as freed; a cache that still pointed to it would be a stale pointer.
 */
module MapStore {
  import opened Vectors

  const MAX_LIMIT_BP := MAX_MAP_GENERATION_LIMIT / MAP_BLOCKSIZE

  class MapBlock {
    const pos: V3
    var usageTimer: real
    var refCount: nat
    /** Whether the block differs from its copy on disk. */
    var modified: bool

    constructor (pos: V3)
      ensures this.pos == pos && usageTimer == 0.0 && refCount == 0 && modified
    {
      this.pos := pos;
      usageTimer, refCount, modified := 0.0, 0, true;
    }
  }

  class MapSector {
    const pos: V2
    var blocks: map<int, MapBlock>
    var blockCache: MapBlock?
    var blockCacheY: int

    ghost predicate Valid()
      reads this
    {
      && (forall y :: y in blocks ==> blocks[y].pos == V3(pos.x, y, pos.y))
      && (blockCache != null ==> blockCacheY in blocks && blocks[blockCacheY] == blockCache)
    }

    ghost function At(y: int): MapBlock?
      reads this
    {
      if y in blocks then blocks[y] else null
    }

    /** The sector holds the blocks that `view` has in its column. */
    ghost predicate Files(view: map<V3, MapBlock>)
      reads this
    {
      && Valid()
      && (forall y :: y in blocks <==> V3(pos.x, y, pos.y) in view)
      && (forall y :: y in blocks ==> blocks[y] == view[V3(pos.x, y, pos.y)])
    }

    /** Changes in another column do not matter. */
    lemma FilesOther(view: map<V3, MapBlock>, changed: map<V3, MapBlock>, p: V3)
      requires Files(view) && Column(p) != pos && changed - {p} == view - {p}
      ensures Files(changed)
    {
      forall y ensures var q := V3(pos.x, y, pos.y);
                       (q in changed <==> q in view) && (q in view ==> changed[q] == view[q]) {
        var q := V3(pos.x, y, pos.y);
        assert q != p;
        assert q in changed <==> q in changed - {p};
        if q in view { assert view[q] == (view - {p})[q] == (changed - {p})[q]; }
      }
    }

    lemma FilesRemoved(view: map<V3, MapBlock>, p: V3)
      requires Files(view) && Column(p) != pos
      ensures Files(view - {p})
    {
      assert (view - {p}) - {p} == view - {p};
      FilesOther(view, view - {p}, p);
    }

    lemma FilesPut(view: map<V3, MapBlock>, p: V3, block: MapBlock)
      requires Files(view) && Column(p) != pos
      ensures Files(view[p := block])
    {
      assert view[p := block] - {p} == view - {p};
      FilesOther(view, view[p := block], p);
    }

    lemma FilesWithout(view: map<V3, MapBlock>, j: V2)
      requires Files(view) && pos != j
      ensures Files(WithoutColumn(view, j))
    {}

    constructor (pos: V2)
      ensures Valid() && this.pos == pos && blocks == map[]
    {
      this.pos := pos;
      blocks, blockCache, blockCacheY := map[], null, 0;
    }

    /** The cache never changes the answer. */
    method GetBlockBuffered(y: int) returns (block: MapBlock?)
      requires Valid()
      modifies this`blockCache, this`blockCacheY
      ensures Valid() && block == At(y)
    {
      if blockCache != null && y == blockCacheY { return blockCache; }
      block := if y in blocks then blocks[y] else null;
      blockCacheY, blockCache := y, block;
    }

    method CreateBlankBlock(y: int) returns (block: MapBlock)
      requires Valid() && y !in blocks
      modifies this
      ensures Valid() && fresh(block) && block.pos == V3(pos.x, y, pos.y) && blocks == old(blocks)[y := block]
    {
      var there := GetBlockBuffered(y);
      block := new MapBlock(V3(pos.x, y, pos.y));
      blocks := blocks[y := block];
    }

    /** Fails, and changes nothing, when the place is taken. */
    method InsertBlock(block: MapBlock) returns (ok: bool)
      requires Valid() && Column(block.pos) == pos
      modifies this
      ensures Valid() && ok == (block.pos.y !in old(blocks))
      ensures blocks == if ok then old(blocks)[block.pos.y := block] else old(blocks)
    {
      var block2 := GetBlockBuffered(block.pos.y);
      if block2 != null { return false; }
      blocks := blocks[block.pos.y := block];
      ok := true;
    }

    method DeleteBlock(block: MapBlock)
      requires Valid() && At(block.pos.y) == block
      modifies this
      ensures Valid() && blocks == old(blocks) - {block.pos.y} && blockCache == null
    {
      blockCache := null;
      blocks := blocks - {block.pos.y};
    }
  }

  class Map {
    var sectors: map<V2, MapSector>
    var sectorCache: MapSector?
    var sectorCacheP: V2
    /** The blocks in memory as one plain map. */
    ghost var view: map<V3, MapBlock>
    /** Every block that was deleted so far. */
    ghost var freed: set<MapBlock>

    ghost predicate Valid()
      reads this, sectors.Values
    {
      && (forall c :: c in sectors ==> sectors[c].pos == c && sectors[c].Files(view) && !OverLimit2(c))
      && (sectorCache != null ==> sectorCacheP in sectors && sectors[sectorCacheP] == sectorCache)
      && (forall p :: p in view ==> Column(p) in sectors && view[p].pos == p && view[p] !in freed)
    }

    constructor ()
      ensures Valid() && view == map[] && freed == {}
    {
      sectors, sectorCache, sectorCacheP, view, freed := map[], null, V2(0, 0), map[], {};
    }

    method GetSectorNoGenerate(p: V2) returns (sector: MapSector?)
      requires Valid()
      modifies this`sectorCache, this`sectorCacheP
      ensures Valid() && sector == if p in sectors then sectors[p] else null
    {
      if sectorCache != null && p == sectorCacheP { return sectorCache; }
      if p !in sectors { return null; }
      sector := sectors[p];
      sectorCacheP, sectorCache := p, sector;
    }

    /** The lookup in a sector; only its cache may change. */
    method LookIn(sector: MapSector, p: V3) returns (block: MapBlock?)
      requires Valid() && Column(p) in sectors && sectors[Column(p)] == sector
      modifies sector`blockCache, sector`blockCacheY
      ensures Valid() && block == if p in view then view[p] else null
    {
      block := sector.GetBlockBuffered(p.y);
    }

    /** A lookup returns the block at the position, and only the caches may change. */
    method GetBlockNoCreateNoEx(p3d: V3) returns (block: MapBlock?)
      requires Valid()
      modifies this`sectorCache, this`sectorCacheP, sectors.Values
      ensures Valid() && block == if p3d in view then view[p3d] else null
    {
      var sector := GetSectorNoGenerate(Column(p3d));
      if sector == null { return null; }
      block := LookIn(sector, p3d);
    }

    /** The sectors are as they were, but for a new one at `c` if there has to be one. */
    twostate predicate SectorAdded(c: V2, needed: bool)
      reads this`sectors
    {
      if !needed || c in old(sectors) then sectors == old(sectors)
      else c in sectors && fresh(sectors[c]) && sectors == old(sectors)[c := sectors[c]]
    }

    /** The sector at a position, created empty when there is none; null over the limit, where the program throws. */
    method CreateSector(p2d: V2) returns (sector: MapSector?)
      requires Valid()
      modifies this`sectors, this`sectorCache, this`sectorCacheP
      ensures Valid() && (sector == null <==> OverLimit2(p2d))
      ensures if sector == null then sectors == old(sectors) else sectors == old(sectors)[p2d := sector]
      ensures if p2d in old(sectors) then sector == old(sectors[p2d]) else sector == null || fresh(sector)
    {
      sector := GetSectorNoGenerate(p2d);
      if sector != null { return; }
      if OverLimit2(p2d) { return null; }
      sector := new MapSector(p2d);
      sectors := sectors[p2d := sector];
    }

    method CreateIn(sector: MapSector, p: V3) returns (block: MapBlock)
      requires Valid() && Column(p) in sectors && sectors[Column(p)] == sector && p !in view
      modifies this`view, sector
      ensures Valid() && fresh(block) && view == old(view)[p := block]
    {
      block := sector.CreateBlankBlock(p.y);
      assert sector.Files(view[p := block]) by { CreatedFiles(sector, old(sector.blocks), view, p, block); }
      forall c | c in sectors && c != Column(p) ensures sectors[c].Files(view[p := block]) {
        sectors[c].FilesPut(view, p, block);
      }
      view := view[p := block];
    }

    /** The block at a position, created blank when there is none; null over the limit, where the program throws. */
    method CreateBlock(p: V3) returns (block: MapBlock?)
      requires Valid()
      modifies this`sectors, this`sectorCache, this`sectorCacheP, this`view, sectors.Values
      ensures Valid() && (block == null <==> OverLimit3(p))
      ensures SectorAdded(Column(p), block != null)
      ensures block != null && p !in old(view) ==> fresh(block)
      ensures block != null && p in old(view) ==> block == old(view[p])
      ensures view == if block == null || p in old(view) then old(view) else old(view)[p := block]
    {
      if OverLimit3(p) { return null; }
      block := CreateInside(p);
    }

    method CreateInside(p: V3) returns (block: MapBlock)
      requires Valid() && !OverLimit2(Column(p))
      modifies this`sectors, this`sectorCache, this`sectorCacheP, this`view, sectors.Values
      ensures Valid() && SectorAdded(Column(p), true)
      ensures if p in old(view) then block == old(view[p]) else fresh(block)
      ensures view == if p in old(view) then old(view) else old(view)[p := block]
    {
      hide MapSector.Files;
      var sector := CreateSector(Column(p));
      assert Column(p) in sectors;
      var found := LookIn(sector, p);
      if found != null { return found; }
      block := CreateIn(sector, p);
    }

    method InsertIn(sector: MapSector, block: MapBlock)
      requires Valid() && Column(block.pos) in sectors && sectors[Column(block.pos)] == sector
      requires block.pos !in view && block !in freed
      modifies this`view, sector
      ensures Valid() && view == old(view)[block.pos := block]
    {
      var p := block.pos;
      var inserted := sector.InsertBlock(block);
      assert sector.Files(view[p := block]) by { CreatedFiles(sector, old(sector.blocks), view, p, block); }
      forall c | c in sectors && c != Column(p) ensures sectors[c].Files(view[p := block]) {
        sectors[c].FilesPut(view, p, block);
      }
      view := view[p := block];
    }

    /** A block read from disk enters the map, unless there is one already; either way it is then as it is on disk. */
    method ReadBlock(p: V3) returns (block: MapBlock?)
      requires Valid()
      modifies this`sectors, this`sectorCache, this`sectorCacheP, this`view, sectors.Values, view.Values`modified
      ensures Valid() && (block == null <==> OverLimit2(Column(p)))
      ensures SectorAdded(Column(p), block != null)
      ensures forall b :: b in old(view.Values) && b != block ==> b.modified == old(b.modified)
      ensures block != null && p !in old(view) ==> fresh(block)
      ensures block != null && p in old(view) ==> block == old(view[p])
      ensures view == if block == null || p in old(view) then old(view) else old(view)[p := block]
      ensures block != null ==> !block.modified
    {
      hide MapSector.Files;
      var sector := CreateSector(Column(p));
      if sector == null { return null; }
      assert Column(p) in sectors;
      block := FindOrInsert(sector, p);
      block.modified := false;
    }

    method FindOrInsert(sector: MapSector, p: V3) returns (block: MapBlock)
      requires Valid() && Column(p) in sectors && sectors[Column(p)] == sector
      modifies this`view, sector
      ensures Valid() && if p in old(view) then block == old(view[p]) else fresh(block)
      ensures view == if p in old(view) then old(view) else old(view)[p := block]
    {
      hide MapSector.Files;
      var found := LookIn(sector, p);
      if found != null { return found; }
      block := new MapBlock(p);
      InsertIn(sector, block);
    }

    /**
     * What the database has for the position decides: without data nothing is read, and with bad data nothing enters
     * the map. The program throws on bad data it is not told to ignore, and over the limit; here that is null.
     */
    method LoadBlock(p: V3, stored: Stored) returns (block: MapBlock?)
      requires Valid()
      modifies this`sectors, this`sectorCache, this`sectorCacheP, this`view, sectors.Values, view.Values`modified
      ensures Valid()
      ensures block != null && p !in old(view) ==> fresh(block) && stored == Good
      ensures block != null && p in old(view) ==> block == old(view[p])
      ensures block == null <==> if stored == Good then OverLimit2(Column(p)) else !stored.carriesOn || p !in old(view)
      ensures view == if block == null || p in old(view) then old(view) else old(view)[p := block]
      ensures block != null && stored == Good ==> !block.modified
      ensures forall b :: b in old(view.Values) && (b != block || stored != Good) ==> b.modified == old(b.modified)
      ensures SectorAdded(Column(p), !stored.Missing? && !OverLimit2(Column(p)))
    {
      hide MapSector.Files;
      block := GetBlockNoCreateNoEx(p);
      if stored == Good {
        block := ReadBlock(p);
      } else {
        if stored.Bad? { var sector := CreateSector(Column(p)); }
        if !stored.carriesOn { return null; }
        block := GetBlockNoCreateNoEx(p);
      }
    }

    lemma AtPlace(sector: MapSector, block: MapBlock)
      requires Valid() && block.pos in view && view[block.pos] == block && sectors[Column(block.pos)] == sector
      ensures sector.Valid() && sector.At(block.pos.y) == block
      ensures forall y :: y in sector.blocks <==> V3(sector.pos.x, y, sector.pos.y) in view
      ensures forall y :: y in sector.blocks ==> sector.blocks[y] == view[V3(sector.pos.x, y, sector.pos.y)]
    {}

    /** A column that is not the block's keeps its sector. */
    lemma OthersKept(p: V3)
      requires forall c :: c in sectors && c != Column(p) ==> sectors[c].pos == c && sectors[c].Files(view)
      ensures forall c :: c in sectors && c != Column(p) ==> sectors[c].Files(view - {p})
    {
      forall c | c in sectors && c != Column(p) ensures sectors[c].Files(view - {p}) {
        sectors[c].FilesRemoved(view, p);
      }
    }

    /** The block leaves its sector and is freed. */
    method DeleteIn(sector: MapSector, block: MapBlock)
      requires Valid() && block.pos in view && view[block.pos] == block && sectors[Column(block.pos)] == sector
      modifies this`view, this`freed, sector
      ensures Valid() && view == old(view) - {block.pos} && freed == old(freed) + {block}
    {
      var p := block.pos;
      AtPlace(sector, block);
      OthersKept(p);
      hide MapSector.Files, MapSector.Valid;
      sector.DeleteBlock(block);
      DeletedFiles(sector, old(sector.blocks), view, p);
      view, freed := view - {p}, freed + {block};
    }

    /** Nothing happens if the database refuses to delete its copy. */
    method DeleteBlock(blockpos: V3, refused: bool) returns (ok: bool)
      requires Valid()
      modifies this`sectorCache, this`sectorCacheP, this`view, this`freed, sectors.Values
      ensures Valid() && ok == !refused && view == if refused then old(view) else old(view) - {blockpos}
      ensures freed == if blockpos in old(view) && !refused then old(freed) + {old(view[blockpos])} else old(freed)
    {
      if refused { return false; }
      var block := GetBlockNoCreateNoEx(blockpos);
      if block != null {
        var sector := GetSectorNoGenerate(Column(blockpos));
        DeleteIn(sector, block);
      } else {
        NothingToRemove(view, blockpos);
      }
      ok := true;
    }

    method DeleteSector(j: V2)
      requires Valid()
      modifies this`sectors, this`sectorCache, this`view, this`freed
      ensures Valid() && sectors == old(sectors) - {j}
      ensures view == WithoutColumn(old(view), j) && freed == old(freed) + InColumn(old(view), j).Values
    {
      var sector: MapSector? := if j in sectors then sectors[j] else null;
      // the cache must not outlive its sector
      if sectorCache == sector { sectorCache := null; }
      sectors := sectors - {j};
      forall c | c in sectors ensures sectors[c].Files(WithoutColumn(view, j)) {
        sectors[c].FilesWithout(view, j);
      }
      view, freed := WithoutColumn(view, j), freed + InColumn(view, j).Values;
    }

    method DeleteSectors(sectorList: seq<V2>)
      requires Valid()
      modifies this`sectors, this`sectorCache, this`view, this`freed
      ensures Valid() && view == WithoutColumns(old(view), sectorList) && sectors.Keys <= old(sectors.Keys)
      ensures freed == old(freed) + Removed(old(view), view)
      ensures forall c :: c in sectors <==> c in old(sectors) && c !in sectorList
      ensures forall c :: c in sectors ==> sectors[c] == old(sectors[c])
    {
      ghost var v, f := view, freed;
      assert WithoutColumns(v, sectorList[..0]) == v && Removed(v, v) == {};
      for i := 0 to |sectorList|
        invariant Valid() && view == WithoutColumns(v, sectorList[..i]) && freed == f + Removed(v, view)
        invariant forall c :: c in sectors <==> c in old(sectors) && c !in sectorList[..i]
        invariant forall c :: c in sectors ==> sectors[c] == old(sectors[c])
      {
        OneMoreColumn(v, sectorList, i);
        DeleteSector(sectorList[i]);
      }
      assert sectorList[..|sectorList|] == sectorList;
    }

    ghost function Snap(): Snapshot
      reads this
    {
      Snapshot(view, freed)
    }

    /** The operations that read blocks or make them. */
    method Enter(op: Op) returns (r: MapBlock?)
      requires Valid() && !op.Delete? && !op.DropSectors?
      modifies this`sectors, this`sectorCache, this`sectorCacheP, this`view, sectors.Values, view.Values`modified
      ensures Valid() && PlainStep(op, old(Snap()), r, Snap())
      ensures SectorAdded(Column(op.pos), Column(op.pos) in sectors)
      ensures forall b :: b in view.Values ==> b in old(view.Values) || fresh(b)
    {
      hide Valid, MapSector.Files;
      Unremoved(view, view);
      ghost var before := view;
      match op {
        case Lookup(p) => r := GetBlockNoCreateNoEx(p);
        case Create(p) => r := CreateBlock(p);
        case Load(p, stored) => r := LoadBlock(p, stored);
      }
      Unremoved(before, view);
      if r != null { NotFreed(op.pos); }
    }

    /** Each operation does what it would do on one plain map. */
    method Apply(op: Op) returns (r: MapBlock?)
      requires Valid()
      modifies this, sectors.Values, view.Values`modified
      ensures Valid() && PlainStep(op, old(Snap()), r, Snap())
      ensures forall c :: c in sectors ==> (c in old(sectors) && sectors[c] == old(sectors[c])) || fresh(sectors[c])
      ensures forall b :: b in view.Values ==> b in old(view.Values) || fresh(b)
    {
      hide Valid, MapSector.Files;
      r := null;
      ghost var before := view;
      match op {
        case Delete(p, refused) =>
          var ok := DeleteBlock(p, refused);
          OneRemoved(before, p);
          Unremoved(before, before);
        case DropSectors(list) => DeleteSectors(list);
        case _ => r := Enter(op);
      }
    }

    lemma NotFreed(p: V3)
      requires Valid() && p in view
      ensures view[p] !in freed && view[p].pos == p
    {}
  }

  /**
   * What the database answers: no data, bad data or good data. The program carries on after bad data only if it is
   * told to ignore errors, and after no data only if there is a second, read-only database to ask.
   */
  datatype Stored = Missing(carriesOn: bool) | Bad(carriesOn: bool) | Good

  datatype Op =
    | Lookup(pos: V3)
    | Create(pos: V3)
    | Load(pos: V3, stored: Stored)
    | Delete(pos: V3, refused: bool)
    | DropSectors(columns: seq<V2>)

  datatype Snapshot = Snapshot(view: map<V3, MapBlock>, freed: set<MapBlock>)

  function WithoutColumns(view: map<V3, MapBlock>, columns: seq<V2>): map<V3, MapBlock> {
    map p | p in view && Column(p) !in columns :: view[p]
  }

  /** The blocks that are no longer there. */
  function Removed(before: map<V3, MapBlock>, after: map<V3, MapBlock>): set<MapBlock> {
    set p | p in before && p !in after :: before[p]
  }

  lemma Unremoved(before: map<V3, MapBlock>, after: map<V3, MapBlock>)
    requires before.Keys <= after.Keys
    ensures Removed(before, after) == {}
  {}

  lemma OneRemoved(before: map<V3, MapBlock>, p: V3)
    ensures Removed(before, before - {p}) == if p in before then {before[p]} else {}
  {}

  lemma OneMoreColumn(v: map<V3, MapBlock>, columns: seq<V2>, i: nat)
    requires i < |columns|
    ensures var w := WithoutColumns(v, columns[..i]);
            && WithoutColumns(v, columns[..i + 1]) == WithoutColumn(w, columns[i])
            && Removed(v, WithoutColumn(w, columns[i])) == Removed(v, w) + InColumn(w, columns[i]).Values
  {
    assert columns[..i + 1] == columns[..i] + [columns[i]];
    var w := WithoutColumns(v, columns[..i]);
    var u := WithoutColumn(w, columns[i]);
    forall b | b in Removed(v, u) ensures b in Removed(v, w) + InColumn(w, columns[i]).Values {
      var p :| p in v && p !in u && v[p] == b;
      assert p in w ==> InColumn(w, columns[i])[p] == b;
    }
  }

  /** What an operation does to one plain map of blocks. */
  ghost predicate PlainStep(op: Op, before: Snapshot, r: MapBlock?, after: Snapshot) {
    && after.freed == before.freed + Removed(before.view, after.view)
    && (r != null ==> r !in after.freed)
    && match op
       case Lookup(p) => after.view == before.view && r == if p in before.view then before.view[p] else null
       case Create(p) => PlainCreate(p, OverLimit3(p), before, r, after)
       case Load(p, Good) => PlainCreate(p, OverLimit2(Column(p)), before, r, after)
       case Load(p, stored) =>
           after.view == before.view && r == if stored.carriesOn && p in before.view then before.view[p] else null
       case Delete(p, refused) => r == null && after.view == if refused then before.view else before.view - {p}
       case DropSectors(list) => r == null && after.view == WithoutColumns(before.view, list)
  }

  ghost predicate PlainCreate(p: V3, refused: bool, before: Snapshot, r: MapBlock?, after: Snapshot) {
    if refused then r == null && after.view == before.view
    else if p in before.view then r == before.view[p] && after.view == before.view
    else r != null && r !in before.view.Values && r.pos == p && after.view == before.view[p := r]
  }

  lemma NothingToRemove<K, V>(m: map<K, V>, k: K)
    requires k !in m
    ensures m - {k} == m
  {}

  lemma CreatedFiles(sector: MapSector, before: map<int, MapBlock>, view: map<V3, MapBlock>, p: V3, block: MapBlock)
    requires sector.Valid() && Column(p) == sector.pos && sector.blocks == before[p.y := block]
    requires forall y :: y in before <==> V3(sector.pos.x, y, sector.pos.y) in view
    requires forall y :: y in before ==> before[y] == view[V3(sector.pos.x, y, sector.pos.y)]
    ensures sector.Files(view[p := block])
  {}

  lemma DeletedFiles(sector: MapSector, before: map<int, MapBlock>, view: map<V3, MapBlock>, p: V3)
    requires sector.Valid() && Column(p) == sector.pos && sector.blocks == before - {p.y}
    requires forall y :: y in before <==> V3(sector.pos.x, y, sector.pos.y) in view
    requires forall y :: y in before ==> before[y] == view[V3(sector.pos.x, y, sector.pos.y)]
    ensures sector.Files(view - {p})
  {}

  /** The blocks of one column, and all the others. */
  function InColumn(view: map<V3, MapBlock>, c: V2): map<V3, MapBlock> {
    map p | p in view && Column(p) == c :: view[p]
  }

  function WithoutColumn(view: map<V3, MapBlock>, c: V2): map<V3, MapBlock> {
    map p | p in view && Column(p) != c :: view[p]
  }

  predicate OverLimit2(p: V2) {
    p.x < -MAX_LIMIT_BP || p.x > MAX_LIMIT_BP || p.y < -MAX_LIMIT_BP || p.y > MAX_LIMIT_BP
  }

  predicate OverLimit3(p: V3) {
    OverLimit2(Column(p)) || p.y < -MAX_LIMIT_BP || p.y > MAX_LIMIT_BP
  }

  /** The limit in blocks: 31000 nodes, in blocks of 16, to every side. */
  lemma LimitMeaning(p: V3)
    ensures OverLimit2(Column(p)) <==> !(-1937 <= p.x <= 1937 && -1937 <= p.z <= 1937)
    ensures OverLimit3(p) <==> !(-1937 <= p.x <= 1937 && -1937 <= p.y <= 1937 && -1937 <= p.z <= 1937)
  {}
}
