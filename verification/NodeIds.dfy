/**
 * Content ids in saved blocks. Saving renumbers the contents of a block from 0 in order of first occurrence and
 * stores the name of each number; loading turns the numbers back into whatever ids the names have by then.
 */
module NodeIds {
  import opened MachineIntegers
  import opened NodeBulk
  import opened Options

  const CONTENT_UNKNOWN: u16 := 125
  const CONTENT_IGNORE: u16 := 127
  const NO_MAPPING: u16 := 0xFFFF

  // ----- node definitions -----

  /**
   * What the node definition manager knows about names: the name of each registered id ("" when the id is free),
   * names to ids without and with aliases, and where the search for a free id starts.
   */
  datatype NodeDefs = NodeDefs(features: seq<string>, rawIds: map<string, u16>, ids: map<string, u16>, nextId: u16)

  ghost predicate WellFormed(d: NodeDefs) {
    CONTENT_IGNORE < |d.features| <= 0x1_0000 && d.features[CONTENT_IGNORE] != "" && "" !in d.rawIds
  }

  /** The name of an id; ids that were never registered are called what CONTENT_UNKNOWN is called. */
  function Name(d: NodeDefs, id: u16): string
    requires WellFormed(d)
  {
    if id < |d.features| then d.features[id] else d.features[CONTENT_UNKNOWN]
  }

  function Grow(features: seq<string>, n: nat): (r: seq<string>)
    ensures |r| == if n < |features| then |features| else n
    ensures forall i :: 0 <= i < |features| ==> r[i] == features[i]
  {
    if n <= |features| then features else features + seq(n - |features|, i => "")
  }

  /** The first free id at or after `id`; none when the search runs past the last id. */
  function FirstFree(features: seq<string>, id: nat): (r: Option<u16>)
    requires id <= 0x1_0000
    ensures r.Some? ==> id <= r.value && (r.value < |features| ==> features[r.value] == "")
    decreases 0x1_0000 - id
  {
    if id == 0x1_0000 then None
    else if id >= |features| || features[id] == "" then Some(id)
    else FirstFree(features, id + 1)
  }

  /** It is the smallest one: every id before it has a name. */
  lemma {:induction false} FirstFreeIsFirst(features: seq<string>, id: nat, k: nat)
    requires id <= k < 0x1_0000
    ensures var r := FirstFree(features, id);
            (r.None? || k < r.value ==> k < |features| && features[k] != "")
            && (r.None? ==> |features| >= 0x1_0000)
    decreases 0x1_0000 - id
  {
    if k > id { FirstFreeIsFirst(features, id + 1, k); }
    if id < 0xFFFF && k == id { FirstFreeIsFirst(features, id + 1, id + 1); }
  }

  /**
   * `allocateDummy`: the id the name already has when aliases are ignored, or a free one, which the name then owns.
   * CONTENT_IGNORE says that there was none.
   */
  function Allocate(d: NodeDefs, name: string): (NodeDefs, u16)
    requires WellFormed(d) && name != ""
  {
    if name in d.rawIds then
      var id: int := d.rawIds[name];
      (d.(features := Grow(d.features, id + 1)[id := name]), id)
    else
      match FirstFree(d.features, d.nextId)
      case None => (d.(features := Grow(d.features, 0x1_0000)), CONTENT_IGNORE)
      case Some(id) =>
        (NodeDefs(Grow(d.features, id + 1)[id := name], d.rawIds[name := id],
                  if name in d.ids then d.ids else d.ids[name := id], ToU16(id + 1)), id)
  }

  /** No name is registered for the id. */
  predicate IsFree(d: NodeDefs, id: nat) {
    id >= |d.features| || d.features[id] == ""
  }

  /**
   * A new name gets the first free id from where the last search ended, and the next search starts behind it; with no
   * free id left nothing is registered.
   */
  lemma AllocateMeaning(d: NodeDefs, name: string)
    requires WellFormed(d) && name != "" && name !in d.rawIds
    ensures var (t, id) := Allocate(d, name);
            if forall k :: d.nextId <= k < 0x1_0000 ==> !IsFree(d, k) then
              id == CONTENT_IGNORE && t.rawIds == d.rawIds && t.ids == d.ids && t.nextId == d.nextId
            else
              && d.nextId <= id && IsFree(d, id) && (forall k :: d.nextId <= k < id ==> !IsFree(d, k))
              && t.rawIds == d.rawIds[name := id] && t.ids == (if name in d.ids then d.ids else d.ids[name := id])
              && t.nextId == (if id == 0xFFFF then 0 else id + 1)
              && |t.features| > id && t.features[id] == name
    ensures var (t, id) := Allocate(d, name);
            |t.features| >= |d.features| && forall k ::
                0 <= k < |d.features| && IsFree(t, k) != IsFree(d, k) ==> k == id
  {
    forall k | d.nextId <= k < 0x1_0000
      ensures var r := FirstFree(d.features, d.nextId); r.None? || k < r.value ==> !IsFree(d, k)
    {
      FirstFreeIsFirst(d.features, d.nextId, k);
    }
    var r := FirstFree(d.features, d.nextId);
    if r.Some? { assert IsFree(d, r.value); }
  }

  /** The id a name stands for. */
  function Lookup(d: NodeDefs, name: string): Option<u16> {
    if name in d.ids then Some(d.ids[name])
    else if name in d.rawIds && d.rawIds[name] != CONTENT_IGNORE then Some(d.rawIds[name])
    else None
  }

  // ----- renumbering -----

  /** The different contents, in order of first occurrence. */
  function FirstSeen(s: seq<u16>): seq<u16> {
    if s == [] then []
    else
      var seen := FirstSeen(s[..|s| - 1]);
      if s[|s| - 1] in seen then seen else seen + [s[|s| - 1]]
  }

  lemma {:induction false} FirstSeenMeaning(s: seq<u16>)
    ensures var seen := FirstSeen(s);
            && |seen| <= |s|
            && (forall x :: x in seen <==> x in s)
            && (forall i, j :: 0 <= i < j < |seen| ==> seen[i] != seen[j])
  {
    if s != [] {
      FirstSeenMeaning(s[..|s| - 1]);
      assert s == s[..|s| - 1] + [s[|s| - 1]];
    }
  }

  lemma {:induction false} FirstSeenPrefix(s: seq<u16>, i: nat)
    requires i <= |s|
    ensures FirstSeen(s[..i]) <= FirstSeen(s)
  {
    if i == |s| {
      assert s[..i] == s;
    } else {
      FirstSeenPrefix(s[..|s| - 1], i);
      assert s[..|s| - 1][..i] == s[..i];
    }
  }

  function Contents(nodes: seq<MapNode>): (s: seq<u16>)
    ensures |s| == |nodes| && forall i :: 0 <= i < |s| ==> s[i] == nodes[i].param0
  {
    seq(|nodes|, i requires 0 <= i < |nodes| => nodes[i].param0)
  }

  /** `saved` numbers the contents of `nodes` by their place in `seen` and changes nothing else. */
  ghost predicate Numbers(saved: seq<MapNode>, nodes: seq<MapNode>, seen: seq<u16>) {
    && |saved| == |nodes|
    && forall i :: 0 <= i < |saved| ==>
         && saved[i] == nodes[i].(param0 := saved[i].param0)
         && saved[i].param0 < |seen| && seen[saved[i].param0] == nodes[i].param0
  }

  /** The stored names: one for each number whose content has a name. */
  function StoredNames(d: NodeDefs, seen: seq<u16>): map<nat, string>
    requires WellFormed(d)
  {
    map k: nat | k < |seen| && Name(d, seen[k]) != "" :: Name(d, seen[k])
  }

  ghost predicate IsSaved(d: NodeDefs, nodes: seq<MapNode>, saved: seq<MapNode>, nimap: map<nat, string>)
    requires WellFormed(d)
  {
    var seen := FirstSeen(Contents(nodes));
    Numbers(saved, nodes, seen) && nimap == StoredNames(d, seen)
  }

  /** A content's number is how many different contents come before its first occurrence. */
  lemma NumberCountsEarlier(d: NodeDefs, nodes: seq<MapNode>, saved: seq<MapNode>, nimap: map<nat, string>, first: nat,
                            i: nat)
    requires WellFormed(d) && IsSaved(d, nodes, saved, nimap)
    requires first <= i < |nodes| && nodes[i].param0 == nodes[first].param0
    requires nodes[first].param0 !in Contents(nodes)[..first]
    ensures saved[i].param0 == |FirstSeen(Contents(nodes)[..first])|
    ensures |FirstSeen(Contents(nodes)[..first])| == |Elements(Contents(nodes)[..first])|
  {
    var s := Contents(nodes);
    var before, seen := FirstSeen(s[..first]), FirstSeen(s);
    FirstSeenMeaning(s[..first]);
    assert s[..first + 1][..first] == s[..first];
    assert FirstSeen(s[..first + 1]) == before + [s[first]];
    FirstSeenPrefix(s, first + 1);
    FirstSeenMeaning(s);
    assert seen[|before|] == s[first];
    DistinctSize(before);
    assert Elements(before) == Elements(s[..first]);
  }

  function Elements<T>(s: seq<T>): set<T> {
    set x | x in s
  }

  lemma {:induction false} DistinctSize<T>(s: seq<T>)
    requires forall i, j :: 0 <= i < j < |s| ==> s[i] != s[j]
    ensures |Elements(s)| == |s|
  {
    if s != [] {
      var n := |s| - 1;
      DistinctSize(s[..n]);
      assert s == s[..n] + [s[n]];
      assert Elements(s) == Elements(s[..n]) + {s[n]};
    }
  }

  // ----- loading -----

  ghost predicate IsNameMap(nimap: map<nat, string>) {
    forall k :: k in nimap ==> nimap[k] != ""
  }

  /** One node: its number becomes the id of its name, or stays when it has no name or no id can be had. */
  function CorrectOne(d: NodeDefs, nimap: map<nat, string>, local: u16): (NodeDefs, u16)
    requires WellFormed(d) && IsNameMap(nimap)
  {
    if local !in nimap then (d, local)
    else if nimap[local] in d.ids then (d, d.ids[nimap[local]])
    else
      var (t, id) := Allocate(d, nimap[local]);
      (t, if id == CONTENT_IGNORE then local else id)
  }

  /** The whole block, node after node; allocations accumulate. */
  function Correct(d: NodeDefs, nimap: map<nat, string>, local: seq<u16>): (NodeDefs, seq<u16>)
    requires WellFormed(d) && IsNameMap(nimap)
    ensures WellFormed(Correct(d, nimap, local).0) && |Correct(d, nimap, local).1| == |local|
  {
    if local == [] then (d, [])
    else
      var (t, done) := Correct(d, nimap, local[..|local| - 1]);
      var (u, id) := CorrectOne(t, nimap, local[|local| - 1]);
      (u, done + [id])
  }

  /** Resolving the same number again changes nothing and gives the same id: the shortcut for runs of nodes is safe. */
  lemma CorrectTwice(d: NodeDefs, nimap: map<nat, string>, local: u16)
    requires WellFormed(d) && IsNameMap(nimap)
    ensures var (t, id) := CorrectOne(d, nimap, local); WellFormed(t) && CorrectOne(t, nimap, local) == (t, id)
  {
    if local in nimap && nimap[local] !in d.ids { AllocateTwice(d, nimap[local]); }
  }

  lemma AllocateTwice(d: NodeDefs, name: string)
    requires WellFormed(d) && name != "" && name !in d.ids
    ensures var (t, id) := Allocate(d, name);
            WellFormed(t) && if name in t.ids then t.ids[name] == id && id != CONTENT_IGNORE
                else Allocate(t, name) == (t, id)
  {
    var (t, id) := Allocate(d, name);
    if name in d.rawIds {
      assert Grow(t.features, id as int + 1)[id := name] == t.features;
    } else if FirstFree(d.features, d.nextId).None? {
      FirstFreeIsFirst(d.features, d.nextId, d.nextId);
      assert t.features == d.features;
    }
  }

  /** The name has no id and cannot get one: the table is full, or the name is held back by CONTENT_IGNORE. */
  predicate IsHopeless(d: NodeDefs, name: string) {
    && name !in d.ids
    && if name in d.rawIds then d.rawIds[name] == CONTENT_IGNORE else FirstFree(d.features, d.nextId) == None
  }

  /** What the definitions now say about a name decides the id of a node that carries it. */
  predicate IsSettled(d: NodeDefs, name: string, local: u16, id: u16) {
    match Lookup(d, name)
    case Some(found) => id == found
    case None => id == local && IsHopeless(d, name)
  }

  lemma CorrectOneSettles(d: NodeDefs, nimap: map<nat, string>, local: u16)
    requires WellFormed(d) && IsNameMap(nimap) && local in nimap
    ensures var (t, id) := CorrectOne(d, nimap, local); IsSettled(t, nimap[local], local, id)
  {
    var name := nimap[local];
    if name !in d.ids && name !in d.rawIds && FirstFree(d.features, d.nextId).None? {
      FirstFreeIsFirst(d.features, d.nextId, d.nextId);
    }
  }

  /** Later allocations, for whatever name, leave a settled name settled. */
  lemma SettledStays(d: NodeDefs, other: string, name: string, local: u16, id: u16)
    requires WellFormed(d) && other != "" && other !in d.ids && IsSettled(d, name, local, id)
    ensures IsSettled(Allocate(d, other).0, name, local, id)
  {
    if IsHopeless(d, name) && name !in d.rawIds { FullStays(d, other); }
  }

  lemma FullStays(d: NodeDefs, other: string)
    requires WellFormed(d) && other != "" && FirstFree(d.features, d.nextId) == None
    ensures var t := Allocate(d, other).0;
            && FirstFree(t.features, t.nextId) == None && t.rawIds == d.rawIds && t.ids == d.ids
  {
    FirstFreeIsFirst(d.features, d.nextId, d.nextId);
    if other in d.rawIds { FullOverwritten(d.features, d.nextId, d.rawIds[other], other); }
  }

  lemma {:induction false} FullOverwritten(features: seq<string>, id: nat, at: nat, name: string)
    requires id <= 0x1_0000 && FirstFree(features, id) == None && at < |features| && name != ""
    ensures FirstFree(features[at := name], id) == None
    decreases 0x1_0000 - id
  {
    if id < 0x1_0000 { FullOverwritten(features, id + 1, at, name); }
  }

  /** In a corrected block every node has the id that its name has in the end, or keeps its number. */
  lemma {:induction false} CorrectMeaning(d: NodeDefs, nimap: map<nat, string>, local: seq<u16>, i: nat)
    requires WellFormed(d) && IsNameMap(nimap) && i < |local|
    ensures var (t, out) := Correct(d, nimap, local);
            if local[i] in nimap then IsSettled(t, nimap[local[i]], local[i], out[i]) else out[i] == local[i]
  {
    var n := |local| - 1;
    var (t, done) := Correct(d, nimap, local[..n]);
    if i == n {
      if local[n] in nimap { CorrectOneSettles(t, nimap, local[n]); }
    } else {
      CorrectMeaning(d, nimap, local[..n], i);
      assert local[..n][i] == local[i] && Correct(d, nimap, local).1[i] == done[i];
      if local[i] in nimap && local[n] in nimap && nimap[local[n]] !in t.ids {
        SettledStays(t, nimap[local[n]], nimap[local[i]], local[i], done[i]);
      }
    }
  }

  // ----- save, then load -----

  lemma StoredNamesOk(d: NodeDefs, seen: seq<u16>)
    requires WellFormed(d)
    ensures IsNameMap(StoredNames(d, seen))
  {}

  /**
   * A block saved under one table and loaded under any other: a named node gets the id its name has after loading, or
   * keeps its number if the name cannot have one; a node whose content had no name keeps its number.
   */
  lemma SaveThenLoad(saver: NodeDefs, loader: NodeDefs, nodes: seq<MapNode>, saved: seq<MapNode>,
                     nimap: map<nat, string>, i: nat)
    requires WellFormed(saver) && WellFormed(loader) && i < |nodes|
    requires IsSaved(saver, nodes, saved, nimap) && IsNameMap(nimap)
    ensures var name := Name(saver, nodes[i].param0);
            var (t, out) := Correct(loader, nimap, Contents(saved));
            if name != "" then IsSettled(t, name, saved[i].param0, out[i]) else out[i] == saved[i].param0
  {
    CorrectMeaning(loader, nimap, Contents(saved), i);
  }

  /** Every name leads to an id that is called by it; an alias breaks this. */
  ghost predicate IsHonest(d: NodeDefs) {
    && (forall n :: n in d.ids ==> n != "" && d.ids[n] < |d.features| && d.features[d.ids[n]] == n)
    && (forall n :: n in d.rawIds ==> d.rawIds[n] < |d.features| && d.features[d.rawIds[n]] == n)
  }

  lemma AllocateHonest(d: NodeDefs, name: string)
    requires WellFormed(d) && IsHonest(d) && name != "" && name !in d.ids
    ensures IsHonest(Allocate(d, name).0)
  {}

  lemma {:induction false} CorrectHonest(d: NodeDefs, nimap: map<nat, string>, local: seq<u16>)
    requires WellFormed(d) && IsHonest(d) && IsNameMap(nimap)
    ensures IsHonest(Correct(d, nimap, local).0)
  {
    if local != [] {
      var n := |local| - 1;
      CorrectHonest(d, nimap, local[..n]);
      var t := Correct(d, nimap, local[..n]).0;
      if local[n] in nimap && nimap[local[n]] !in t.ids { AllocateHonest(t, nimap[local[n]]); }
    }
  }

  /** Renumbering preserves meaning: without aliases, a named node whose name has an id afterwards keeps its name. */
  lemma NamesSurvive(saver: NodeDefs, loader: NodeDefs, nodes: seq<MapNode>, saved: seq<MapNode>,
                     nimap: map<nat, string>, i: nat)
    requires WellFormed(saver) && WellFormed(loader) && IsHonest(loader) && i < |nodes|
    requires IsSaved(saver, nodes, saved, nimap) && IsNameMap(nimap)
    requires Name(saver, nodes[i].param0) != ""
    requires Lookup(Correct(loader, nimap, Contents(saved)).0, Name(saver, nodes[i].param0)).Some?
    ensures var (t, out) := Correct(loader, nimap, Contents(saved)); Name(t, out[i]) == Name(saver, nodes[i].param0)
  {
    SaveThenLoad(saver, loader, nodes, saved, nimap, i);
    CorrectHonest(loader, nimap, Contents(saved));
  }

  /** Every name among the contents has an id; contents without a name may be among them. */
  ghost predicate NamesKnown(d: NodeDefs, s: seq<u16>)
    requires WellFormed(d)
  {
    forall i :: 0 <= i < |s| && Name(d, s[i]) != "" ==> Name(d, s[i]) in d.ids
  }

  /** The table leads the content's name back to it; without a name, the content is its own number. */
  ghost predicate ComesBack(d: NodeDefs, c: u16, seen: seq<u16>)
    requires WellFormed(d)
  {
    if Name(d, c) == "" then c < |seen| && seen[c] == c
    else Name(d, c) in d.ids && d.ids[Name(d, c)] == c
  }

  /**
   * Loading under the table that saved, which knows the names it gave out: nothing is allocated, and the block is the
   * same exactly when each of its contents comes back.
   */
  lemma SameTable(d: NodeDefs, nodes: seq<MapNode>, saved: seq<MapNode>, nimap: map<nat, string>)
    requires WellFormed(d) && IsSaved(d, nodes, saved, nimap) && IsNameMap(nimap) && NamesKnown(d, Contents(nodes))
    ensures var (t, out) := Correct(d, nimap, Contents(saved));
            && t == d
            && (out == Contents(nodes) <==>
                  forall i :: 0 <= i < |nodes| ==> ComesBack(d, nodes[i].param0, FirstSeen(Contents(nodes))))
  {
    var seen := FirstSeen(Contents(nodes));
    forall i | 0 <= i < |saved| && Contents(saved)[i] in nimap
      ensures nimap[Contents(saved)[i]] in d.ids
    {
      assert Contents(nodes)[i] == nodes[i].param0;
    }
    NothingAllocated(d, nimap, Contents(saved));
    FirstSeenMeaning(Contents(nodes));
    var out := Correct(d, nimap, Contents(saved)).1;
    forall i | 0 <= i < |nodes| ensures out[i] == nodes[i].param0 <==> ComesBack(d, nodes[i].param0, seen) {
      SaveThenLoad(d, d, nodes, saved, nimap, i);
    }
  }

  /** A block of one content without a name is read back as content 0, under whatever table. */
  lemma NamelessBecomesNumber(saver: NodeDefs, loader: NodeDefs, node: MapNode, saved: seq<MapNode>,
                              nimap: map<nat, string>)
    requires WellFormed(saver) && WellFormed(loader) && Name(saver, node.param0) == ""
    requires IsSaved(saver, [node], saved, nimap) && IsNameMap(nimap)
    ensures Correct(loader, nimap, Contents(saved)).1 == [0]
  {
    assert Contents([node]) == [node.param0] && [node.param0][..0] == [];
    assert FirstSeen([node.param0]) == [node.param0];
    SaveThenLoad(saver, loader, [node], saved, nimap, 0);
  }

  /** A content that was never registered comes back as the unknown node that the saving table names. */
  lemma UnregisteredBecomesUnknown(d: NodeDefs, nodes: seq<MapNode>, saved: seq<MapNode>, nimap: map<nat, string>,
                                   i: nat)
    requires WellFormed(d) && IsSaved(d, nodes, saved, nimap) && IsNameMap(nimap) && NamesKnown(d, Contents(nodes))
    requires i < |nodes| && nodes[i].param0 >= |d.features|
    requires var name := d.features[CONTENT_UNKNOWN]; name != "" && name in d.ids && d.ids[name] == CONTENT_UNKNOWN
    ensures Correct(d, nimap, Contents(saved)).1[i] == CONTENT_UNKNOWN
  {
    SameTable(d, nodes, saved, nimap);
    SaveThenLoad(d, d, nodes, saved, nimap, i);
  }

  lemma {:induction false} NothingAllocated(d: NodeDefs, nimap: map<nat, string>, local: seq<u16>)
    requires WellFormed(d) && IsNameMap(nimap)
    requires forall i :: 0 <= i < |local| && local[i] in nimap ==> nimap[local[i]] in d.ids
    ensures Correct(d, nimap, local).0 == d
  {
    if local != [] { NothingAllocated(d, nimap, local[..|local| - 1]); }
  }

  // ----- the program -----

  /** The table of numbers given so far agrees with the contents seen so far. */
  ghost predicate IsMapping(mapping: seq<u16>, seen: seq<u16>) {
    && |mapping| == 0x1_0000
    && (forall k :: 0 <= k < |seen| ==> mapping[seen[k]] == k)
    && (forall g: u16 :: mapping[g] != NO_MAPPING ==> g in seen)
  }

  lemma MappingStep(mapping: seq<u16>, seen: seq<u16>, content: u16)
    requires IsMapping(mapping, seen) && mapping[content] == NO_MAPPING && |seen| < NO_MAPPING
    ensures content !in seen && IsMapping(mapping[content := |seen|], seen + [content])
  {}

  lemma StoredNamesStep(d: NodeDefs, seen: seq<u16>, content: u16)
    requires WellFormed(d)
    ensures StoredNames(d, seen + [content]) ==
            if Name(d, content) == "" then StoredNames(d, seen) else StoredNames(d, seen)[|seen| := Name(d, content)]
  {}

  /** The loop's state after `i` nodes. */
  ghost predicate Renumbered(nodes: seq<MapNode>, was: seq<MapNode>, seen: seq<u16>, i: nat)
    requires i <= |nodes| == |was|
  {
    Numbers(nodes[..i], was[..i], seen) && nodes[i..] == was[i..]
  }

  lemma RenumberedStep(nodes: seq<MapNode>, was: seq<MapNode>, seen: seq<u16>, seen': seq<u16>, i: nat, id: u16)
    requires |nodes| == |was| && i < |nodes| && Renumbered(nodes, was, seen, i)
    requires seen <= seen' && id < |seen'| && seen'[id] == was[i].param0
    ensures Renumbered(nodes[i := nodes[i].(param0 := id)], was, seen', i + 1)
  {
    assert nodes[i] == nodes[i..][0] == was[i..][0] == was[i];
    var after := nodes[i := nodes[i].(param0 := id)];
    assert after[i + 1..] == nodes[i..][1..] && was[i + 1..] == was[i..][1..];
    forall k | 0 <= k < i ensures after[..i + 1][k] == nodes[..i][k] && was[..i + 1][k] == was[..i][k] {}
  }

  /** Saving: the number of nodes in a block is 4096; any count below the sentinel will do. */
  method GetBlockNodeIdMapping(nodedef: NodeDefs, nodes: array<MapNode>) returns (nimap: map<nat, string>)
    requires WellFormed(nodedef) && nodes.Length <= NO_MAPPING
    modifies nodes
    ensures IsSaved(nodedef, old(nodes[..]), nodes[..], nimap) && IsNameMap(nimap)
  {
    var mapping := new u16[0x1_0000](i => NO_MAPPING);
    ghost var was, seen := nodes[..], [];
    var idCounter: u16 := 0;
    nimap := map[];
    assert StoredNames(nodedef, seen) == map[] && Renumbered(nodes[..], was, seen, 0);
    hide StoredNames, Renumbered;
    for i := 0 to nodes.Length
      invariant seen == FirstSeen(Contents(was)[..i]) && idCounter == |seen| <= i
      invariant IsMapping(mapping[..], seen) && nimap == StoredNames(nodedef, seen)
      invariant Renumbered(nodes[..], was, seen, i)
    {
      assert nodes[i] == nodes[..][i..][0] == was[i..][0] == was[i];
      assert Contents(was)[..i + 1][..i] == Contents(was)[..i];
      var globalId, id := nodes[i].param0, CONTENT_IGNORE;
      ghost var before := seen;
      if mapping[globalId] != NO_MAPPING {
        id := mapping[globalId];
      } else {
        MappingStep(mapping[..], seen, globalId);
        StoredNamesStep(nodedef, seen, globalId);
        id := idCounter;
        idCounter := idCounter + 1;
        mapping[globalId] := id;
        seen := seen + [globalId];
        var name := Name(nodedef, globalId);
        if name != "" { nimap := nimap[id as nat := name]; }
      }
      RenumberedStep(nodes[..], was, before, seen, i, id);
      nodes[i] := nodes[i].(param0 := id);
    }
    assert nodes[..nodes.Length] == nodes[..] && was[..nodes.Length] == was;
    assert Contents(was)[..nodes.Length] == Contents(was);
    StoredNamesOk(nodedef, seen);
  }

  class NodeDefManager {
    var defs: NodeDefs

    constructor (defs: NodeDefs)
      ensures this.defs == defs
    {
      this.defs := defs;
    }

    method GetId(name: string) returns (id: Option<u16>)
      ensures id == if name in defs.ids then Some(defs.ids[name]) else None
    {
      id := if name in defs.ids then Some(defs.ids[name]) else None;
    }

    method AllocateUnknownNodeId(name: string) returns (id: u16)
      requires WellFormed(defs) && name != ""
      modifies this
      ensures (defs, id) == Allocate(old(defs), name)
    {
      var (t, got) := Allocate(defs, name);
      defs, id := t, got;
    }
  }

  /** The contents of the block while loading: `done` for the nodes before `i`, untouched from there on. */
  ghost predicate Corrected(nodes: seq<MapNode>, was: seq<MapNode>, done: seq<u16>, i: nat)
    requires i <= |nodes| == |was| && |done| == i
  {
    && (forall k :: 0 <= k < i ==> nodes[k] == was[k].(param0 := done[k]))
    && (forall k :: i <= k < |nodes| ==> nodes[k] == was[k])
  }

  lemma CorrectedStep(nodes: seq<MapNode>, was: seq<MapNode>, done: seq<u16>, i: nat, id: u16)
    requires i < |nodes| == |was| && |done| == i && Corrected(nodes, was, done, i)
    ensures Corrected(nodes[i := nodes[i].(param0 := id)], was, done + [id], i + 1)
    ensures id == was[i].param0 ==> Corrected(nodes, was, done + [id], i + 1)
  {}

  /** The lookups for one node: the id for its number, or none when the node is to keep it. */
  method ResolveId(nimap: map<nat, string>, localId: u16, nodedef: NodeDefManager) returns (globalId: Option<u16>)
    requires WellFormed(nodedef.defs) && IsNameMap(nimap)
    modifies nodedef
    ensures (nodedef.defs, if globalId.Some? then globalId.value else localId) ==
        CorrectOne(old(nodedef.defs), nimap, localId)
  {
    if localId as nat !in nimap { return None; }
    var name := nimap[localId as nat];
    globalId := nodedef.GetId(name);
    if globalId.None? {
      var id := nodedef.AllocateUnknownNodeId(name);
      if id != CONTENT_IGNORE { globalId := Some(id); }
    }
  }

  method CorrectBlockNodeIds(nimap: map<nat, string>, nodes: array<MapNode>, nodedef: NodeDefManager)
    requires WellFormed(nodedef.defs) && IsNameMap(nimap)
    modifies nodes, nodedef
    ensures var (t, out) := Correct(old(nodedef.defs), nimap, Contents(old(nodes[..])));
            nodedef.defs == t && Corrected(nodes[..], old(nodes[..]), out, nodes.Length)
  {
    ghost var was, start := nodes[..], nodedef.defs;
    ghost var local, done := Contents(was), [];
    var previousExists, previousLocalId, previousGlobalId := false, CONTENT_IGNORE, CONTENT_IGNORE;
    for i := 0 to nodes.Length
      invariant WellFormed(nodedef.defs) && (nodedef.defs, done) == Correct(start, nimap, local[..i])
      invariant |done| == i && Corrected(nodes[..], was, done, i)
      invariant previousExists ==> CorrectOne(nodedef.defs, nimap, previousLocalId) == (nodedef.defs, previousGlobalId)
    {
      assert local[..i + 1][..i] == local[..i];
      var localId := nodes[i].param0;
      ghost var (t, id) := CorrectOne(nodedef.defs, nimap, localId);
      CorrectTwice(nodedef.defs, nimap, localId);
      CorrectedStep(nodes[..], was, done, i, id);
      done := done + [id];
      if previousExists && localId == previousLocalId {
        nodes[i] := nodes[i].(param0 := previousGlobalId);
        continue;
      }
      var globalId := ResolveId(nimap, localId, nodedef);
      if globalId.None? {
        previousExists := false;
        continue;
      }
      nodes[i] := nodes[i].(param0 := globalId.value);
      previousLocalId, previousGlobalId, previousExists := localId, globalId.value, true;
    }
    assert local[..nodes.Length] == local;
  }

  /** A block through the disk: what `data` held is read back, with ids by name and params as they were. */
  lemma BlockThroughDisk(saver: NodeDefs, loader: NodeDefs, data: seq<MapNode>, saved: seq<MapNode>,
                         nimap: map<nat, string>,
                         databuf: seq<u8>, read: seq<MapNode>, back: seq<MapNode>, i: nat)
    requires WellFormed(saver) && IsSaved(saver, data, saved, nimap) && IsNameMap(nimap)
    requires IsBulk(databuf, saved, map[]) && IsBulk(databuf, read, map[])
    requires WellFormed(loader) && |back| == |read| && i < |data|
    requires Corrected(back, read, Correct(loader, nimap, Contents(read)).1, |read|)
    ensures |back| == |data| && back[i].param1 == data[i].param1 && back[i].param2 == data[i].param2
    ensures var name := Name(saver, data[i].param0);
            name != "" ==> IsSettled(Correct(loader, nimap, Contents(read)).0, name, saved[i].param0, back[i].param0)
  {
    RoundTrip(databuf, saved, map[], read);
    SaveThenLoad(saver, loader, data, saved, nimap, i);
  }
}
