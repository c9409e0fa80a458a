/**
 * The craft definition manager. A definition pointer is its registration number; `defs` holds what it points to.
 */
module CraftManager {
  import opened CraftItems
  import opened CraftDefs
  import opened CraftIndex
  import opened CraftRanking
  import opened NameOrder
  import opened Options
  import opened ShapedTranslation

  // ----- the simple form: one scan over all recipes -----

  /** The recipe applies and its output is a known item. */
  ghost predicate Candidate(def: CraftDef, input: CraftInput, idef: ItemDefs) {
    Applies(def, input, idef) && idef.known(OutputName(def, input, idef))
  }

  predicate IsVacant(input: CraftInput) {
    forall i :: 0 <= i < |input.items| ==> input.items[i].count == 0
  }

  ghost function Candidates(defs: seq<CraftDef>, input: CraftInput, idef: ItemDefs): set<nat> {
    set k: nat | k < |defs| && Candidate(defs[k], input, idef)
  }

  function Priorities(defs: seq<CraftDef>): (r: seq<nat>)
    ensures |r| == |defs| && forall k :: 0 <= k < |r| ==> r[k] == Priority(defs[k])
  {
    seq(|defs|, k requires 0 <= k < |defs| => Priority(defs[k]))
  }

  ghost function Scan(defs: seq<CraftDef>, input: CraftInput, idef: ItemDefs): Option<nat> {
    ScanFirst(Priorities(defs), Candidates(defs, input, idef), |defs|)
  }

  /** What crafting returns: nothing for an empty grid, otherwise the scan's choice. */
  ghost function ScanResult(defs: seq<CraftDef>, input: CraftInput, idef: ItemDefs): Option<nat> {
    if IsVacant(input) then None else Scan(defs, input, idef)
  }

  /**
   * An output counts if the item behind its name is known; a repaired tool is the one that lies in both slots, and fuel
   * makes the hand.
   */
  lemma CandidateMeaning(def: CraftDef, input: CraftInput, idef: ItemDefs)
    ensures var known := (output: string) => idef.known(idef.resolve(output));
            Candidate(def, input, idef) <==>
              match def
              case ShapedDef(output, width, recipe) => Shaped.Applies(recipe, width, input, idef) && known(output)
              case ShapelessDef(output, recipe) => Shapeless.Applies(recipe, input, idef) && known(output)
              case ToolRepairDef(wear) => input.craft == Normal && exists i: nat, j: nat ::
                  IsRepairPair(wear, input.items, i, j, idef) && known(input.items[i].name)
              case CookingDef(output, item) =>
                input.craft == Cook && known(output) && exists i :: IsOnlyItem(item, input.items, i, idef)
              case FuelDef(item) =>
                input.craft == Burn && known("") && exists i :: IsOnlyItem(item, input.items, i, idef)
  {
    match def {
      case ToolRepairDef(wear) => RepairedTool(wear, input, idef);
      case CookingDef(_, item) => SingleItemMeaning(Cook, item, input, idef);
      case FuelDef(item) => SingleItemMeaning(Burn, item, input, idef);
      case _ =>
    }
  }

  lemma RepairedTool(wear: real, input: CraftInput, idef: ItemDefs)
    ensures ToolRepairApplies(wear, input, idef) && idef.known(OutputName(ToolRepairDef(wear), input, idef)) <==>
            input.craft == Normal && exists i: nat, j: nat ::
                IsRepairPair(wear, input.items, i, j, idef) && idef.known(idef.resolve(input.items[i].name))
  {
    ToolRepairMeaning(wear, input, idef);
    forall i: nat, j: nat | IsRepairPair(wear, input.items, i, j, idef)
      ensures Stacks(input.items) == [input.items[i], input.items[j]]
    {
      PairStacks(input.items, i, j);
    }
  }

  // ----- which kind of recipe wins -----

  /** Of the same kind, and both with group entries or both without. */
  predicate SameClass(a: CraftDef, b: CraftDef) {
    match (a, b)
    case (ShapedDef(_, _, r), ShapedDef(_, _, q)) => HasGroup(r) == HasGroup(q)
    case (ShapelessDef(_, r), ShapelessDef(_, q)) => HasGroup(r) == HasGroup(q)
    case (CookingDef(_, r), CookingDef(_, q)) => IsGroup(r) == IsGroup(q)
    case (ToolRepairDef(_), ToolRepairDef(_)) => true
    case _ => false
  }

  /**
   * `d` may be chosen although `c` is there, too: shaped recipes come before shapeless ones and those before tool
   * repair; within a kind, recipes without groups come before those with groups.
   */
  predicate NotBehind(d: CraftDef, c: CraftDef) {
    match c
    case ShapedDef(_, _, recipe) => d.ShapedDef? && (HasGroup(d.recipe) ==> HasGroup(recipe))
    case ShapelessDef(_, recipe) => d.ShapedDef? || (d.ShapelessDef? && (HasGroup(d.recipe) ==> HasGroup(recipe)))
    case ToolRepairDef(_) => !d.CookingDef? && !d.FuelDef?
    case CookingDef(_, item) => d.CookingDef? && (IsGroup(d.item) ==> IsGroup(item))
    case FuelDef(_) => d.FuelDef?
  }

  /** Not behind any other candidate, and the latest registered of its class. */
  ghost predicate IsChoice(defs: seq<CraftDef>, among: set<nat>, best: nat) {
    && best in among && best < |defs|
    && forall k ::
          k in among && k < |defs| ==> NotBehind(defs[best], defs[k]) && (SameClass(defs[best], defs[k]) ==> k <= best)
  }

  /** Outside fuel, the scan finds a recipe exactly when there is a candidate, and then the one the order says. */
  lemma ScanChooses(defs: seq<CraftDef>, input: CraftInput, idef: ItemDefs)
    requires input.craft != Burn
    ensures var among, best := Candidates(defs, input, idef), Scan(defs, input, idef);
            && (best.None? <==> among == {})
            && (best.Some? ==> IsChoice(defs, among, best.value))
  {
    var among, best := Candidates(defs, input, idef), Scan(defs, input, idef);
    KindsApart(defs, input, idef);
    hide Candidates, HasGroup, IsGroup, Priority, NotBehind, SameClass;
    if best.Some? {
      forall k | k in among
        ensures NotBehind(defs[best.value], defs[k]) && (SameClass(defs[best.value], defs[k]) ==> k <= best.value)
      {
        assert ScanPrefers(Priorities(defs), best.value, k);
        PriorityOrder(defs[best.value], defs[k]);
      }
    }
  }

  predicate IsFor(def: CraftDef, craft: CraftMethod) {
    if def.CookingDef? then craft == Cook else if def.FuelDef? then craft == Burn else craft == Normal
  }

  lemma KindsApart(defs: seq<CraftDef>, input: CraftInput, idef: ItemDefs)
    ensures forall k :: k in Candidates(defs, input, idef) ==> k < |defs| && IsFor(defs[k], input.craft)
  {}

  lemma PriorityOrder(d: CraftDef, c: CraftDef)
    requires !d.FuelDef? && (IsFor(d, Cook) <==> IsFor(c, Cook)) && (IsFor(d, Burn) <==> IsFor(c, Burn))
    ensures Priority(c) <= Priority(d) ==> NotBehind(d, c)
    ensures SameClass(d, c) ==> Priority(c) == Priority(d)
  {}

  // ----- the index -----

  type Key = (HashType, nat)

  /** The layer and bucket of every definition. */
  function Keys(defs: seq<CraftDef>, idef: ItemDefs, murmur: string -> nat): (r: seq<Key>)
    ensures |r| == |defs| && forall k :: 0 <= k < |r| ==> r[k] == (Layer(defs[k], idef), Bucket(defs[k], idef, murmur))
  {
    seq(|defs|, k requires 0 <= k < |defs| => (Layer(defs[k], idef), Bucket(defs[k], idef, murmur)))
  }

  type Table = map<nat, seq<nat>>

  function At(table: Table, h: nat): seq<nat> {
    if h in table then table[h] else []
  }

  /** A layer's table holds the first `hashed` definitions of its kind, each in its bucket. */
  ghost predicate IsLayer(table: Table, keys: seq<Key>, hashed: nat, kind: HashType) {
    hashed <= |keys| && forall h :: HoldsBucket(table, keys, hashed, (kind, h))
  }

  ghost predicate HoldsBucket(table: Table, keys: seq<Key>, hashed: nat, key: Key)
    requires hashed <= |keys|
  {
    At(table, key.1) == Filed(keys, hashed, key)
  }

  /** Filing definition `n` changes one bucket of one layer. */
  lemma FileOne(table: Table, keys: seq<Key>, n: nat, kind: HashType)
    requires n < |keys| && IsLayer(table, keys, n, kind)
    ensures keys[n].0 == kind ==> IsLayer(Append(table, keys[n].1, n), keys, n + 1, kind)
    ensures keys[n].0 != kind ==> IsLayer(table, keys, n + 1, kind)
  {
    var h := keys[n].1;
    var next := Append(table, h, n);
    forall g
      ensures keys[n].0 == kind ==> HoldsBucket(next, keys, n + 1, (kind, g))
      ensures keys[n].0 != kind ==> HoldsBucket(table, keys, n + 1, (kind, g))
    {
      assert HoldsBucket(table, keys, n, (kind, g));
      assert At(next, g) == if g == h then At(table, h) + [n] else At(table, g);
    }
  }

  lemma LayerPrefix(table: Table, keys: seq<Key>, key: Key, n: nat, kind: HashType)
    requires IsLayer(table, keys, n, kind)
    ensures IsLayer(table, keys + [key], n, kind)
  {
    forall h ensures HoldsBucket(table, keys + [key], n, (kind, h)) {
      assert HoldsBucket(table, keys, n, (kind, h));
      FiledPrefix(keys, [key], n, (kind, h));
    }
  }

  function Append(table: Table, h: nat, k: nat): Table {
    table[h := At(table, h) + [k]]
  }

  function Interval(lo: nat, hi: nat): (r: seq<nat>)
    requires lo <= hi
    ensures |r| == hi - lo && forall i :: 0 <= i < |r| ==> r[i] == lo + i
  {
    seq(hi - lo, i requires 0 <= i => lo + i)
  }

  lemma IntervalStep(lo: nat, hi: nat)
    requires lo <= hi
    ensures Interval(lo, hi + 1) == Interval(lo, hi) + [hi]
  {}

  lemma KeysStep(defs: seq<CraftDef>, def: CraftDef, idef: ItemDefs, murmur: string -> nat)
    ensures Keys(defs + [def], idef, murmur) ==
        Keys(defs, idef, murmur) + [(Layer(def, idef), Bucket(def, idef, murmur))]
  {}

  /** The layer a definition is in right now, when the first `hashed` ones have been hashed. */
  function CurrentLayer(defs: seq<CraftDef>, hashed: nat, k: nat, idef: ItemDefs): nat
    requires k < |defs|
  {
    if k >= hashed then 2 else if Layer(defs[k], idef) == ItemNames then 0 else 1
  }

  function LayerKind(t: nat): HashType {
    if t == 0 then ItemNames else if t == 1 then Count else Unhashed
  }

  /** A candidate that the lookup gets to see. */
  ghost predicate IsEligible(defs: seq<CraftDef>, hashed: nat, k: nat, input: CraftInput, idef: ItemDefs,
                             murmur: string -> nat)
    requires k < |defs|
  {
    Candidate(defs[k], input, idef)
    && (k < hashed ==> Bucket(defs[k], idef, murmur) == Probe(Layer(defs[k], idef), input, murmur))
  }

  /** What the lookup compares when the first `hashed` definitions are in the hashed layers. */
  ghost function RanksOf(defs: seq<CraftDef>, hashed: nat, input: CraftInput, idef: ItemDefs,
                         murmur: string -> nat): (r: Ranks)
    ensures r.Valid() && |r.layer| == |defs|
    ensures forall k :: 0 <= k < |defs| ==> r.layer[k] == CurrentLayer(defs, hashed, k, idef)
  {
    Ranks((set k: nat | k < |defs| && IsEligible(defs, hashed, k, input, idef, murmur)), Priorities(defs),
          seq(|defs|, k requires 0 <= k < |defs| => CurrentLayer(defs, hashed, k, idef)))
  }

  lemma FiledIsBucket(defs: seq<CraftDef>, hashed: nat, t: nat, input: CraftInput, idef: ItemDefs,
                      murmur: string -> nat)
    requires hashed <= |defs| && t < 2
    ensures IsBucket(Filed(Keys(defs, idef, murmur), hashed, (LayerKind(t), Probe(LayerKind(t), input, murmur))),
                     RanksOf(defs, hashed, input, idef, murmur), t)
  {
    FiledMeaning(Keys(defs, idef, murmur), hashed, (LayerKind(t), Probe(LayerKind(t), input, murmur)));
  }

  lemma RestIsBucket(defs: seq<CraftDef>, hashed: nat, input: CraftInput, idef: ItemDefs, murmur: string -> nat)
    requires hashed <= |defs|
    ensures IsBucket(Interval(hashed, |defs|), RanksOf(defs, hashed, input, idef, murmur), 2)
  {
    var bucket := Interval(hashed, |defs|);
    forall k: nat | hashed <= k < |defs| ensures k in bucket { assert bucket[k - hashed] == k; }
  }

  /** The first `hashed` definitions have run `initHash`. */
  ghost predicate IsStored(stored: seq<Option<seq<string>>>, defs: seq<CraftDef>, hashed: nat, idef: ItemDefs) {
    |stored| == |defs| && forall k ::
        0 <= k < |defs| ==> stored[k] == if k < hashed then Some(StoredNames(defs[k], idef)) else None
  }

  lemma StoredStep(stored: seq<Option<seq<string>>>, defs: seq<CraftDef>, n: nat, idef: ItemDefs)
    requires IsStored(stored, defs, n, idef) && n < |defs|
    ensures IsStored(stored[n := Some(StoredNames(defs[n], idef))], defs, n + 1, idef)
  {}

  lemma RegisterStored(stored: seq<Option<seq<string>>>, defs: seq<CraftDef>, n: nat, def: CraftDef, idef: ItemDefs)
    requires IsStored(stored, defs, n, idef) && n <= |defs|
    ensures IsStored(stored + [None], defs + [def], n, idef)
  {}

  /** The tables of the two hashed layers hold exactly the hashed definitions. */
  ghost predicate IsHashed(keys: seq<Key>, layers: seq<Table>, hashed: nat) {
    |layers| == 3 && IsLayer(layers[0], keys, hashed, ItemNames) && IsLayer(layers[1], keys, hashed, Count)
  }

  lemma HashOneKeeps(keys: seq<Key>, layers: seq<Table>, hashed: nat, t: nat)
    requires IsHashed(keys, layers, hashed) && hashed < |keys|
    requires keys[hashed].0 == LayerKind(t) && t < 2
    ensures IsHashed(keys, layers[t := Append(layers[t], keys[hashed].1, hashed)], hashed + 1)
  {
    FileOne(layers[0], keys, hashed, ItemNames);
    FileOne(layers[1], keys, hashed, Count);
  }

  lemma RegisterKeeps(keys: seq<Key>, layers: seq<Table>, hashed: nat, key: Key, table: Table)
    requires IsHashed(keys, layers, hashed)
    ensures IsHashed(keys + [key], layers[2 := table], hashed)
  {
    LayerPrefix(layers[0], keys, key, hashed, ItemNames);
    LayerPrefix(layers[1], keys, key, hashed, Count);
  }

  class CraftDefManager {
    const idef: ItemDefs
    const murmur: string -> nat
    var defs: seq<CraftDef>
    /** What `initHash` stored in each definition, if it ran. */
    var stored: seq<Option<seq<string>>>
    /** The tables of the three layers. */
    var layers: seq<Table>
    /** How many definitions have been hashed. */
    ghost var hashed: nat
    /** Where each definition belongs. */
    ghost var keys: seq<Key>

    /** What holds also while `InitHashes` is moving definitions. */
    ghost predicate Filing()
      reads this
    {
      keys == Keys(defs, idef, murmur) && IsHashed(keys, layers, hashed) && IsStored(stored, defs, hashed, idef)
    }

    ghost predicate Valid()
      reads this
    {
      Filing() && At(layers[2], 0) == Interval(hashed, |defs|)
    }

    constructor (idef: ItemDefs, murmur: string -> nat)
      ensures Valid() && defs == [] && hashed == 0
      ensures this.idef == idef && this.murmur == murmur
    {
      this.idef := idef;
      this.murmur := murmur;
      defs, stored, hashed, keys := [], [], 0, [];
      layers := [map[], map[], map[]];
    }

    method RegisterCraft(def: CraftDef)
      requires Valid()
      modifies this
      ensures Valid() && defs == old(defs) + [def] && hashed == old(hashed)
    {
      KeysStep(defs, def, idef, murmur);
      RegisterStored(stored, defs, hashed, def, idef);
      EnterUnhashed(|defs|, (Layer(def, idef), Bucket(def, idef, murmur)));
      stored := stored + [None];
      defs := defs + [def];
    }

    method EnterUnhashed(def: nat, ghost key: Key)
      requires IsHashed(keys, layers, hashed) && hashed <= def && At(layers[2], 0) == Interval(hashed, def)
      modifies this`layers, this`keys
      ensures IsHashed(keys, layers, hashed) && At(layers[2], 0) == Interval(hashed, def + 1)
      ensures keys == old(keys) + [key]
    {
      IntervalStep(hashed, def);
      RegisterKeeps(keys, layers, hashed, key, Append(layers[2], 0, def));
      keys := keys + [key];
      layers := layers[2 := Append(layers[2], 0, def)];
    }

    /** `initHashes`: moves every definition from the unhashed layer to its own. */
    method InitHashes()
      requires Valid()
      modifies this
      ensures Valid() && defs == old(defs) && hashed == |defs|
    {
      var unhashed := At(layers[2], 0);
      ghost var start := hashed;
      for i := 0 to |unhashed|
        invariant defs == old(defs) && hashed == start + i && Filing()
      {
        HashOne(unhashed[i]);
      }
      layers := layers[2 := layers[2][0 := []]];
    }

    /** `initHash` on one definition, and its entry in the layer it chose. */
    method HashOne(def: nat)
      requires Filing() && def == hashed < |defs|
      modifies this
      ensures Filing() && defs == old(defs) && hashed == old(hashed) + 1
    {
      StoredStep(stored, defs, hashed, idef);
      stored := stored[def := Some(StoredNames(defs[def], idef))];
      EnterDefinition(Layer(defs[def], idef), Bucket(defs[def], idef, murmur), def);
    }

    method EnterDefinition(kind: HashType, hash: nat, def: nat)
      requires IsHashed(keys, layers, hashed) && def == hashed < |keys| && keys[def] == (kind, hash) && kind != Unhashed
      modifies this`layers, this`hashed
      ensures IsHashed(keys, layers, hashed) && hashed == old(hashed) + 1
    {
      hide IsLayer, Append;
      var t := if kind == ItemNames then 0 else 1;
      HashOneKeeps(keys, layers, hashed, t);
      layers := layers[t := Append(layers[t], hash, def)];
      hashed := hashed + 1;
    }

    method Empty(input: CraftInput) returns (r: bool)
      ensures r == IsVacant(input)
    {
      for i := 0 to |input.items|
        invariant forall k :: 0 <= k < i ==> input.items[k].count == 0
      {
        if input.items[i].count != 0 { return false; }
      }
      return true;
    }

    /** `getCraftResult` without consuming the input: the registration number of the recipe it picks. */
    method GetCraftResult(input: CraftInput) returns (best: Option<nat>)
      requires Valid()
      ensures if forall i :: 0 <= i < |input.items| ==> input.items[i].count == 0 then best == None
          else IsBestOf(RanksOf(defs, hashed, input, idef, murmur), best, 3, [])
      ensures Comparable(defs, hashed, input, idef) ==> best == ScanResult(defs, input, idef)
      ensures Comparable(defs, hashed, input, idef) ==>
                var among := Candidates(defs, input, idef);
                && (best.None? <==> among == {} || forall i :: 0 <= i < |input.items| ==> input.items[i].count == 0)
                && (best.Some? ==> IsChoice(defs, among, best.value))
    {
      best := LookUp(input);
      if Comparable(defs, hashed, input, idef) && !IsVacant(input) {
        ScanChooses(defs, input, idef);
        IndexRefinesScan(defs, hashed, best, input, idef, murmur);
      }
    }

    method LookUp(input: CraftInput) returns (best: Option<nat>)
      requires Valid()
      ensures if IsVacant(input) then best == None
          else IsBestOf(RanksOf(defs, hashed, input, idef, murmur), best, 3, [])
    {
      var vacant := Empty(input);
      if vacant { return None; }
      var inputNames := Sort(Names(input.items));
      best := None;
      for t := 0 to 3
        invariant IsBestOf(RanksOf(defs, hashed, input, idef, murmur), best, t, [])
      {
        var hash := GetHashForGrid(LayerKind(t), inputNames, murmur);
        if hash in layers[t] {
          best := WalkBucket(t, hash, best, input);
        } else {
          BucketAt(t, input);
          WalkDone([], best, RanksOf(defs, hashed, input, idef, murmur), t);
        }
      }
    }

    lemma BucketAt(t: nat, input: CraftInput)
      requires Valid() && t < 3
      ensures IsBucket(At(layers[t], Probe(LayerKind(t), input, murmur)), RanksOf(defs, hashed, input, idef, murmur), t)
    {
      var h := Probe(LayerKind(t), input, murmur);
      if t < 2 {
        assert HoldsBucket(layers[t], keys, hashed, (LayerKind(t), h));
        FiledIsBucket(defs, hashed, t, input, idef, murmur);
      } else {
        assert At(layers[2], 0) == Interval(hashed, |defs|);
        RestIsBucket(defs, hashed, input, idef, murmur);
      }
    }

    lemma BucketFacts(t: nat, best: Option<nat>, input: CraftInput)
      requires Valid() && t < 3 && IsBestOf(RanksOf(defs, hashed, input, idef, murmur), best, t, [])
      ensures |layers| == 3 && (best.Some? ==> best.value < |defs|)
      ensures var bucket, ranks := At(layers[t], Probe(LayerKind(t), input, murmur)),
          RanksOf(defs, hashed, input, idef, murmur);
              IsBucket(bucket, ranks, t) && ranks.priority == Priorities(defs)
              && forall i :: 0 <= i < |bucket| ==> bucket[i] < |defs|
    {
      BucketAt(t, input);
    }

    /** The tests on one definition of the probed bucket: does it match, and is its output known? */
    method IsCandidate(t: nat, def: nat, input: CraftInput) returns (yes: bool)
      requires Valid() && t < 3 && def in At(layers[t], Probe(LayerKind(t), input, murmur)) && def < |defs|
      ensures yes <==> def in RanksOf(defs, hashed, input, idef, murmur).eligible
    {
      var applies := Check(defs[def], stored[def], input, idef);
      yes := applies && idef.known(OutputName(defs[def], input, idef));
      EligibleHere(t, def, input);
    }

    /** Searches one bucket, the latest definition first. */
    method WalkBucket(t: nat, hash: nat, best0: Option<nat>, input: CraftInput) returns (best: Option<nat>)
      requires Valid() && t < 3 && hash in layers[t] && hash == Probe(LayerKind(t), input, murmur)
      requires IsBestOf(RanksOf(defs, hashed, input, idef, murmur), best0, t, [])
      ensures IsBestOf(RanksOf(defs, hashed, input, idef, murmur), best, t + 1, [])
    {
      hide Valid, Keys, IsLayer, Filed, Interval, IsEligible, CurrentLayer, IsBestOf, IsBucket, RanksOf;
      BucketFacts(t, best0, input);
      ghost var ranks := RanksOf(defs, hashed, input, idef, murmur);
      var collisions := layers[t][hash];
      best := best0;
      var priorityBest := if best.Some? then Priority(defs[best.value]) else 0;
      assert collisions[|collisions|..] == [];
      for i := |collisions| downto 0
        invariant IsBestOf(ranks, best, t, collisions[i..]) && (best.Some? ==> best.value < |defs|)
        invariant priorityBest == if best.Some? then Priority(defs[best.value]) else 0
      {
        var def := collisions[i];
        var priority := Priority(defs[def]);
        ghost var before := best;
        if priority > priorityBest {
          var candidate := IsCandidate(t, def, input);
          if candidate {
            priorityBest := priority;
            best := Some(def);
          }
        }
        WalkStep(collisions, i, before, best, ranks, t);
      }
      assert collisions[0..] == collisions;
      WalkDone(collisions, best, ranks, t);
    }

    /** A candidate met in the probed bucket is eligible. */
    lemma EligibleHere(t: nat, k: nat, input: CraftInput)
      requires Valid() && t < 3 && k in At(layers[t], Probe(LayerKind(t), input, murmur))
      ensures k < |defs| && (Candidate(defs[k], input, idef) <==>
          k in RanksOf(defs, hashed, input, idef, murmur).eligible)
    {
      var h := Probe(LayerKind(t), input, murmur);
      if t < 2 {
        assert HoldsBucket(layers[t], keys, hashed, (LayerKind(t), h));
        FiledMeaning(Keys(defs, idef, murmur), hashed, (LayerKind(t), h));
      } else {
        assert At(layers[2], 0) == Interval(hashed, |defs|);
      }
    }
  }

  // ----- the index refines the scan -----

  ghost predicate AllCanonical(defs: seq<CraftDef>, idef: ItemDefs) {
    forall k :: 0 <= k < |defs| ==> Canonical(defs[k], idef)
  }

  /** Where the lookup and the scan agree: nothing hashed yet or everything hashed, and not a fuel lookup. */
  ghost predicate Comparable(defs: seq<CraftDef>, hashed: nat, input: CraftInput, idef: ItemDefs) {
    && HandMatchesNoGroup(idef) && WellCounted(input) && AllCanonical(defs, idef)
    && input.craft != Burn && (hashed == 0 || hashed == |defs|)
  }

  lemma CandidatesAreEligible(defs: seq<CraftDef>, hashed: nat, input: CraftInput, idef: ItemDefs,
                              murmur: string -> nat)
    requires HandMatchesNoGroup(idef) && WellCounted(input) && AllCanonical(defs, idef)
    ensures RanksOf(defs, hashed, input, idef, murmur).eligible == Candidates(defs, input, idef)
  {
    forall k: nat | k < |defs|
        ensures Candidate(defs[k], input, idef) == IsEligible(defs, hashed, k, input, idef, murmur) {
      if Candidate(defs[k], input, idef) { InBucket(defs[k], input, idef, murmur); }
    }
  }

  /**
   * Before any definition is hashed, and after all of them are, normal and cooking lookups answer exactly what the
   * scan answers, whatever the hash function.
   */
  lemma IndexRefinesScan(defs: seq<CraftDef>, hashed: nat, best: Option<nat>, input: CraftInput, idef: ItemDefs,
                         murmur: string -> nat)
    requires Comparable(defs, hashed, input, idef)
    requires IsBestOf(RanksOf(defs, hashed, input, idef, murmur), best, 3, [])
    ensures best == Scan(defs, input, idef)
  {
    var r := RanksOf(defs, hashed, input, idef, murmur);
    CandidatesAreEligible(defs, hashed, input, idef, murmur);
    forall j, k | j in r.eligible && k in r.eligible && r.priority[j] == r.priority[k]
        ensures r.layer[j] == r.layer[k] {
      PriorityDecidesLayer(defs[j], defs[k], input, idef);
    }
    WalkIsScan(r, best, 3);
  }

  // ----- fuel: one priority, two layers -----

  /**
   * A hashed fuel lookup agrees with the scan exactly when the latest matching fuel is an exact name, or no exact
   * name matches at all.
   */
  lemma FuelLookup(defs: seq<CraftDef>, best: Option<nat>, input: CraftInput, idef: ItemDefs, murmur: string -> nat)
    requires HandMatchesNoGroup(idef) && WellCounted(input) && AllCanonical(defs, idef) && input.craft == Burn
    requires IsBestOf(RanksOf(defs, |defs|, input, idef, murmur), best, 3, [])
    ensures var scan := Scan(defs, input, idef);
            best == scan <==>
              || scan.None?
              || Layer(defs[scan.value], idef) == ItemNames
              || forall k :: k in Candidates(defs, input, idef) ==> Layer(defs[k], idef) == Count
  {
    hide HandMatchesNoGroup, WellCounted, AllCanonical, IsEligible;
    var r := RanksOf(defs, |defs|, input, idef, murmur);
    CandidatesAreEligible(defs, |defs|, input, idef, murmur);
    var scan := Scan(defs, input, idef);
    forall k | k in r.eligible
      ensures r.priority[k] == 3 && (Layer(defs[k], idef) == ItemNames || Layer(defs[k], idef) == Count)
      ensures r.layer[k] == if Layer(defs[k], idef) == ItemNames then 0 else 1
    {
      assert defs[k].FuelDef?;
    }
    hide Candidates, RanksOf;
    OnePriority(r, best, 3);
  }

  const ONE_GROUP := ItemDefs(n => true, (n, g) => if n == "" then 0 else 1, n => false, n => n)
  const TWO_FUELS := [FuelDef("coal"), FuelDef("group:fuel")]
  const COAL := CraftInput(Burn, 1, [CraftItem("coal", 1, 0)])

  lemma CoalBurns()
    ensures Candidates(TWO_FUELS, COAL, ONE_GROUP) == {0, 1}
    ensures Layer(TWO_FUELS[0], ONE_GROUP) == ItemNames && Layer(TWO_FUELS[1], ONE_GROUP) == Count
  {
    assert Names(COAL.items) == ["coal"];
    assert NonEmpty(["coal"]) == ["coal"];
    assert IsGroup("group:fuel") && !IsGroup("coal") by { assert "group:fuel" == "group:" + "fuel"; }
    assert StoredNames(TWO_FUELS[0], ONE_GROUP) == ["coal"] && StoredNames(TWO_FUELS[1], ONE_GROUP) == ["group:fuel"];
    assert ["group:fuel"][0] == "group:fuel";
    forall k: nat | k < 2 ensures Candidate(TWO_FUELS[k], COAL, ONE_GROUP) {}
  }

  lemma CoalIsPlain()
    ensures HandMatchesNoGroup(ONE_GROUP) && WellCounted(COAL) && AllCanonical(TWO_FUELS, ONE_GROUP)
  {
    ShapedTranslation.HandWithoutGroups(ONE_GROUP);
  }

  /** The later group fuel wins the scan, but the exact name wins the hashed lookup. */
  lemma FuelIndexDiffers(best: Option<nat>, murmur: string -> nat)
    requires IsBestOf(RanksOf(TWO_FUELS, 2, COAL, ONE_GROUP, murmur), best, 3, [])
    ensures Scan(TWO_FUELS, COAL, ONE_GROUP) == Some(1) && best == Some(0)
  {
    CoalBurns();
    CoalIsPlain();
    hide HandMatchesNoGroup, WellCounted, AllCanonical, IsEligible, Candidates;
    var r := RanksOf(TWO_FUELS, 2, COAL, ONE_GROUP, murmur);
    CandidatesAreEligible(TWO_FUELS, 2, COAL, ONE_GROUP, murmur);
    assert Seen(r, 0, 3, []) && Seen(r, 1, 3, []);
    var scan := Scan(TWO_FUELS, COAL, ONE_GROUP);
    assert ScanPrefers(r.priority, scan.value, 1);
  }
}
