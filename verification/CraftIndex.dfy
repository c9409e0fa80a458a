/**
 * Why the hash index finds what a scan over all recipes finds: every recipe that applies lies in the bucket
 * probed for the input, and each priority lives in one layer.
 */
module CraftIndex {
  import opened CraftItems
  import opened CraftDefs
  import opened NameOrder
  import opened Permutations
  import Shaped
  import Shapeless
  import ShapedTranslation

  /** Empty stacks are exactly the nameless ones. */
  predicate WellCounted(input: CraftInput) {
    forall i :: 0 <= i < |input.items| ==> (input.items[i].count == 0 <==> input.items[i].name == "")
  }

  /** Resolving aliases does not change which kind of recipe this is; single-item recipes name the item itself. */
  predicate Canonical(def: CraftDef, idef: ItemDefs) {
    match def
    case ShapedDef(_, _, recipe) => HasGroup(recipe) == HasGroup(ResolveAll(recipe, idef))
    case ShapelessDef(_, recipe) => HasGroup(recipe) == HasGroup(ResolveAll(recipe, idef))
    case ToolRepairDef(_) => true
    case CookingDef(_, item) => idef.resolve(item) == item
    case FuelDef(item) => idef.resolve(item) == item
  }

  lemma {:induction false} NonEmptyMembers(names: seq<string>)
    ensures forall i :: 0 <= i < |NonEmpty(names)| ==> NonEmpty(names)[i] != "" && NonEmpty(names)[i] in names
  {
    if names != [] { NonEmptyMembers(names[1..]); }
  }

  lemma {:induction false} NonEmptySorted(names: seq<string>)
    requires Sorted(names)
    ensures Sorted(NonEmpty(names))
  {
    if names != [] {
      NonEmptySorted(names[1..]);
      NonEmptyMembers(names[1..]);
    }
  }

  lemma NonEmptyMultiset(a: seq<string>, b: seq<string>)
    requires forall k :: k != "" ==> multiset(a)[k] == multiset(b)[k]
    ensures multiset(NonEmpty(a)) == multiset(NonEmpty(b))
  {
    forall k ensures multiset(NonEmpty(a))[k] == multiset(NonEmpty(b))[k] {
      NonEmptyCount(a, k);
      NonEmptyCount(b, k);
    }
  }

  /** Sorting first makes the hashed name list depend on the non-empty names only. */
  lemma SortedNonEmptyUnique(a: seq<string>, b: seq<string>)
    requires multiset(NonEmpty(a)) == multiset(NonEmpty(b))
    ensures NonEmpty(Sort(a)) == NonEmpty(Sort(b))
  {
    NonEmptyMultiset(Sort(a), a);
    NonEmptyMultiset(Sort(b), b);
    NonEmptySorted(Sort(a));
    NonEmptySorted(Sort(b));
    SortedUnique(NonEmpty(Sort(a)), NonEmpty(Sort(b)));
  }

  lemma SortKeepsCount(a: seq<string>)
    ensures |NonEmpty(Sort(a))| == |NonEmpty(a)|
  {
    NonEmptyMultiset(Sort(a), a);
    ArrangementLength(NonEmpty(Sort(a)), NonEmpty(a));
  }

  lemma SortKeepsGroups(a: seq<string>)
    ensures HasGroup(Sort(a)) == HasGroup(a)
  {
    var s := Sort(a);
    forall i | 0 <= i < |s| ensures s[i] in a { assert s[i] in multiset(s); }
    forall i | 0 <= i < |a| ensures a[i] in s { assert a[i] in multiset(a); }
  }

  // ----- shapeless -----

  lemma PairedNames(inp: seq<string>, rec: seq<string>, idef: ItemDefs)
    requires Shapeless.CanPair(inp, rec, idef)
    requires forall i :: 0 <= i < |inp| ==> inp[i] != ""
    ensures |inp| == |rec| && forall j :: 0 <= j < |rec| ==> rec[j] != ""
    ensures !HasGroup(rec) ==> multiset(inp) == multiset(rec)
  {
    var q := Shapeless.ArrangementFromPairing(inp, rec, idef);
    ArrangementLength(q, rec);
    forall j | 0 <= j < |rec| ensures rec[j] in q { assert rec[j] in multiset(rec); }
    forall i | 0 <= i < |q| ensures q[i] in rec { assert q[i] in multiset(q); }
    if !HasGroup(rec) { assert inp == q; }
  }

  lemma {:induction false} NonEmptyOfFilled(names: seq<string>)
    requires forall i :: 0 <= i < |names| ==> names[i] != ""
    ensures NonEmpty(names) == names
  {
    if names != [] { NonEmptyOfFilled(names[1..]); }
  }

  lemma ShapelessInBucket(output: string, recipe: seq<string>, input: CraftInput, idef: ItemDefs, murmur: string -> nat)
    requires Shapeless.Applies(recipe, input, idef)
    ensures var def := ShapelessDef(output, recipe);
            Bucket(def, idef, murmur) == Probe(Layer(def, idef), input, murmur)
  {
    var inp, rec := Names(input.items), ResolveAll(recipe, idef);
    NonEmptyMembers(inp);
    PairedNames(NonEmpty(inp), rec, idef);
    NonEmptyOfFilled(rec);
    SortKeepsGroups(rec);
    SameHashes(inp, rec, murmur);
  }

  lemma SameHashes(inp: seq<string>, rec: seq<string>, murmur: string -> nat)
    ensures |NonEmpty(inp)| == |NonEmpty(rec)| ==>
        GridHash(Count, Sort(inp), murmur) == GridHash(Count, Sort(rec), murmur)
    ensures multiset(NonEmpty(inp)) == multiset(NonEmpty(rec)) ==>
              GridHash(ItemNames, Sort(inp), murmur) == GridHash(ItemNames, Sort(rec), murmur)
  {
    SortKeepsCount(inp);
    SortKeepsCount(rec);
    if multiset(NonEmpty(inp)) == multiset(NonEmpty(rec)) { SortedNonEmptyUnique(inp, rec); }
  }

  // ----- shaped -----

  lemma ShapedInBucket(output: string, width: nat, recipe: seq<string>, input: CraftInput, idef: ItemDefs,
                       murmur: string -> nat)
    requires ShapedTranslation.HandMatchesNoGroup(idef) && Shaped.Applies(recipe, width, input, idef)
    ensures var def := ShapedDef(output, width, recipe);
            Bucket(def, idef, murmur) == Probe(Layer(def, idef), input, murmur)
  {
    var inp, rec := Names(input.items), ResolveAll(recipe, idef);
    ShapedTranslation.ShapedCount(recipe, width, input, idef);
    SameHashes(inp, rec, murmur);
    if !HasGroup(rec) { ShapedTranslation.ShapedNames(recipe, width, input, idef); }
  }

  // ----- single items and tools -----

  lemma SingleInBucket(craft: CraftMethod, item: string, input: CraftInput, idef: ItemDefs, murmur: string -> nat)
    requires SingleItemApplies(craft, item, input, idef)
    ensures IsGroup(item) ==> Probe(Count, input, murmur) == 1
    ensures !IsGroup(item) ==> Probe(ItemNames, input, murmur) == murmur(item)
  {
    var inp := Names(input.items);
    SortKeepsCount(inp);
    if !IsGroup(item) {
      assert NonEmpty(inp) == [item];
      NonEmptyMembers(inp);
      NonEmptyOfFilled([item]);
      SortedNonEmptyUnique(inp, [item]);
      assert Sort([item]) == [item] by {
        ArrangementLength(Sort([item]), [item]);
        assert Sort([item])[0] in multiset([item]);
      }
    }
  }

  lemma {:induction false} StacksAreNames(items: seq<CraftItem>)
    requires forall i :: 0 <= i < |items| ==> (items[i].count == 0 <==> items[i].name == "")
    ensures |Stacks(items)| == |NonEmpty(Names(items))|
  {
    if items != [] {
      StacksAreNames(items[1..]);
      assert Names(items)[1..] == Names(items[1..]);
    }
  }

  /** The key fact: an applying recipe is filed where the input is looked up. */
  lemma InBucket(def: CraftDef, input: CraftInput, idef: ItemDefs, murmur: string -> nat)
    requires ShapedTranslation.HandMatchesNoGroup(idef) && WellCounted(input) && Canonical(def, idef)
    requires Applies(def, input, idef)
    ensures Bucket(def, idef, murmur) == Probe(Layer(def, idef), input, murmur)
  {
    match def {
      case ShapedDef(output, width, recipe) => ShapedInBucket(output, width, recipe, input, idef, murmur);
      case ShapelessDef(output, recipe) => ShapelessInBucket(output, recipe, input, idef, murmur);
      case ToolRepairDef(_) =>
        StacksAreNames(input.items);
        SortKeepsCount(Names(input.items));
      case CookingDef(_, item) => SingleInBucket(Cook, item, input, idef, murmur);
          assert StoredNames(def, idef)[0] == item;
      case FuelDef(item) => SingleInBucket(Burn, item, input, idef, murmur); assert StoredNames(def, idef)[0] == item;
    }
  }

  /** For everything but fuel, equal priorities among applying recipes mean equal layers. */
  lemma PriorityDecidesLayer(a: CraftDef, b: CraftDef, input: CraftInput, idef: ItemDefs)
    requires Canonical(a, idef) && Canonical(b, idef) && input.craft != Burn
    requires Applies(a, input, idef) && Applies(b, input, idef) && Priority(a) == Priority(b)
    ensures Layer(a, idef) == Layer(b, idef)
  {
    LayerIsGroup(a, idef);
    LayerIsGroup(b, idef);
  }

  lemma LayerIsGroup(def: CraftDef, idef: ItemDefs)
    requires Canonical(def, idef)
    ensures match def
            case ShapedDef(_, _, recipe) => Layer(def, idef) == Count <==> HasGroup(recipe)
            case ShapelessDef(_, recipe) => Layer(def, idef) == Count <==> HasGroup(recipe)
            case ToolRepairDef(_) => Layer(def, idef) == Count
            case CookingDef(_, item) => Layer(def, idef) == Count <==> IsGroup(item)
            case FuelDef(item) => Layer(def, idef) == Count <==> IsGroup(item)
  {
    match def {
      case ShapedDef(_, _, recipe) =>
      case ShapelessDef(_, recipe) => SortKeepsGroups(ResolveAll(recipe, idef));
      case ToolRepairDef(_) =>
      case CookingDef(_, item) => assert StoredNames(def, idef) == [item] && [item][0] == item;
      case FuelDef(item) => assert StoredNames(def, idef) == [item] && [item][0] == item;
    }
  }
}
