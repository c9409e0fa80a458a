/** The five kinds of craft definition: when each applies, its priority, and where the hash index files it. */
module CraftDefs {
  import opened CraftItems
  import opened NameOrder
  import opened Options
  import Shaped
  import Shapeless

  datatype CraftDef =
    | ShapedDef(output: string, width: nat, recipe: seq<string>)
    | ShapelessDef(output: string, recipe: seq<string>)
    | ToolRepairDef(additionalWear: real)
    | CookingDef(output: string, item: string)
    | FuelDef(item: string)

  // ----- tool repair -----

  /** The stacks that are not empty, in order. */
  function Stacks(items: seq<CraftItem>): seq<CraftItem> {
    if items == [] then [] else (if items[0].count != 0 then [items[0]] else []) + Stacks(items[1..])
  }

  lemma {:induction false} StacksAppend(a: seq<CraftItem>, b: seq<CraftItem>)
    ensures Stacks(a + b) == Stacks(a) + Stacks(b)
  {
    if a == [] { assert a + b == b; }
    else { assert (a + b)[1..] == a[1..] + b; StacksAppend(a[1..], b); }
  }

  /** `craftToolRepair` succeeds: two single tools of one repairable kind, and the result is not worn out. */
  predicate Repairable(a: CraftItem, b: CraftItem, additionalWear: real, idef: ItemDefs) {
    && a.count == 1 && b.count == 1 && a.name == b.name
    && idef.tool(a.name) && idef.group(a.name, "disable_repair") != 1
    && 65536 - ((65536 - a.wear) + (65536 - b.wear)) + (additionalWear * 65536.0 + 0.5).Floor < 65536
  }

  predicate ToolRepairApplies(additionalWear: real, input: CraftInput, idef: ItemDefs) {
    var s := Stacks(input.items);
    input.craft == Normal && |s| == 2 && Repairable(s[0], s[1], additionalWear, idef)
  }

  /**
   * Slots `i` and `j` hold one tool each, of the same repairable kind, and every other slot is empty. Together they
   * have more uses left than the repair costs.
   */
  predicate IsRepairPair(additionalWear: real, items: seq<CraftItem>, i: nat, j: nat, idef: ItemDefs) {
    && i < j < |items| && (forall k :: 0 <= k < |items| && k != i && k != j ==> items[k].count == 0)
    && items[i].count == 1 && items[j].count == 1 && items[i].name == items[j].name
    && idef.tool(items[i].name) && idef.group(items[i].name, "disable_repair") != 1
    && (65536 - items[i].wear) + (65536 - items[j].wear) > (additionalWear * 65536.0 + 0.5).Floor
  }

  lemma ToolRepairMeaning(additionalWear: real, input: CraftInput, idef: ItemDefs)
    ensures ToolRepairApplies(additionalWear, input, idef) <==>
            input.craft == Normal && exists i, j :: IsRepairPair(additionalWear, input.items, i, j, idef)
  {
    var items := input.items;
    if |Stacks(items)| == 2 {
      var i := FirstStack(items);
      var n := FirstStack(items[i + 1..]);
      var j := i + 1 + n;
      NoStacks(items[i + 1..][n + 1..]);
      assert forall k :: i < k < j ==> items[k] == items[i + 1..][k - i - 1];
      assert forall k :: j < k < |items| ==> items[k] == items[i + 1..][n + 1..][k - j - 1];
      assert Repairable(items[i], items[j], additionalWear, idef) ==> IsRepairPair(additionalWear, items, i, j, idef);
    }
    if i: nat, j: nat :| IsRepairPair(additionalWear, items, i, j, idef) {
      PairStacks(items, i, j);
    }
  }

  lemma {:induction false} PairStacks(items: seq<CraftItem>, i: nat, j: nat)
    requires i < j < |items| && items[i].count != 0 && items[j].count != 0
    requires forall k :: 0 <= k < |items| && k != i && k != j ==> items[k].count == 0
    ensures Stacks(items) == [items[i], items[j]]
    decreases i
  {
    var rest := items[1..];
    assert forall k :: 0 <= k < |rest| ==> rest[k] == items[k + 1];
    if i == 0 { OneStack(rest, j - 1); } else { PairStacks(rest, i - 1, j - 1); }
  }

  lemma {:induction false} OneStack(items: seq<CraftItem>, j: nat)
    requires j < |items| && items[j].count != 0
    requires forall k :: 0 <= k < |items| && k != j ==> items[k].count == 0
    ensures Stacks(items) == [items[j]]
    decreases j
  {
    var rest := items[1..];
    assert forall k :: 0 <= k < |rest| ==> rest[k] == items[k + 1];
    if j == 0 { NoStacks(rest); } else { OneStack(rest, j - 1); }
  }

  lemma {:induction false} NoStacks(items: seq<CraftItem>)
    ensures Stacks(items) == [] <==> forall k :: 0 <= k < |items| ==> items[k].count == 0
  {
    if items != [] {
      NoStacks(items[1..]);
      assert forall k :: 0 < k < |items| ==> items[k] == items[1..][k - 1];
    }
  }

  lemma {:induction false} FirstStack(items: seq<CraftItem>) returns (i: nat)
    requires Stacks(items) != []
    ensures i < |items| && items[i].count != 0 && (forall k :: 0 <= k < i ==> items[k].count == 0)
    ensures Stacks(items) == [items[i]] + Stacks(items[i + 1..])
  {
    if items[0].count != 0 { return 0; }
    i := FirstStack(items[1..]);
    assert items[1..][i + 1..] == items[i + 2..];
    assert forall k :: 0 < k < i + 1 ==> items[k] == items[1..][k - 1];
    i := i + 1;
  }

  lemma StacksNext(items: seq<CraftItem>, i: nat)
    requires i < |items|
    ensures Stacks(items[..i + 1]) == Stacks(items[..i]) + if items[i].count != 0 then [items[i]] else []
  {
    assert items[..i + 1] == items[..i] + [items[i]];
    StacksAppend(items[..i], [items[i]]);
  }

  lemma StacksGrow(items: seq<CraftItem>, n: nat)
    requires n <= |items|
    ensures |Stacks(items)| >= |Stacks(items[..n])|
  {
    assert items == items[..n] + items[n..];
    StacksAppend(items[..n], items[n..]);
  }

  method CheckToolRepair(additionalWear: real, input: CraftInput, idef: ItemDefs) returns (r: bool)
    ensures r == ToolRepairApplies(additionalWear, input, idef)
  {
    if input.craft != Normal { return false; }
    var item1, item2 := CraftItem("", 0, 0), CraftItem("", 0, 0);
    for i := 0 to |input.items|
      invariant |Stacks(input.items[..i])| <= 2
      invariant if Stacks(input.items[..i]) == [] then item1.count == 0
          else item1 == Stacks(input.items[..i])[0] && item1.count != 0
      invariant if |Stacks(input.items[..i])| < 2 then item2.count == 0
          else item2 == Stacks(input.items[..i])[1] && item2.count != 0
    {
      var item := input.items[i];
      StacksNext(input.items, i);
      if item.count != 0 {
        if item1.count == 0 { item1 := item; }
        else if item2.count == 0 { item2 := item; }
        else {
          StacksGrow(input.items, i + 1);
          return false;
        }
      }
    }
    assert input.items[..|input.items|] == input.items;
    r := Repairable(item1, item2, additionalWear, idef);
  }

  // ----- cooking and fuel -----

  ghost predicate SingleItemApplies(craft: CraftMethod, item: string, input: CraftInput, idef: ItemDefs) {
    var f := NonEmpty(Names(input.items));
    input.craft == craft && |f| == 1 && Matches(f[0], item, idef)
  }

  /** Slot `i` holds the only item, and the recipe asks for it by name or by groups. */
  ghost predicate IsOnlyItem(item: string, items: seq<CraftItem>, i: nat, idef: ItemDefs) {
    && i < |items| && (forall k :: 0 <= k < |items| ==> (items[k].name == "" <==> k != i))
    && (items[i].name == item || (IsGroup(item) && idef.known(items[i].name)
                                  && forall g :: g in GroupNames(item[6..]) ==> idef.group(items[i].name, g) != 0))
  }

  /** Cooking and fuel look at the one item there is, wherever it lies. */
  lemma SingleItemMeaning(craft: CraftMethod, item: string, input: CraftInput, idef: ItemDefs)
    ensures SingleItemApplies(craft, item, input, idef) <==>
            input.craft == craft && exists i :: IsOnlyItem(item, input.items, i, idef)
  {
    var names := Names(input.items);
    if |NonEmpty(names)| == 1 {
      var i := OnlyName(names);
      assert Matches(names[i], item, idef) ==> IsOnlyItem(item, input.items, i, idef);
    }
    if i: nat :| IsOnlyItem(item, input.items, i, idef) { OneName(names, i); }
  }

  lemma {:induction false} NoNames(names: seq<string>)
    ensures NonEmpty(names) == [] <==> forall k :: 0 <= k < |names| ==> names[k] == ""
  {
    if names != [] {
      NoNames(names[1..]);
      assert forall k :: 0 < k < |names| ==> names[k] == names[1..][k - 1];
    }
  }

  lemma {:induction false} OneName(names: seq<string>, i: nat)
    requires i < |names| && forall k :: 0 <= k < |names| ==> (names[k] == "" <==> k != i)
    ensures NonEmpty(names) == [names[i]]
    decreases i
  {
    var rest := names[1..];
    assert forall k :: 0 <= k < |rest| ==> rest[k] == names[k + 1];
    if i == 0 { NoNames(rest); } else { OneName(rest, i - 1); }
  }

  lemma {:induction false} OnlyName(names: seq<string>) returns (i: nat)
    requires |NonEmpty(names)| == 1
    ensures i < |names| && NonEmpty(names) == [names[i]]
    ensures forall k :: 0 <= k < |names| ==> (names[k] == "" <==> k != i)
  {
    var rest := names[1..];
    if names[0] != "" {
      NoNames(rest);
      i := 0;
    } else {
      i := OnlyName(rest);
      i := i + 1;
    }
    assert forall k :: 0 < k < |names| ==> names[k] == rest[k - 1];
  }

  method CheckSingleItem(craft: CraftMethod, item: string, input: CraftInput, idef: ItemDefs) returns (r: bool)
    ensures r == SingleItemApplies(craft, item, input, idef)
  {
    if input.craft != craft { return false; }
    var filtered := Shapeless.FilterNonEmpty(input.items);
    if |filtered| != 1 { return false; }
    r := InputItemMatchesRecipe(filtered[0], item, idef);
  }

  // ----- all kinds -----

  ghost predicate Applies(def: CraftDef, input: CraftInput, idef: ItemDefs) {
    match def
    case ShapedDef(_, width, recipe) => Shaped.Applies(recipe, width, input, idef)
    case ShapelessDef(_, recipe) => Shapeless.Applies(recipe, input, idef)
    case ToolRepairDef(wear) => ToolRepairApplies(wear, input, idef)
    case CookingDef(_, item) => SingleItemApplies(Cook, item, input, idef)
    case FuelDef(item) => SingleItemApplies(Burn, item, input, idef)
  }

  /** What `initHash` stores: the resolved recipe names, sorted for shapeless recipes only. */
  function StoredNames(def: CraftDef, idef: ItemDefs): seq<string> {
    match def
    case ShapedDef(_, _, recipe) => ResolveAll(recipe, idef)
    case ShapelessDef(_, recipe) => Sort(ResolveAll(recipe, idef))
    case ToolRepairDef(_) => []
    case CookingDef(_, item) => [idef.resolve(item)]
    case FuelDef(item) => [idef.resolve(item)]
  }

  method Check(def: CraftDef, hashed: Option<seq<string>>, input: CraftInput, idef: ItemDefs) returns (r: bool)
    requires hashed.Some? ==> hashed.value == StoredNames(def, idef)
    ensures r == Applies(def, input, idef)
  {
    match def {
      case ShapedDef(_, width, recipe) => r := Shaped.Check(recipe, width, hashed, input, idef);
      case ShapelessDef(_, recipe) => r := Shapeless.Check(recipe, hashed, input, idef);
      case ToolRepairDef(wear) => r := CheckToolRepair(wear, input, idef);
      case CookingDef(_, item) => r := CheckSingleItem(Cook, item, input, idef);
      case FuelDef(item) => r := CheckSingleItem(Burn, item, input, idef);
    }
  }

  /** The name of the item a definition makes, once its itemstring is read back. */
  function OutputName(def: CraftDef, input: CraftInput, idef: ItemDefs): string {
    match def
    case ShapedDef(output, _, _) => idef.resolve(output)
    case ShapelessDef(output, _) => idef.resolve(output)
    case CookingDef(output, _) => idef.resolve(output)
    case FuelDef(_) => idef.resolve("")
    case ToolRepairDef(_) => var s := Stacks(input.items); idef.resolve(if s == [] then "" else s[0].name)
  }

  predicate HasGroup(names: seq<string>) {
    exists i :: 0 <= i < |names| && IsGroup(names[i])
  }

  /**
   * Recipe priorities, lowest first; 0 is "no recipe". A fuel recipe's constructor looks at a field that is still
   * empty, so group fuels get the priority of plain ones.
   */
  function Priority(def: CraftDef): (p: nat)
    ensures 1 <= p <= 5
  {
    match def
    case ToolRepairDef(_) => 1
    case ShapelessDef(_, recipe) => if HasGroup(recipe) then 2 else 3
    case CookingDef(_, item) => if IsGroup(item) then 2 else 3
    case FuelDef(_) => 3
    case ShapedDef(_, _, recipe) => if HasGroup(recipe) then 4 else 5
  }

  // ----- hashing -----

  datatype HashType = ItemNames | Count | Unhashed

  /** The names separated by newlines. */
  function Joined(names: seq<string>): string {
    if names == [] then "" else if |names| == 1 then names[0]
        else Joined(names[..|names| - 1]) + "\n" + names[|names| - 1]
  }

  lemma JoinedAppend(names: seq<string>, n: string)
    ensures Joined(names + [n]) == if names == [] then n else Joined(names) + "\n" + n
  {
    assert (names + [n])[..|names|] == names;
  }

  function GridHash(kind: HashType, names: seq<string>, murmur: string -> nat): nat {
    match kind
    case ItemNames => murmur(Joined(NonEmpty(names)))
    case Count => |NonEmpty(names)|
    case Unhashed => 0
  }

  /** The stream of names separated by newlines. */
  method JoinNames(names: seq<string>) returns (os: string)
    ensures os == Joined(NonEmpty(names))
  {
    var isFirst := true;
    os := "";
    for i := 0 to |names|
      invariant isFirst <==> NonEmpty(names[..i]) == []
      invariant os == Joined(NonEmpty(names[..i]))
    {
      NonEmptyStep(names, i);
      if names[i] != "" {
        JoinedAppend(NonEmpty(names[..i]), names[i]);
        os := if isFirst then names[i] else os + "\n" + names[i];
        isFirst := false;
      }
    }
    assert names[..|names|] == names;
  }

  method CountNames(names: seq<string>) returns (cnt: nat)
    ensures cnt == |NonEmpty(names)|
  {
    cnt := 0;
    for i := 0 to |names|
      invariant cnt == |NonEmpty(names[..i])|
    {
      NonEmptyStep(names, i);
      if names[i] != "" { cnt := cnt + 1; }
    }
    assert names[..|names|] == names;
  }

  lemma NonEmptyStep(names: seq<string>, i: nat)
    requires i < |names|
    ensures NonEmpty(names[..i + 1]) ==
        if names[i] == "" then NonEmpty(names[..i]) else NonEmpty(names[..i]) + [names[i]]
  {
    assert names[..i + 1] == names[..i] + [names[i]];
    NonEmptyAppend(names[..i], [names[i]]);
    assert NonEmpty([names[i]]) == if names[i] == "" then [] else [names[i]];
  }

  /** `getHashForGrid`. */
  method GetHashForGrid(kind: HashType, names: seq<string>, murmur: string -> nat) returns (h: nat)
    ensures h == GridHash(kind, names, murmur)
  {
    match kind {
      case ItemNames => var os := JoinNames(names); h := murmur(os);
      case Count => h := CountNames(names);
      case Unhashed => h := 0;
    }
  }

  /** The layer `initHash` chooses. */
  function Layer(def: CraftDef, idef: ItemDefs): (kind: HashType)
    ensures kind != Unhashed
  {
    if def.ToolRepairDef? || HasGroup(StoredNames(def, idef)) then Count else ItemNames
  }

  /** `getHash` for the chosen layer. */
  function Bucket(def: CraftDef, idef: ItemDefs, murmur: string -> nat): nat {
    match def
    case ToolRepairDef(_) => 2
    case ShapedDef(_, _, _) => GridHash(Layer(def, idef), Sort(StoredNames(def, idef)), murmur)
    case ShapelessDef(_, _) => GridHash(Layer(def, idef), StoredNames(def, idef), murmur)
    case _ => if Layer(def, idef) == ItemNames then murmur(StoredNames(def, idef)[0]) else 1
  }

  /** The bucket an input is looked up in. */
  function Probe(kind: HashType, input: CraftInput, murmur: string -> nat): nat {
    GridHash(kind, Sort(Names(input.items)), murmur)
  }
}
