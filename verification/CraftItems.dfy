/** Item names in crafting: the item definitions, group recipes, and the input grid. */
module CraftItems {
  import opened MachineIntegers

  /**
   * What crafting asks of the item definition manager: known names, group ratings (0 when the item is
   * not in the group), which items are tools, and the name an itemstring denotes once aliases are resolved.
   */
  datatype ItemDefs = ItemDefs(
    known: string -> bool,
    group: (string, string) -> int,
    tool: string -> bool,
    resolve: string -> string)

  datatype CraftMethod = Normal | Cook | Burn

  datatype CraftItem = CraftItem(name: string, count: u16, wear: u16)

  datatype CraftInput = CraftInput(craft: CraftMethod, width: nat, items: seq<CraftItem>)

  function Names(items: seq<CraftItem>): (r: seq<string>)
    ensures |r| == |items| && forall i :: 0 <= i < |r| ==> r[i] == items[i].name
  {
    seq(|items|, i requires 0 <= i < |items| => items[i].name)
  }

  function ResolveAll(recipe: seq<string>, idef: ItemDefs): (r: seq<string>)
    ensures |r| == |recipe| && forall i :: 0 <= i < |r| ==> r[i] == idef.resolve(recipe[i])
  {
    seq(|recipe|, i requires 0 <= i < |recipe| => idef.resolve(recipe[i]))
  }

  /** The names that are not "", in order. */
  function NonEmpty(names: seq<string>): seq<string> {
    if names == [] then []
    else (if names[0] != "" then [names[0]] else []) + NonEmpty(names[1..])
  }

  lemma {:induction false} NonEmptyAppend(a: seq<string>, b: seq<string>)
    ensures NonEmpty(a + b) == NonEmpty(a) + NonEmpty(b)
  {
    if a == [] { assert a + b == b; }
    else { assert (a + b)[1..] == a[1..] + b; NonEmptyAppend(a[1..], b); }
  }

  lemma {:induction false} NonEmptyCount(names: seq<string>, n: string)
    ensures multiset(NonEmpty(names))[n] == if n == "" then 0 else multiset(names)[n]
  {
    if names != [] {
      NonEmptyCount(names[1..], n);
      assert names == [names[0]] + names[1..];
    }
  }

  predicate IsGroup(rec: string) {
    "group:" <= rec
  }

  /** Where the next comma is, or the end of the text. */
  function CommaFrom(s: string, pos: nat): (n: nat)
    requires pos <= |s|
    ensures pos <= n <= |s|
    decreases |s| - pos
  {
    if pos == |s| || s[pos] == ',' then pos else CommaFrom(s, pos + 1)
  }

  /** The group names in a comma-separated list; a trailing comma adds none, and "" names the group "". */
  function GroupNames(s: string): seq<string>
    decreases |s|
  {
    var n := CommaFrom(s, 0);
    [s[..n]] + (if n + 1 >= |s| then [] else GroupNames(s[n + 1..]))
  }

  /** Texts with commas between them. */
  function Commas(parts: seq<string>): string {
    if parts == [] then "" else if |parts| == 1 then parts[0] else parts[0] + "," + Commas(parts[1..])
  }

  /** Put together again, the parts are the list, but for a comma at its end. */
  predicate IsCommaList(s: string, parts: seq<string>) {
    && parts != [] && (forall i :: 0 <= i < |parts| ==> ',' !in parts[i])
    && (s == Commas(parts) || s == Commas(parts) + ",")
  }

  lemma {:induction false} GroupNamesMeaning(s: string)
    ensures IsCommaList(s, GroupNames(s))
    decreases |s|
  {
    var n := CommaFrom(s, 0);
    CommaFromMeaning(s, 0);
    if n + 1 < |s| {
      GroupNamesMeaning(s[n + 1..]);
      assert s == s[..n] + "," + s[n + 1..];
      assert s[0..n] == s[..n];
      hide IsCommaList, CommaFrom;
      OneMorePart(s[..n], s[n + 1..], GroupNames(s[n + 1..]));
    } else {
      assert s == if n == |s| then s[..n] else s[..n] + ",";
    }
  }

  lemma OneMorePart(first: string, s: string, parts: seq<string>)
    requires ',' !in first && IsCommaList(s, parts)
    ensures IsCommaList(first + "," + s, [first] + parts)
  {
    assert ([first] + parts)[1..] == parts;
    assert first + "," + (Commas(parts) + ",") == (first + "," + Commas(parts)) + ",";
  }

  lemma {:induction false} CommaFromMeaning(s: string, pos: nat)
    requires pos <= |s|
    ensures var n := CommaFrom(s, pos); ',' !in s[pos..n] && (n < |s| ==> s[n] == ',')
    decreases |s| - pos
  {
    if pos < |s| && s[pos] != ',' {
      CommaFromMeaning(s, pos + 1);
      assert s[pos..CommaFrom(s, pos)] == [s[pos]] + s[pos + 1..CommaFrom(s, pos)];
    }
  }

  ghost predicate InEveryGroup(inp: string, list: string, idef: ItemDefs) {
    forall g :: g in GroupNames(list) ==> idef.group(inp, g) != 0
  }

  /** The matching rule: the exact name, or a known item that is in every group the recipe entry lists. */
  ghost predicate Matches(inp: string, rec: string, idef: ItemDefs) {
    inp == rec || (IsGroup(rec) && idef.known(inp) && InEveryGroup(inp, rec[6..], idef))
  }

  lemma InEveryGroupStep(inp: string, list: string, idef: ItemDefs)
    ensures var n := CommaFrom(list, 0);
            InEveryGroup(inp, list, idef) <==>
              idef.group(inp, list[..n]) != 0 && (n + 1 < |list| ==> InEveryGroup(inp, list[n + 1..], idef))
  {
    var n := CommaFrom(list, 0);
    var gs := GroupNames(list);
    assert gs[0] == list[..n];
    if n + 1 < |list| {
      assert gs == [list[..n]] + GroupNames(list[n + 1..]);
    }
  }

  lemma {:induction false} CommaFromSuffix(s: string, pos: nat, k: nat)
    requires k <= pos <= |s|
    ensures CommaFrom(s, pos) == k + CommaFrom(s[k..], pos - k)
    decreases |s| - pos
  {
    if pos < |s| && s[pos] != ',' { CommaFromSuffix(s, pos + 1, k); }
  }

  lemma InEveryGroupAt(inp: string, list: string, pos: nat, idef: ItemDefs)
    requires pos <= |list|
    ensures var n := CommaFrom(list, pos);
            InEveryGroup(inp, list[pos..], idef) <==>
              idef.group(inp, list[pos..n]) != 0 && (n + 1 < |list| ==> InEveryGroup(inp, list[n + 1..], idef))
  {
    var n := CommaFrom(list, pos);
    CommaFromSuffix(list, pos, pos);
    InEveryGroupStep(inp, list[pos..], idef);
    assert list[pos..][..n - pos] == list[pos..n];
    if n + 1 < |list| { assert list[pos..][n - pos + 1..] == list[n + 1..]; }
  }

  /** The do-while loop over the comma-separated groups. */
  method InAllGroups(inp: string, list: string, idef: ItemDefs) returns (all: bool)
    ensures all == InEveryGroup(inp, list, idef)
  {
    var pos := 0;
    assert list[0..] == list;
    while true
      invariant pos <= |list|
      invariant InEveryGroup(inp, list, idef) == InEveryGroup(inp, list[pos..], idef)
      decreases |list| - pos
    {
      var n := CommaFrom(list, pos);
      InEveryGroupAt(inp, list, pos, idef);
      if idef.group(inp, list[pos..n]) == 0 { return false; }
      if n + 1 >= |list| { return true; }
      pos := n + 1;
    }
  }

  method InputItemMatchesRecipe(inp: string, rec: string, idef: ItemDefs) returns (r: bool)
    ensures r == Matches(inp, rec, idef)
  {
    if inp == rec { return true; }
    if IsGroup(rec) && idef.known(inp) {
      r := InAllGroups(inp, rec[6..], idef);
      return r;
    }
    return false;
  }
}
