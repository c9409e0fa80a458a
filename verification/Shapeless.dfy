/** Shapeless recipes: the check that tries every permutation of the recipe. */
module Shapeless {
  import opened CraftItems
  import opened NameOrder
  import opened Options
  import opened Pairings
  import opened Permutations

  ghost predicate MatchesAll(inp: seq<string>, rec: seq<string>, idef: ItemDefs) {
    |inp| == |rec| && forall i :: 0 <= i < |inp| ==> Matches(inp[i], rec[i], idef)
  }

  /** `f` pairs every input item with its own recipe entry, one that it matches, and leaves none over. */
  ghost predicate Pairs(f: seq<nat>, inp: seq<string>, rec: seq<string>, idef: ItemDefs) {
    |inp| == |rec| && IsBijection(f, |rec|)
    && forall i :: 0 <= i < |inp| ==> Matches(inp[i], rec[f[i]], idef)
  }

  ghost predicate CanPair(inp: seq<string>, rec: seq<string>, idef: ItemDefs) {
    exists f :: Pairs(f, inp, rec, idef)
  }

  /** A shapeless recipe applies when its names can be paired off with the non-empty input items. */
  ghost predicate Applies(recipe: seq<string>, input: CraftInput, idef: ItemDefs) {
    input.craft == Normal && CanPair(NonEmpty(Names(input.items)), ResolveAll(recipe, idef), idef)
  }

  lemma PairingFromArrangement(inp: seq<string>, q: seq<string>, rec: seq<string>, idef: ItemDefs)
    requires Arrangement(q, rec) && MatchesAll(inp, q, idef)
    ensures CanPair(inp, rec, idef)
  {
    var f := BijectionOfArrangement(q, rec);
    assert Pairs(f, inp, rec, idef);
  }

  lemma ArrangementFromPairing(inp: seq<string>, rec: seq<string>, idef: ItemDefs) returns (q: seq<string>)
    requires CanPair(inp, rec, idef)
    ensures Arrangement(q, rec) && MatchesAll(inp, q, idef)
  {
    var f :| Pairs(f, inp, rec, idef);
    q := seq(|f|, i requires 0 <= i < |f| => rec[f[i]]);
    ArrangementOfBijection(f, rec, q);
  }

  /** No arrangement before `cur` matches. */
  ghost predicate TriedBefore(cur: seq<string>, inp: seq<string>, rec: seq<string>, idef: ItemDefs) {
    forall q :: Arrangement(q, rec) && LexLess(q, cur) ==> !MatchesAll(inp, q, idef)
  }

  lemma SortedStart(rec: seq<string>, inp: seq<string>, idef: ItemDefs)
    ensures TriedBefore(Sort(rec), inp, rec, idef)
  {
    forall q | Arrangement(q, rec) ensures !LexLess(q, Sort(rec)) { SortedIsFirst(Sort(rec), q); }
  }

  /** One more permutation tried: everything before the next one, or everything at all, has been tried. */
  lemma TriedNext(s: seq<string>, t: seq<string>, found: bool, inp: seq<string>, rec: seq<string>, idef: ItemDefs)
    requires Arrangement(s, rec) && TriedBefore(s, inp, rec, idef) && !MatchesAll(inp, s, idef)
    requires IsNextPermutation(s, t, found)
    ensures Arrangement(t, rec)
    ensures found ==> TriedBefore(t, inp, rec, idef)
    ensures !found ==> !CanPair(inp, rec, idef)
  {
    forall q | Arrangement(q, rec) && (found ==> LexLess(q, t)) ensures !MatchesAll(inp, q, idef) {
      ArrangementLength(q, s);
      LexLessTotal(q, s);
    }
    if !found && CanPair(inp, rec, idef) {
      var q := ArrangementFromPairing(inp, rec, idef);
    }
  }

  method FilterNonEmpty(items: seq<CraftItem>) returns (filtered: seq<string>)
    ensures filtered == NonEmpty(Names(items))
  {
    filtered := [];
    for i := 0 to |items|
      invariant filtered == NonEmpty(Names(items)[..i])
    {
      NonEmptyAppend(Names(items)[..i], [items[i].name]);
      assert Names(items)[..i + 1] == Names(items)[..i] + [items[i].name];
      if items[i].name != "" { filtered := filtered + [items[i].name]; }
    }
    assert Names(items)[..|items|] == Names(items);
  }

  method AllMatch(inp: seq<string>, rec: array<string>, idef: ItemDefs) returns (all: bool)
    requires |inp| == rec.Length
    ensures all == MatchesAll(inp, rec[..], idef)
  {
    for i := 0 to |inp|
      invariant forall k :: 0 <= k < i ==> Matches(inp[k], rec[k], idef)
    {
      var m := InputItemMatchesRecipe(inp[i], rec[i], idef);
      if !m { return false; }
    }
    return true;
  }

  /**
   * `CraftDefinitionShapeless::check`. `hashed` is the sorted name list stored by `initHash`, if it ran.
   */
  method Check(recipe: seq<string>, hashed: Option<seq<string>>, input: CraftInput, idef: ItemDefs) returns (r: bool)
    requires hashed.Some? ==> hashed.value == Sort(ResolveAll(recipe, idef))
    ensures r == Applies(recipe, input, idef)
  {
    if input.craft != Normal { return false; }
    var filtered := FilterNonEmpty(input.items);
    ghost var names := ResolveAll(recipe, idef);
    if |filtered| != |recipe| { return false; }

    var sorted := if hashed.Some? then hashed.value else Sort(ResolveAll(recipe, idef));
    ArrangementLength(sorted, names);
    var recipeCopy := new string[|sorted|](i requires 0 <= i < |sorted| => sorted[i]);
    assert recipeCopy[..] == sorted;
    SortedStart(names, filtered, idef);
    hide Arrangement, TriedBefore, CanPair, Sort, NonEmpty;
    r := TryAll(filtered, recipeCopy, names, idef);
  }

  /** Compares one arrangement of the recipe after the other, from the one given on. */
  method TryAll(filtered: seq<string>, recipeCopy: array<string>, ghost names: seq<string>, idef: ItemDefs)
      returns (r: bool)
    requires |filtered| == recipeCopy.Length && Arrangement(recipeCopy[..], names)
    requires TriedBefore(recipeCopy[..], filtered, names, idef)
    modifies recipeCopy
    ensures r == CanPair(filtered, names, idef)
  {
    hide Arrangement, TriedBefore, CanPair, MatchesAll, IsNextPermutation, Ahead;
    var more := true;
    while more
      invariant Arrangement(recipeCopy[..], names)
      invariant more ==> TriedBefore(recipeCopy[..], filtered, names, idef)
      invariant !more ==> !CanPair(filtered, names, idef)
      decreases more, |Ahead(recipeCopy[..])|
    {
      var allMatch := AllMatch(filtered, recipeCopy, idef);
      if allMatch {
        PairingFromArrangement(filtered, recipeCopy[..], names, idef);
        return true;
      }
      ghost var before := recipeCopy[..];
      more := NextPermutation(recipeCopy);
      TriedNext(before, recipeCopy[..], more, filtered, names, idef);
      if more { AheadShrinks(before, recipeCopy[..]); }
    }
    return false;
  }
}
