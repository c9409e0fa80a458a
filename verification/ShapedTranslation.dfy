/** What a shaped match means: the recipe grid laid somewhere over the input grid, and nothing else there. */
module ShapedTranslation {
  import opened CraftItems
  import opened Shaped

  /** The empty hand, which is what an empty cell holds, is in none of the groups a recipe could ask for. */
  ghost predicate HandMatchesNoGroup(idef: ItemDefs) {
    forall s :: IsGroup(s) ==> !Matches("", s, idef)
  }

  lemma HandWithoutGroups(idef: ItemDefs)
    requires forall g :: idef.group("", g) == 0
    ensures HandMatchesNoGroup(idef)
  {
    forall s | IsGroup(s) ensures !Matches("", s, idef) {
      assert GroupNames(s[6..])[0] in GroupNames(s[6..]);
    }
  }

  ghost predicate CellTranslates(inp: seq<string>, inpWidth: nat, rec: seq<string>, recWidth: nat, dx: int, dy: int,
                                 x: int, y: int, idef: ItemDefs) {
    var i, r := Cell(inp, inpWidth, x + dx, y + dy), Cell(rec, recWidth, x, y);
    if r == "" then i == "" else i != "" && Matches(i, r, idef)
  }

  /**
   * Moved by (`dx`, `dy`), every filled recipe cell lands on an item that matches it; all other input cells are empty.
   */
  ghost predicate Translates(inp: seq<string>, inpWidth: nat, rec: seq<string>, recWidth: nat, dx: int, dy: int,
                             idef: ItemDefs) {
    forall x, y :: CellTranslates(inp, inpWidth, rec, recWidth, dx, dy, x, y, idef)
  }

  ghost predicate TranslationMatches(recipe: seq<string>, width: nat, input: CraftInput, idef: ItemDefs) {
    && input.craft == Normal && input.width > 0 && width > 0
    && (exists i :: 0 <= i < |recipe| && ResolveAll(recipe, idef)[i] != "")
    && exists dx, dy :: Translates(Names(input.items), input.width, ResolveAll(recipe, idef), width, dx, dy, idef)
  }

  lemma MatchIsFilled(i: string, r: string, idef: ItemDefs)
    requires HandMatchesNoGroup(idef) && Matches(i, r, idef)
    ensures i == "" <==> r == ""
  {}

  lemma MatchesIsTranslates(inp: seq<string>, inpWidth: nat, rec: seq<string>, recWidth: nat, dx: int, dy: int,
                            idef: ItemDefs)
    requires HandMatchesNoGroup(idef)
    ensures MatchesAt(inp, inpWidth, rec, recWidth, dx, dy, idef) <==>
        Translates(inp, inpWidth, rec, recWidth, dx, dy, idef)
  {
    forall x, y
      ensures CellMatches(inp, inpWidth, rec, recWidth, dx, dy, x, y, idef) ==
          CellTranslates(inp, inpWidth, rec, recWidth, dx, dy, x, y, idef)
    {
      if CellMatches(inp, inpWidth, rec, recWidth, dx, dy, x, y, idef) {
        MatchIsFilled(Cell(inp, inpWidth, x + dx, y + dy), Cell(rec, recWidth, x, y), idef);
      }
    }
  }

  lemma BoundsExist(names: seq<string>, width: nat) returns (b: Bounds)
    requires width > 0 && exists i :: 0 <= i < |names| && names[i] != ""
    ensures IsBounds(names, width, b)
  {
    IndexOf(|names| - 1, width);
    b := BoundsExistTo(names, width, (|names| - 1) % width, (|names| - 1) / width);
  }

  lemma {:induction false} BoundsExistTo(names: seq<string>, width: nat, x: nat, y: nat) returns (b: Bounds)
    requires x < width && |names| == y * width + x + 1 && exists i :: 0 <= i < |names| && names[i] != ""
    ensures IsBounds(names, width, b)
    decreases |names|
  {
    var n := |names| - 1;
    if forall k :: 0 <= k < n ==> names[k] == "" {
      b := Bounds(x, x, y, y);
      FirstBounds(names, width, x, y);
    } else {
      var f :| 0 <= f < n && names[f] != "";
      assert names[..n][f] != "";
      if x == 0 { NextRow(y - 1, width); }
      var before;
      if x > 0 { before := BoundsExistTo(names[..n], width, x - 1, y); }
      else { before := BoundsExistTo(names[..n], width, width - 1, y - 1); }
      b := BoundsWith(names, width, x, y, before);
    }
  }

  lemma BoundsWith(names: seq<string>, width: nat, x: nat, y: nat, before: Bounds) returns (b: Bounds)
    requires x < width && |names| == y * width + x + 1 && IsBounds(names[..|names| - 1], width, before)
    ensures IsBounds(names, width, b)
  {
    if names[|names| - 1] == "" {
      b := before;
      KeepBounds(names, width, x, y, before);
    } else {
      b := Bounds(if x < before.minX then x else before.minX, if x > before.maxX then x else before.maxX,
                  if y < before.minY then y else before.minY, if y > before.maxY then y else before.maxY);
      GrowBounds(names, width, x, y, before, b);
    }
  }

  /** A box moves along with what it bounds. */
  lemma MoveBox(f: (int, int) -> bool, g: (int, int) -> bool, b: Bounds, dx: int, dy: int)
    requires IsBox(g, b) && forall x, y :: f(x, y) == g(x - dx, y - dy)
    requires forall x, y :: f(x, y) ==> 0 <= x && 0 <= y
    ensures BoxesAt(f, g, dx, dy)
  {
    var y0 :| g(b.minX, y0); assert f(b.minX + dx, y0 + dy);
    var y1 :| g(b.maxX, y1); assert f(b.maxX + dx, y1 + dy);
    var x0 :| g(x0, b.minY); assert f(x0 + dx, b.minY + dy);
    var x1 :| g(x1, b.maxY); assert f(x1 + dx, b.maxY + dy);
    assert IsBox(f, Bounds(b.minX + dx, b.maxX + dx, b.minY + dy, b.maxY + dy));
  }

  lemma TranslatesFilled(inp: seq<string>, inpWidth: nat, rec: seq<string>, recWidth: nat, dx: int, dy: int,
                         idef: ItemDefs)
    requires Translates(inp, inpWidth, rec, recWidth, dx, dy, idef)
    ensures forall x, y :: FilledIn(inp, inpWidth)(x, y) == FilledIn(rec, recWidth)(x - dx, y - dy)
  {
    forall x, y ensures FilledIn(inp, inpWidth)(x, y) == FilledIn(rec, recWidth)(x - dx, y - dy) {
      assert CellTranslates(inp, inpWidth, rec, recWidth, dx, dy, x - dx, y - dy, idef);
    }
  }

  /** The shaped check is exactly translation matching. */
  lemma ShapedIsTranslation(recipe: seq<string>, width: nat, input: CraftInput, idef: ItemDefs)
    requires HandMatchesNoGroup(idef)
    ensures Shaped.Applies(recipe, width, input, idef) <==> TranslationMatches(recipe, width, input, idef)
  {
    var inp, rec := Names(input.items), ResolveAll(recipe, idef);
    if Shaped.Applies(recipe, width, input, idef) {
      var dx, dy :| AppliesAt(recipe, width, input, idef, dx, dy);
      MatchesIsTranslates(inp, input.width, rec, width, dx, dy, idef);
      if forall i :: 0 <= i < |rec| ==> rec[i] == "" { NoRecipe(recipe, width, input, idef, rec); }
    }
    if TranslationMatches(recipe, width, input, idef) {
      var dx, dy :| Translates(inp, input.width, rec, width, dx, dy, idef);
      MatchesIsTranslates(inp, input.width, rec, width, dx, dy, idef);
      TranslatesFilled(inp, input.width, rec, width, dx, dy, idef);
      var b := BoundsExist(rec, width);
      MoveBox(FilledIn(inp, input.width), FilledIn(rec, width), b, dx, dy);
      assert AppliesAt(recipe, width, input, idef, dx, dy);
    }
  }

  lemma ThreeCells(names: seq<string>)
    requires |names| == 3
    ensures forall x, y :: Cell(names, 3, x, y) == if y == 0 && 0 <= x < 3 then names[x] else ""
  {}

  lemma ThreeWideBox(names: seq<string>)
    requires |names| == 3 && names[0] != "" && names[2] != ""
    ensures IsBox(FilledIn(names, 3), Bounds(0, 2, 0, 0))
  {
    ThreeCells(names);
    assert FilledIn(names, 3)(0, 0) && FilledIn(names, 3)(2, 0);
  }

  /** Every item, the empty hand included, is in every group. */
  const HAND_IN_GROUPS := ItemDefs(n => true, (n, g) => 1, n => false, n => n)
  const GROUP_RECIPE := ["a", "group:g", "b"]
  const GAP_INPUT := CraftInput(Normal, 3, [CraftItem("a", 1, 0), CraftItem("", 0, 0), CraftItem("b", 1, 0)])

  lemma GapNames()
    ensures Names(GAP_INPUT.items) == ["a", "", "b"]
    ensures ResolveAll(GROUP_RECIPE, HAND_IN_GROUPS) == GROUP_RECIPE
  {}

  lemma GapMatches()
    ensures forall i :: 0 <= i < 3 ==> Matches(["a", "", "b"][i], GROUP_RECIPE[i], HAND_IN_GROUPS)
  {
    var idef := HAND_IN_GROUPS;
    assert "group:g" == "group:" + "g";
    assert IsGroup("group:g");
    assert idef.known("") && InEveryGroup("", "group:g"[6..], idef);
  }

  /** With a hand that is in a group, the check accepts an empty cell where the recipe asks for that group. */
  lemma HandInGroupBreaksTranslation()
    ensures Shaped.Applies(GROUP_RECIPE, 3, GAP_INPUT, HAND_IN_GROUPS)
    ensures !TranslationMatches(GROUP_RECIPE, 3, GAP_INPUT, HAND_IN_GROUPS)
  {
    GapNames();
    GapMatches();
    GapSeparates(GROUP_RECIPE, GAP_INPUT, HAND_IN_GROUPS, ["a", "", "b"], GROUP_RECIPE);
  }

  /**
   * The shaped check is translation matching, for every recipe and input, exactly when the hand matches no group: as
   * soon as some item `x` keeps its name and group entries are their own names, a hand in a group spoils a recipe.
   */
  lemma HandDecides(idef: ItemDefs, x: string)
    requires x != "" && idef.resolve(x) == x && forall s :: IsGroup(s) ==> idef.resolve(s) == s
    ensures HandMatchesNoGroup(idef) <==> forall recipe, width, input :: Agrees(recipe, width, input, idef)
  {
    if HandMatchesNoGroup(idef) {
      forall recipe, width, input ensures Agrees(recipe, width, input, idef) {
        ShapedIsTranslation(recipe, width, input, idef);
      }
    } else {
      var g :| IsGroup(g) && Matches("", g, idef);
      HandSpoils(idef, x, g);
      assert !Agrees([x, g, x], 3, GapInput(x), idef);
    }
  }

  ghost predicate Agrees(recipe: seq<string>, width: nat, input: CraftInput, idef: ItemDefs) {
    Shaped.Applies(recipe, width, input, idef) <==> TranslationMatches(recipe, width, input, idef)
  }

  function GapInput(x: string): CraftInput {
    CraftInput(Normal, 3, [CraftItem(x, 1, 0), CraftItem("", 0, 0), CraftItem(x, 1, 0)])
  }

  lemma HandSpoils(idef: ItemDefs, x: string, g: string)
    requires x != "" && idef.resolve(x) == x && idef.resolve(g) == g && IsGroup(g) && Matches("", g, idef)
    ensures !Agrees([x, g, x], 3, GapInput(x), idef)
  {
    hide Shaped.Applies, TranslationMatches, InEveryGroup;
    var recipe, names := [x, g, x], [x, "", x];
    GroupIsFilled(g);
    assert ResolveAll(recipe, idef) == recipe && Names(GapInput(x).items) == names;
    assert forall i :: 0 <= i < 3 ==> recipe[i] != "" && Matches(names[i], recipe[i], idef);
    GapSeparates(recipe, GapInput(x), idef, names, recipe);
  }

  lemma GroupIsFilled(g: string)
    requires IsGroup(g)
    ensures g != ""
  {}

  lemma GapSeparates(recipe: seq<string>, input: CraftInput, idef: ItemDefs, inp: seq<string>, rec: seq<string>)
    requires inp == Names(input.items) && rec == ResolveAll(recipe, idef) && input.width == 3 && input.craft == Normal
    requires |inp| == |rec| == 3 && inp[0] != "" && inp[1] == "" && inp[2] != ""
    requires forall i :: 0 <= i < 3 ==> rec[i] != "" && Matches(inp[i], rec[i], idef)
    ensures Shaped.Applies(recipe, 3, input, idef)
    ensures !TranslationMatches(recipe, 3, input, idef)
  {
    ThreeWideMatches(inp, rec, idef);
    BoxesSuffice(inp, 3, Bounds(0, 2, 0, 0), rec, 3, Bounds(0, 2, 0, 0), idef);
    assert AppliesAt(recipe, 3, input, idef, 0, 0);
    EmptyMiddleCannotTranslate(inp, rec, idef);
  }

  lemma ThreeWideMatches(inp: seq<string>, rec: seq<string>, idef: ItemDefs)
    requires |inp| == |rec| == 3 && inp[0] != "" && inp[2] != "" && rec[0] != "" && rec[2] != ""
    requires forall i :: 0 <= i < 3 ==> Matches(inp[i], rec[i], idef)
    ensures IsBounds(inp, 3, Bounds(0, 2, 0, 0)) && IsBounds(rec, 3, Bounds(0, 2, 0, 0))
    ensures forall x, y :: Inside(Bounds(0, 2, 0, 0), x, y) ==> CellMatches(inp, 3, rec, 3, 0, 0, x, y, idef)
  {
    ThreeWideBox(inp);
    ThreeWideBox(rec);
    ThreeCells(inp);
    ThreeCells(rec);
  }

  lemma EmptyMiddleCannotTranslate(inp: seq<string>, rec: seq<string>, idef: ItemDefs)
    requires |inp| == |rec| == 3 && inp[1] == "" && forall i :: 0 <= i < 3 ==> rec[i] != ""
    ensures forall dx, dy :: !Translates(inp, 3, rec, 3, dx, dy, idef)
  {
    ThreeCells(inp);
    ThreeCells(rec);
    forall dx, dy ensures !Translates(inp, 3, rec, 3, dx, dy, idef) {
      assert !(CellTranslates(inp, 3, rec, 3, dx, dy, 0, 0, idef)
            && CellTranslates(inp, 3, rec, 3, dx, dy, 1, 0, idef));
    }
  }

  // ----- equally many filled cells -----

  function Positions(names: seq<string>, p: string -> bool): set<int> {
    set i | 0 <= i < |names| && p(names[i])
  }

  function CountIf(names: seq<string>, p: string -> bool): nat {
    if names == [] then 0 else CountIf(names[..|names| - 1], p) + if p(names[|names| - 1]) then 1 else 0
  }

  lemma {:induction false} CountPositions(names: seq<string>, p: string -> bool)
    ensures |Positions(names, p)| == CountIf(names, p)
  {
    if names != [] {
      var n := |names| - 1;
      CountPositions(names[..n], p);
      assert Positions(names, p) == Positions(names[..n], p) + if p(names[n]) then {n} else {};
    }
  }

  lemma {:induction false} CountName(names: seq<string>, k: string)
    ensures CountIf(names, n => n == k) == multiset(names)[k]
  {
    if names != [] {
      CountName(names[..|names| - 1], k);
      assert names == names[..|names| - 1] + [names[|names| - 1]];
    }
  }

  lemma {:induction false} CountFilled(names: seq<string>)
    ensures CountIf(names, n => n != "") == |NonEmpty(names)|
  {
    if names != [] {
      var n := |names| - 1;
      CountFilled(names[..n]);
      NonEmptyAppend(names[..n], [names[n]]);
      assert names == names[..n] + [names[n]];
    }
  }

  /** An injection of one finite set into another. */
  lemma {:induction false} InjectionSize<T>(a: set<T>, b: set<T>, h: T -> T)
    requires forall i :: i in a ==> h(i) in b
    requires forall i, j :: i in a && j in a && i != j ==> h(i) != h(j)
    ensures |a| <= |b|
    decreases |a|
  {
    if a != {} {
      var i :| i in a;
      InjectionSize(a - {i}, b - {h(i)}, h);
    }
  }

  function MovedIndex(i: int, aw: nat, bw: nat, dx: int, dy: int): int
    requires aw > 0
  {
    (i / aw + dy) * bw + (i % aw + dx)
  }

  lemma LandsOn(a: seq<string>, aw: nat, b: seq<string>, bw: nat, dx: int, dy: int, p: string -> bool, i: int)
    requires aw > 0 && !p("") && i in Positions(a, p)
    requires forall x, y :: p(Cell(a, aw, x, y)) ==> p(Cell(b, bw, x + dx, y + dy))
    ensures MovedIndex(i, aw, bw, dx, dy) in Positions(b, p) && 0 <= i % aw + dx < bw
  {
    IndexOf(i, aw);
    assert p(Cell(a, aw, i % aw, i / aw));
    assert p(Cell(b, bw, i % aw + dx, i / aw + dy));
    RowStart(i / aw + dy, bw);
  }

  lemma LandsApart(aw: nat, bw: nat, dx: int, dy: int, i: nat, j: nat)
    requires aw > 0 && 0 <= i % aw + dx < bw && 0 <= j % aw + dx < bw
    requires MovedIndex(i, aw, bw, dx, dy) == MovedIndex(j, aw, bw, dx, dy)
    ensures i == j
  {
    SameIndex(i % aw + dx, i / aw + dy, j % aw + dx, j / aw + dy, bw);
    IndexOf(i, aw);
    IndexOf(j, aw);
  }

  /** If every `p` cell of `a` lands on a `p` cell of `b`, then `b` has at least as many of them. */
  lemma CountAtMost(a: seq<string>, aw: nat, b: seq<string>, bw: nat, dx: int, dy: int, p: string -> bool)
    requires aw > 0 && !p("")
    requires forall x, y :: p(Cell(a, aw, x, y)) ==> p(Cell(b, bw, x + dx, y + dy))
    ensures CountIf(a, p) <= CountIf(b, p)
  {
    var h := i => MovedIndex(i, aw, bw, dx, dy);
    forall i | i in Positions(a, p) ensures h(i) in Positions(b, p) { LandsOn(a, aw, b, bw, dx, dy, p, i); }
    forall i, j | i in Positions(a, p) && j in Positions(a, p) && i != j ensures h(i) != h(j) {
      LandsOn(a, aw, b, bw, dx, dy, p, i);
      LandsOn(a, aw, b, bw, dx, dy, p, j);
      if h(i) == h(j) { LandsApart(aw, bw, dx, dy, i, j); }
    }
    InjectionSize(Positions(a, p), Positions(b, p), h);
    CountPositions(a, p);
    CountPositions(b, p);
  }

  lemma CountSame(inp: seq<string>, inpWidth: nat, rec: seq<string>, recWidth: nat, dx: int, dy: int, p: string -> bool)
    requires inpWidth > 0 && recWidth > 0 && !p("")
    requires forall x, y :: p(Cell(inp, inpWidth, x + dx, y + dy)) == p(Cell(rec, recWidth, x, y))
    ensures CountIf(inp, p) == CountIf(rec, p)
  {
    CountAtMost(rec, recWidth, inp, inpWidth, dx, dy, p);
    forall x, y | p(Cell(inp, inpWidth, x, y)) ensures p(Cell(rec, recWidth, x + -dx, y + -dy)) {
      assert p(Cell(inp, inpWidth, (x - dx) + dx, (y - dy) + dy)) == p(Cell(rec, recWidth, x - dx, y - dy));
    }
    CountAtMost(inp, inpWidth, rec, recWidth, -dx, -dy, p);
  }

  /** A matching shaped recipe has as many filled cells as the input has items. */
  lemma ShapedCount(recipe: seq<string>, width: nat, input: CraftInput, idef: ItemDefs)
    requires HandMatchesNoGroup(idef) && Shaped.Applies(recipe, width, input, idef)
    ensures |NonEmpty(Names(input.items))| == |NonEmpty(ResolveAll(recipe, idef))|
  {
    var inp, rec := Names(input.items), ResolveAll(recipe, idef);
    var dx, dy :| AppliesAt(recipe, width, input, idef, dx, dy);
    MatchesIsTranslates(inp, input.width, rec, width, dx, dy, idef);
    var p := n => n != "";
    forall x, y ensures p(Cell(inp, input.width, x + dx, y + dy)) == p(Cell(rec, width, x, y)) {
      assert CellTranslates(inp, input.width, rec, width, dx, dy, x, y, idef);
    }
    CountSame(inp, input.width, rec, width, dx, dy, p);
    CountFilled(inp);
    CountFilled(rec);
  }

  /** Without group entries a matching recipe's cells are the input's, moved. */
  lemma SameCells(recipe: seq<string>, width: nat, input: CraftInput, idef: ItemDefs) returns (dx: int, dy: int)
    requires HandMatchesNoGroup(idef) && Shaped.Applies(recipe, width, input, idef)
    requires forall i :: 0 <= i < |recipe| ==> !IsGroup(ResolveAll(recipe, idef)[i])
    ensures input.width > 0 && width > 0
    ensures forall x, y ::
        Cell(Names(input.items), input.width, x + dx, y + dy) == Cell(ResolveAll(recipe, idef), width, x, y)
  {
    hide Cell, CellMatches, BoxesAt, IsGroup;
    var inp, rec := Names(input.items), ResolveAll(recipe, idef);
    dx, dy :| AppliesAt(recipe, width, input, idef, dx, dy);
    forall x, y ensures Cell(inp, input.width, x + dx, y + dy) == Cell(rec, width, x, y) {
      SameCell(inp, input.width, rec, width, dx, dy, x, y, idef);
    }
  }

  lemma SameCell(inp: seq<string>, inpWidth: nat, rec: seq<string>, recWidth: nat, dx: int, dy: int, x: int, y: int,
                 idef: ItemDefs)
    requires HandMatchesNoGroup(idef) && CellMatches(inp, inpWidth, rec, recWidth, dx, dy, x, y, idef)
    requires forall i :: 0 <= i < |rec| ==> !IsGroup(rec[i])
    ensures Cell(inp, inpWidth, x + dx, y + dy) == Cell(rec, recWidth, x, y)
  {
    if 0 <= y { RowStart(y, recWidth); }
  }

  /** Without group entries it has the very same names. */
  lemma ShapedNames(recipe: seq<string>, width: nat, input: CraftInput, idef: ItemDefs)
    requires HandMatchesNoGroup(idef) && Shaped.Applies(recipe, width, input, idef)
    requires forall i :: 0 <= i < |recipe| ==> !IsGroup(ResolveAll(recipe, idef)[i])
    ensures multiset(NonEmpty(Names(input.items))) == multiset(NonEmpty(ResolveAll(recipe, idef)))
  {
    var inp, rec := Names(input.items), ResolveAll(recipe, idef);
    var dx, dy := SameCells(recipe, width, input, idef);
    hide Cell, NonEmpty, Shaped.Applies, IsGroup;
    forall k ensures multiset(NonEmpty(inp))[k] == multiset(NonEmpty(rec))[k] {
      NonEmptyCount(inp, k);
      NonEmptyCount(rec, k);
      if k != "" {
        CountSame(inp, input.width, rec, width, dx, dy, n => n == k);
        CountName(inp, k);
        CountName(rec, k);
      }
    }
  }
}
