/** Shaped recipes: the check that normalises both grids by their bounding boxes. */
module Shaped {
  import opened CraftItems
  import opened Options

  /** The name at column `x`, row `y` of a row-major grid; "" outside it and in the unfilled part of the last row. */
  function Cell(names: seq<string>, width: nat, x: int, y: int): string {
    if 0 <= x < width && 0 <= y && y * width + x < |names| then
      RowStart(y, width);
      names[y * width + x]
    else ""
  }

  lemma RowStart(y: nat, width: nat)
    ensures 0 <= y * width
  {}

  datatype Bounds = Bounds(minX: nat, maxX: nat, minY: nat, maxY: nat)

  predicate Inside(b: Bounds, x: int, y: int) {
    b.minX <= x <= b.maxX && b.minY <= y <= b.maxY
  }

  /** Which cells of a grid are filled. */
  function FilledIn(names: seq<string>, width: nat): (int, int) -> bool {
    (x, y) => Cell(names, width, x, y) != ""
  }

  /** `b` is the least box around the filled cells. */
  ghost predicate IsBox(filled: (int, int) -> bool, b: Bounds) {
    && (forall x, y :: filled(x, y) ==> Inside(b, x, y))
    && (exists y :: filled(b.minX, y))
    && (exists y :: filled(b.maxX, y))
    && (exists x :: filled(x, b.minY))
    && (exists x :: filled(x, b.maxY))
  }

  ghost predicate IsBounds(names: seq<string>, width: nat, b: Bounds) {
    IsBox(FilledIn(names, width), b)
  }

  lemma BoxUnique(filled: (int, int) -> bool, b: Bounds, c: Bounds)
    requires IsBox(filled, b) && IsBox(filled, c)
    ensures b == c
  {}

  /** Every recipe cell, moved by (`dx`, `dy`), matches the input cell it lands on, and the two boxes coincide. */
  ghost predicate MatchesAt(inp: seq<string>, inpWidth: nat, rec: seq<string>, recWidth: nat, dx: int, dy: int,
                            idef: ItemDefs) {
    forall x, y :: CellMatches(inp, inpWidth, rec, recWidth, dx, dy, x, y, idef)
  }

  ghost predicate CellMatches(inp: seq<string>, inpWidth: nat, rec: seq<string>, recWidth: nat, dx: int, dy: int,
                              x: int, y: int, idef: ItemDefs) {
    Matches(Cell(inp, inpWidth, x + dx, y + dy), Cell(rec, recWidth, x, y), idef)
  }

  ghost predicate BoxesAt(inpFilled: (int, int) -> bool, recFilled: (int, int) -> bool, dx: int, dy: int) {
    exists b, c :: IsBox(recFilled, b) && IsBox(inpFilled, c)
      && c.minX == b.minX + dx && c.maxX == b.maxX + dx && c.minY == b.minY + dy && c.maxY == b.maxY + dy
  }

  ghost predicate AppliesAt(recipe: seq<string>, width: nat, input: CraftInput, idef: ItemDefs, dx: int, dy: int) {
    && MatchesAt(Names(input.items), input.width, ResolveAll(recipe, idef), width, dx, dy, idef)
    && BoxesAt(FilledIn(Names(input.items), input.width), FilledIn(ResolveAll(recipe, idef), width), dx, dy)
  }

  ghost predicate Applies(recipe: seq<string>, width: nat, input: CraftInput, idef: ItemDefs) {
    input.craft == Normal && input.width > 0 && width > 0
    && exists dx, dy :: AppliesAt(recipe, width, input, idef, dx, dy)
  }

  // ----- grid arithmetic -----

  lemma IndexOf(i: nat, width: nat)
    requires width > 0
    ensures i == (i / width) * width + i % width
  {}

  lemma RowBelow(y: int, z: int, width: nat)
    requires y <= z
    ensures y * width <= z * width
  {
    assert (z - y) * width >= 0;
    assert z * width == y * width + (z - y) * width;
  }

  lemma NextRow(y: int, width: nat)
    ensures (y + 1) * width == y * width + width
  {}

  lemma SameIndex(x: nat, y: int, x': nat, y': int, width: nat)
    requires x < width && x' < width && y * width + x == y' * width + x'
    ensures x == x' && y == y'
  {
    NextRow(y, width);
    NextRow(y', width);
    if y < y' { RowBelow(y + 1, y', width); }
    if y' < y { RowBelow(y' + 1, y, width); }
  }

  /** A cell in a row and column that both lie within a filled grid has an index. */
  lemma InGrid(names: seq<string>, width: nat, rows: nat, x: nat, y: nat)
    requires |names| == rows * width && x < width && y < rows
    ensures 0 <= y * width + x < |names|
  {
    RowBelow(y + 1, rows, width);
    assert (y + 1) * width == y * width + width;
  }

  lemma RowInGrid(names: seq<string>, width: nat, rows: nat, x: int, y: int)
    requires |names| == rows * width && FilledIn(names, width)(x, y)
    ensures 0 <= x < width && 0 <= y < rows
  {
    if rows <= y { RowBelow(rows, y, width); }
  }

  // ----- the algorithm -----

  method Pad(names: seq<string>, width: nat) returns (padded: seq<string>, ghost rows: nat)
    requires width > 0
    ensures |padded| == rows * width
    ensures forall x, y :: Cell(padded, width, x, y) == Cell(names, width, x, y)
  {
    padded := names;
    while |padded| % width != 0
      invariant names <= padded && forall i :: |names| <= i < |padded| ==> padded[i] == ""
      decreases Missing(|padded|, width)
    {
      PadStep(|padded|, width);
      padded := padded + [""];
    }
    rows := |padded| / width;
    IndexOf(|padded|, width);
    PaddedCells(names, padded, width);
  }

  lemma PaddedCells(names: seq<string>, padded: seq<string>, width: nat)
    requires names <= padded && forall i :: |names| <= i < |padded| ==> padded[i] == ""
    ensures forall x, y :: Cell(padded, width, x, y) == Cell(names, width, x, y)
  {
    forall x, y ensures Cell(padded, width, x, y) == Cell(names, width, x, y) {
      if 0 <= x && 0 <= y { RowStart(y, width); }
    }
  }

  /** How many cells the last row still lacks. */
  function Missing(n: nat, width: nat): nat
    requires width > 0
  {
    if n % width == 0 then 0 else width - n % width
  }

  lemma PadStep(n: nat, width: nat)
    requires width > 0 && n % width != 0
    ensures Missing(n + 1, width) == Missing(n, width) - 1
  {
    var q := n / width;
    IndexOf(n, width);
    if n % width + 1 == width {
      NextRow(q, width);
      ModUnique(n + 1, q + 1, 0, width);
    } else {
      ModUnique(n + 1, q, n % width + 1, width);
    }
  }

  lemma ModUnique(n: nat, q: nat, r: nat, width: nat)
    requires r < width && n == q * width + r
    ensures n / width == q && n % width == r
  {
    IndexOf(n, width);
    SameIndex(n % width, n / width, r, q, width);
  }

  /** `craftGetBounds`: one pass that keeps the running box. */
  method GetBounds(items: seq<string>, width: nat, ghost rows: nat) returns (success: bool, b: Bounds)
    requires width > 0 && |items| == rows * width
    ensures success <==> exists i :: 0 <= i < |items| && items[i] != ""
    ensures success ==> IsBounds(items, width, b)
  {
    success, b := false, Bounds(0, 0, 0, 0);
    var x, y := 0, 0;
    for i := 0 to |items|
      invariant x < width && 0 <= y && i == y * width + x
      invariant !success ==> forall k :: 0 <= k < i ==> items[k] == ""
      invariant success ==> IsBounds(items[..i], width, b)
      invariant success ==> exists k :: 0 <= k < i && items[k] != ""
    {
      ghost var old_b := b;
      if items[i] != "" {
        if !success {
          b := Bounds(x, x, y, y);
          FirstBounds(items[..i + 1], width, x, y);
          success := true;
        } else {
          if x < b.minX { b := b.(minX := x); }
          if x > b.maxX { b := b.(maxX := x); }
          if y < b.minY { b := b.(minY := y); }
          if y > b.maxY { b := b.(maxY := y); }
          assert items[..i + 1][..i] == items[..i];
          GrowBounds(items[..i + 1], width, x, y, old_b, b);
        }
      } else if success {
        assert items[..i + 1][..i] == items[..i];
        KeepBounds(items[..i + 1], width, x, y, b);
      }
      x := x + 1;
      if x == width {
        assert (y + 1) * width == y * width + width;
        x, y := 0, y + 1;
      }
    }
    assert items[..|items|] == items;
  }

  /** How the filled cells grow when one more name is read, at column `x` of row `y`. */
  lemma OneMoreCell(items: seq<string>, width: nat, x: nat, y: nat)
    requires x < width && |items| == y * width + x + 1
    ensures forall u, v :: FilledIn(items, width)(u, v) ==
              if u == x && v == y then items[|items| - 1] != "" else FilledIn(items[..|items| - 1], width)(u, v)
    ensures !FilledIn(items[..|items| - 1], width)(x, y)
  {
    forall u, v ensures FilledIn(items, width)(u, v) ==
        if u == x && v == y then items[|items| - 1] != "" else FilledIn(items[..|items| - 1], width)(u, v) {
      OneCell(items, width, x, y, u, v);
    }
  }

  lemma OneCell(items: seq<string>, width: nat, x: nat, y: nat, u: int, v: int)
    requires x < width && |items| == y * width + x + 1
    ensures Cell(items, width, u, v) ==
        if u == x && v == y then items[|items| - 1] else Cell(items[..|items| - 1], width, u, v)
  {
    if 0 <= u < width && 0 <= v {
      RowStart(v, width);
      if v * width + u == y * width + x { SameIndex(u, v, x, y, width); }
    }
  }

  lemma FirstBounds(items: seq<string>, width: nat, x: nat, y: nat)
    requires x < width && |items| == y * width + x + 1
    requires items[|items| - 1] != "" && forall k :: 0 <= k < |items| - 1 ==> items[k] == ""
    ensures IsBounds(items, width, Bounds(x, x, y, y))
  {
    OneMoreCell(items, width, x, y);
    NothingFilled(items[..|items| - 1], width);
    FirstBox(FilledIn(items, width), x, y);
  }

  lemma FirstBox(f: (int, int) -> bool, x: nat, y: nat)
    requires forall u, v :: f(u, v) == (u == x && v == y)
    ensures IsBox(f, Bounds(x, x, y, y))
  {
    assert f(x, y);
  }

  lemma EmptyCells(names: seq<string>, width: nat, x: int, y: int)
    requires forall k :: 0 <= k < |names| ==> names[k] == ""
    ensures Cell(names, width, x, y) == ""
  {
    if 0 <= y { RowStart(y, width); }
  }

  lemma GrowBounds(items: seq<string>, width: nat, x: nat, y: nat, b: Bounds, c: Bounds)
    requires x < width && |items| == y * width + x + 1
    requires items[|items| - 1] != "" && IsBounds(items[..|items| - 1], width, b)
    requires Grown(b, x, y, c)
    ensures IsBounds(items, width, c)
  {
    OneMoreCell(items, width, x, y);
    GrowBox(FilledIn(items[..|items| - 1], width), FilledIn(items, width), x, y, b, c);
  }

  predicate Grown(b: Bounds, x: nat, y: nat, c: Bounds) {
    && c.minX == (if x < b.minX then x else b.minX) && c.maxX == (if x > b.maxX then x else b.maxX)
    && c.minY == (if y < b.minY then y else b.minY) && c.maxY == (if y > b.maxY then y else b.maxY)
  }

  lemma GrowBox(f: (int, int) -> bool, g: (int, int) -> bool, x: nat, y: nat, b: Bounds, c: Bounds)
    requires IsBox(f, b) && forall u, v :: g(u, v) == (if u == x && v == y then true else f(u, v))
    requires Grown(b, x, y, c)
    ensures IsBox(g, c)
  {
    assert g(x, y);
    var y0 :| f(b.minX, y0); assert g(b.minX, y0);
    var y1 :| f(b.maxX, y1); assert g(b.maxX, y1);
    var x0 :| f(x0, b.minY); assert g(x0, b.minY);
    var x1 :| f(x1, b.maxY); assert g(x1, b.maxY);
  }

  lemma KeepBounds(items: seq<string>, width: nat, x: nat, y: nat, b: Bounds)
    requires x < width && |items| == y * width + x + 1
    requires items[|items| - 1] == "" && IsBounds(items[..|items| - 1], width, b)
    ensures IsBounds(items, width, b)
  {
    hide Cell, IsBox;
    OneMoreCell(items, width, x, y);
    SameBox(FilledIn(items[..|items| - 1], width), FilledIn(items, width), b);
  }

  lemma SameBox(f: (int, int) -> bool, g: (int, int) -> bool, b: Bounds)
    requires IsBox(f, b) && forall u, v :: g(u, v) == f(u, v)
    ensures IsBox(g, b)
  {
    var y0 :| f(b.minX, y0); assert g(b.minX, y0);
    var y1 :| f(b.maxX, y1); assert g(b.maxX, y1);
    var x0 :| f(x0, b.minY); assert g(x0, b.minY);
    var x1 :| f(x1, b.maxY); assert g(x1, b.maxY);
  }

  /** The double loop over the two bounding boxes. */
  method BoxesMatch(inp: seq<string>, inpWidth: nat, ghost inpRows: nat, ib: Bounds,
                    rec: seq<string>, recWidth: nat, ghost recRows: nat, rb: Bounds, idef: ItemDefs) returns (all: bool)
    requires |inp| == inpRows * inpWidth && |rec| == recRows * recWidth
    requires ib.minX <= ib.maxX < inpWidth && ib.minY <= ib.maxY < inpRows
    requires rb.minX <= rb.maxX < recWidth && rb.minY <= rb.maxY < recRows
    requires ib.maxX - ib.minX == rb.maxX - rb.minX && ib.maxY - ib.minY == rb.maxY - rb.minY
    ensures all <==> forall x, y :: Inside(rb, x, y) ==>
              CellMatches(inp, inpWidth, rec, recWidth, ib.minX - rb.minX, ib.minY - rb.minY, x, y, idef)
  {
    var w := ib.maxX - ib.minX + 1;
    var h := ib.maxY - ib.minY + 1;
    ghost var dx, dy := ib.minX - rb.minX, ib.minY - rb.minY;
    for y := 0 to h
      invariant forall u, v ::
          Inside(rb, u, v) && v < rb.minY + y ==> CellMatches(inp, inpWidth, rec, recWidth, dx, dy, u, v, idef)
    {
      var inpY := (ib.minY + y) * inpWidth;
      var recY := (rb.minY + y) * recWidth;
      for x := 0 to w
        invariant forall u, v ::
            rb.minX <= u < rb.minX + x && v == rb.minY + y ==>
                CellMatches(inp, inpWidth, rec, recWidth, dx, dy, u, v, idef)
      {
        InGrid(inp, inpWidth, inpRows, ib.minX + x, ib.minY + y);
        InGrid(rec, recWidth, recRows, rb.minX + x, rb.minY + y);
        var m := InputItemMatchesRecipe(inp[inpY + ib.minX + x], rec[recY + rb.minX + x], idef);
        assert m == CellMatches(inp, inpWidth, rec, recWidth, dx, dy, rb.minX + x, rb.minY + y, idef);
        if !m {
          assert Inside(rb, rb.minX + x, rb.minY + y);
          return false;
        }
      }
    }
    return true;
  }

  lemma BoundsInGrid(names: seq<string>, width: nat, rows: nat, b: Bounds)
    requires |names| == rows * width && IsBounds(names, width, b)
    ensures b.minX <= b.maxX < width && b.minY <= b.maxY < rows
  {
    var f := FilledIn(names, width);
    var y1 :| f(b.maxX, y1); RowInGrid(names, width, rows, b.maxX, y1);
    var x1 :| f(x1, b.maxY); RowInGrid(names, width, rows, x1, b.maxY);
    assert Inside(b, b.maxX, y1) && Inside(b, x1, b.maxY);
  }

  lemma NothingFilled(names: seq<string>, width: nat)
    requires forall i :: 0 <= i < |names| ==> names[i] == ""
    ensures forall x, y :: !FilledIn(names, width)(x, y)
  {
    forall x, y ensures !FilledIn(names, width)(x, y) { EmptyCells(names, width, x, y); }
  }

  /** `CraftDefinitionShaped::check`. `hashed` is the name list stored by `initHash`, if it ran. */
  method Check(recipe: seq<string>, width: nat, hashed: Option<seq<string>>, input: CraftInput, idef: ItemDefs)
      returns (r: bool)
    requires hashed.Some? ==> hashed.value == ResolveAll(recipe, idef)
    ensures r == Applies(recipe, width, input, idef)
  {
    if input.craft != Normal { return false; }
    ghost var inp0, rec0 := Names(input.items), ResolveAll(recipe, idef);
    if input.width == 0 { return false; }
    var inp, inpRows := Pad(Names(input.items), input.width);
    var someInput, ib := GetBounds(inp, input.width, inpRows);
    if !someInput {
      NoInput(recipe, width, input, idef, inp);
      return false;
    }
    var recNames := if hashed.Some? then hashed.value else ResolveAll(recipe, idef);
    if width == 0 { return false; }
    var rec, recRows := Pad(recNames, width);
    var someRecipe, rb := GetBounds(rec, width, recRows);
    if !someRecipe {
      NoRecipe(recipe, width, input, idef, rec);
      return false;
    }
    PaddedBounds(inp0, inp, input.width, ib);
    PaddedBounds(rec0, rec, width, rb);
    if ib.maxX - ib.minX != rb.maxX - rb.minX || ib.maxY - ib.minY != rb.maxY - rb.minY {
      assert !Applies(recipe, width, input, idef) by {
        if Applies(recipe, width, input, idef) { OnlyShift(recipe, width, input, idef, ib, rb); }
      }
      return false;
    }
    BoundsInGrid(inp, input.width, inpRows, ib);
    BoundsInGrid(rec, width, recRows, rb);
    r := BoxesMatch(inp, input.width, inpRows, ib, rec, width, recRows, rb, idef);
    PaddedMatches(inp0, inp, input.width, rec0, rec, width, ib.minX - rb.minX, ib.minY - rb.minY, idef);
    BoxesDecide(recipe, width, input, idef, ib, rb);
  }

  lemma PaddedMatches(inp0: seq<string>, inp: seq<string>, inpWidth: nat, rec0: seq<string>, rec: seq<string>,
                      recWidth: nat,
                      dx: int, dy: int, idef: ItemDefs)
    requires forall x, y :: Cell(inp, inpWidth, x, y) == Cell(inp0, inpWidth, x, y)
    requires forall x, y :: Cell(rec, recWidth, x, y) == Cell(rec0, recWidth, x, y)
    ensures forall x, y ::
        CellMatches(inp, inpWidth, rec, recWidth, dx, dy, x, y, idef) ==
            CellMatches(inp0, inpWidth, rec0, recWidth, dx, dy, x, y, idef)
  {}

  /** With equal box sizes, comparing the boxes decides the recipe. */
  lemma BoxesDecide(recipe: seq<string>, width: nat, input: CraftInput, idef: ItemDefs, ib: Bounds, rb: Bounds)
    requires input.craft == Normal && input.width > 0 && width > 0
    requires IsBounds(Names(input.items), input.width, ib) && IsBounds(ResolveAll(recipe, idef), width, rb)
    requires ib.maxX - ib.minX == rb.maxX - rb.minX && ib.maxY - ib.minY == rb.maxY - rb.minY
    ensures Applies(recipe, width, input, idef) <==> forall x, y :: Inside(rb, x, y) ==>
              CellMatches(Names(input.items), input.width, ResolveAll(recipe, idef), width, ib.minX - rb.minX,
                  ib.minY - rb.minY, x, y, idef)
  {
    hide CellMatches, IsBounds, Names, ResolveAll;
    var dx, dy := ib.minX - rb.minX, ib.minY - rb.minY;
    if Applies(recipe, width, input, idef) { OnlyShift(recipe, width, input, idef, ib, rb); }
    if forall x, y :: Inside(rb, x, y) ==>
        CellMatches(Names(input.items), input.width, ResolveAll(recipe, idef), width, dx, dy, x, y, idef) {
      BoxesSuffice(Names(input.items), input.width, ib, ResolveAll(recipe, idef), width, rb, idef);
      assert AppliesAt(recipe, width, input, idef, dx, dy);
    }
  }

  lemma PaddedBounds(names: seq<string>, padded: seq<string>, width: nat, b: Bounds)
    requires forall x, y :: Cell(padded, width, x, y) == Cell(names, width, x, y)
    ensures IsBounds(padded, width, b) == IsBounds(names, width, b)
  {
    if IsBounds(padded, width, b) { SameBox(FilledIn(padded, width), FilledIn(names, width), b); }
    if IsBounds(names, width, b) { SameBox(FilledIn(names, width), FilledIn(padded, width), b); }
  }

  lemma NoInput(recipe: seq<string>, width: nat, input: CraftInput, idef: ItemDefs, inp: seq<string>)
    requires forall x, y :: Cell(inp, input.width, x, y) == Cell(Names(input.items), input.width, x, y)
    requires forall i :: 0 <= i < |inp| ==> inp[i] == ""
    ensures !Applies(recipe, width, input, idef)
  {
    NothingFilled(inp, input.width);
    var f := FilledIn(Names(input.items), input.width);
    assert forall x, y :: f(x, y) == FilledIn(inp, input.width)(x, y);
    forall dx, dy ensures !BoxesAt(f, FilledIn(ResolveAll(recipe, idef), width), dx, dy) {}
  }

  lemma NoRecipe(recipe: seq<string>, width: nat, input: CraftInput, idef: ItemDefs, rec: seq<string>)
    requires forall x, y :: Cell(rec, width, x, y) == Cell(ResolveAll(recipe, idef), width, x, y)
    requires forall i :: 0 <= i < |rec| ==> rec[i] == ""
    ensures !Applies(recipe, width, input, idef)
  {
    NothingFilled(rec, width);
    var g := FilledIn(ResolveAll(recipe, idef), width);
    assert forall x, y :: g(x, y) == FilledIn(rec, width)(x, y);
    forall dx, dy ensures !BoxesAt(FilledIn(Names(input.items), input.width), g, dx, dy) {}
  }

  lemma BoxShift(f: (int, int) -> bool, g: (int, int) -> bool, ib: Bounds, rb: Bounds, dx: int, dy: int)
    requires IsBox(f, ib) && IsBox(g, rb) && BoxesAt(f, g, dx, dy)
    ensures ib.minX == rb.minX + dx && ib.maxX == rb.maxX + dx && ib.minY == rb.minY + dy && ib.maxY == rb.maxY + dy
  {
    var b, c :| IsBox(g, b) && IsBox(f, c)
      && c.minX == b.minX + dx && c.maxX == b.maxX + dx && c.minY == b.minY + dy && c.maxY == b.maxY + dy;
    BoxUnique(f, ib, c);
    BoxUnique(g, rb, b);
  }

  /** The only shift that can work is the one that lays the recipe's box over the input's. */
  lemma OnlyShift(recipe: seq<string>, width: nat, input: CraftInput, idef: ItemDefs, ib: Bounds, rb: Bounds)
    requires IsBounds(Names(input.items), input.width, ib) && IsBounds(ResolveAll(recipe, idef), width, rb)
    requires Applies(recipe, width, input, idef)
    ensures ib.maxX - ib.minX == rb.maxX - rb.minX && ib.maxY - ib.minY == rb.maxY - rb.minY
    ensures AppliesAt(recipe, width, input, idef, ib.minX - rb.minX, ib.minY - rb.minY)
  {
    var dx, dy :| AppliesAt(recipe, width, input, idef, dx, dy);
    BoxShift(FilledIn(Names(input.items), input.width), FilledIn(ResolveAll(recipe, idef), width), ib, rb, dx, dy);
  }

  /** Outside the boxes both grids are empty, so the box comparison settles every cell. */
  lemma BoxesSuffice(inp: seq<string>, inpWidth: nat, ib: Bounds, rec: seq<string>, recWidth: nat, rb: Bounds,
                     idef: ItemDefs)
    requires IsBounds(inp, inpWidth, ib) && IsBounds(rec, recWidth, rb)
    requires ib.maxX - ib.minX == rb.maxX - rb.minX && ib.maxY - ib.minY == rb.maxY - rb.minY
    requires forall x, y ::
        Inside(rb, x, y) ==> CellMatches(inp, inpWidth, rec, recWidth, ib.minX - rb.minX, ib.minY - rb.minY, x, y, idef)
    ensures MatchesAt(inp, inpWidth, rec, recWidth, ib.minX - rb.minX, ib.minY - rb.minY, idef)
    ensures BoxesAt(FilledIn(inp, inpWidth), FilledIn(rec, recWidth), ib.minX - rb.minX, ib.minY - rb.minY)
  {
    var dx, dy := ib.minX - rb.minX, ib.minY - rb.minY;
    var f, g := FilledIn(inp, inpWidth), FilledIn(rec, recWidth);
    forall x, y ensures CellMatches(inp, inpWidth, rec, recWidth, dx, dy, x, y, idef) {
      if !Inside(rb, x, y) { assert !g(x, y) && !f(x + dx, y + dy); }
    }
  }
}
