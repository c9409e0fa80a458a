/** The block positions on the surface of a cube of "radius" d, listed once each and remembered. */
module FacePositions {
  import opened Vectors

  function Abs(n: int): nat {
    if n < 0 then -n else n
  }

  function Max(a: nat, b: nat): nat {
    if a < b then b else a
  }

  /** The radius of the cube surface a point lies on. */
  function Norm(p: V3): nat {
    Max(Max(Abs(p.x), Abs(p.y)), Abs(p.z))
  }

  ghost predicate NoDuplicates<T>(s: seq<T>) {
    forall i, j :: 0 <= i < j < |s| ==> s[i] != s[j]
  }

  /** `s` lists exactly the points that satisfy `p`, each once. */
  ghost predicate Lists(s: seq<V3>, p: V3 -> bool) {
    NoDuplicates(s) && forall v :: v in s <==> p(v)
  }

  ghost predicate IsShell(s: seq<V3>, d: nat) {
    Lists(s, v => Norm(v) == d)
  }

  lemma ListsAppend(a: seq<V3>, b: seq<V3>, p: V3 -> bool, q: V3 -> bool, r: V3 -> bool)
    requires Lists(a, p) && Lists(b, q)
    requires forall v :: !(p(v) && q(v))
    requires forall v :: r(v) == (p(v) || q(v))
    ensures Lists(a + b, r)
  {
    forall i, j | 0 <= i < j < |a + b| ensures (a + b)[i] != (a + b)[j] {
      if i < |a| <= j {
        assert (a + b)[i] in a && (a + b)[j] in b;
        assert p((a + b)[i]) && q((a + b)[j]);
      }
    }
  }

  // ----- what the loops emit -----

  /** One column of the two sides in x, at heights `y` and `-y`. */
  function SideColumn(d: int, y: int, z: int): seq<V3> {
    [V3(d, y, z), V3(-d, y, z)] + if y != 0 then [V3(d, -y, z), V3(-d, -y, z)] else []
  }

  function Sides(d: int, y: int, z: int): seq<V3>
    requires -d <= z
    decreases z + d
  {
    if z == -d then [] else Sides(d, y, z - 1) + SideColumn(d, y, z - 1)
  }

  /** One column of the two sides in z, at heights `y` and `-y`. */
  function FrontColumn(d: int, y: int, x: int): seq<V3> {
    [V3(x, y, d), V3(x, y, -d)] + if y != 0 then [V3(x, -y, d), V3(x, -y, -d)] else []
  }

  function Fronts(d: int, y: int, x: int): seq<V3>
    requires 1 - d <= x
    decreases x + d
  {
    if x == 1 - d then [] else Fronts(d, y, x - 1) + FrontColumn(d, y, x - 1)
  }

  /** The four sides at all heights below `y`. */
  function Belt(d: int, y: int): seq<V3>
    requires d >= 1 && y >= 0
  {
    if y == 0 then [] else Belt(d, y - 1) + Sides(d, y - 1, d + 1) + Fronts(d, y - 1, d)
  }

  function CapColumn(d: int, x: int, z: int): seq<V3> {
    [V3(x, -d, z), V3(x, d, z)]
  }

  function CapRow(d: int, x: int, z: int): seq<V3>
    requires -d <= z
    decreases z + d
  {
    if z == -d then [] else CapRow(d, x, z - 1) + CapColumn(d, x, z - 1)
  }

  /** Bottom and top. */
  function Caps(d: int, x: int): seq<V3>
    requires d >= 0 && -d <= x
    decreases x + d
  {
    if x == -d then [] else Caps(d, x - 1) + CapRow(d, x - 1, d + 1)
  }

  /** The hand-ordered list for radius 1: faces, then edges, then corners. */
  const UNIT_FACES := [V3(0, 1, 0), V3(0, 0, 1), V3(-1, 0, 0), V3(1, 0, 0), V3(0, 0, -1), V3(0, -1, 0)]
  const UNIT_EDGES := [
    V3(-1, 0, 1), V3(1, 0, 1), V3(-1, 0, -1), V3(1, 0, -1), V3(-1, -1, 0), V3(1, -1, 0),
    V3(0, -1, 1), V3(0, -1, -1), V3(-1, 1, 0), V3(1, 1, 0), V3(0, 1, 1), V3(0, 1, -1)]
  const UNIT_CORNERS := [
    V3(-1, 1, 1), V3(1, 1, 1), V3(-1, 1, -1), V3(1, 1, -1),
    V3(-1, -1, 1), V3(1, -1, 1), V3(-1, -1, -1), V3(1, -1, -1)]
  const UNIT_SHELL := UNIT_FACES + UNIT_EDGES + UNIT_CORNERS

  function Shell(d: nat): seq<V3> {
    if d == 0 then [V3(0, 0, 0)]
    else if d == 1 then UNIT_SHELL
    else Belt(d, d) + Caps(d, d + 1)
  }

  // ----- every point once -----

  predicate OnSide(d: int, y: int, z: int, v: V3) {
    Abs(v.x) == d && Abs(v.y) == y && -d <= v.z < z
  }

  predicate OnFront(d: int, y: int, x: int, v: V3) {
    Abs(v.z) == d && Abs(v.y) == y && -d < v.x < x
  }

  predicate OnBelt(d: int, y: int, v: V3) {
    Max(Abs(v.x), Abs(v.z)) == d && Abs(v.y) < y
  }

  predicate OnCapRow(d: int, x: int, z: int, v: V3) {
    Abs(v.y) == d && v.x == x && -d <= v.z < z
  }

  predicate OnCaps(d: int, x: int, v: V3) {
    Abs(v.y) == d && -d <= v.x < x && Abs(v.z) <= d
  }

  lemma {:induction false} SidesList(d: int, y: int, z: int)
    requires d >= 1 && y >= 0 && -d <= z
    ensures Lists(Sides(d, y, z), v => OnSide(d, y, z, v)) && |Sides(d, y, z)| == (z + d) * if y == 0 then 2 else 4
    decreases z + d
  {
    if z != -d {
      SidesList(d, y, z - 1);
      ListsAppend(Sides(d, y, z - 1), SideColumn(d, y, z - 1), v => OnSide(d, y, z - 1, v),
                  (v: V3) => Abs(v.x) == d && Abs(v.y) == y && v.z == z - 1, v => OnSide(d, y, z, v));
    }
  }

  lemma {:induction false} FrontsList(d: int, y: int, x: int)
    requires d >= 1 && y >= 0 && 1 - d <= x
    ensures Lists(Fronts(d, y, x), v => OnFront(d, y, x, v)) && |Fronts(d, y, x)| == (x + d - 1) * if y == 0 then 2
        else 4
    decreases x + d
  {
    if x != 1 - d {
      FrontsList(d, y, x - 1);
      ListsAppend(Fronts(d, y, x - 1), FrontColumn(d, y, x - 1), v => OnFront(d, y, x - 1, v),
                  (v: V3) => Abs(v.z) == d && Abs(v.y) == y && v.x == x - 1, v => OnFront(d, y, x, v));
    }
  }

  lemma {:induction false} BeltLists(d: int, y: int)
    requires d >= 1 && 0 <= y <= d
    ensures Lists(Belt(d, y), v => OnBelt(d, y, v)) && |Belt(d, y)| == if y == 0 then 0 else 8 * d * (2 * y - 1)
  {
    if y != 0 {
      BeltLists(d, y - 1);
      SidesList(d, y - 1, d + 1);
      FrontsList(d, y - 1, d);
      var p, q, r := v => OnBelt(d, y - 1, v), v => OnSide(d, y - 1, d + 1, v), v => OnFront(d, y - 1, d, v);
      ListsAppend(Belt(d, y - 1), Sides(d, y - 1, d + 1), p, q, v => p(v) || q(v));
      ListsAppend(Belt(d, y - 1) + Sides(d, y - 1, d + 1), Fronts(d, y - 1, d), v => p(v)
          || q(v), r, v => OnBelt(d, y, v));
      BeltCount(d, y);
    }
  }

  lemma BeltCount(d: int, y: int)
    requires y >= 1
    ensures (if y == 1 then 0 else 8 * d * (2 * (y - 1) - 1)) + (2 * d + 1) * (if y == 1 then 2 else 4)
        + (2 * d - 1) * (if y == 1 then 2 else 4)
         == 8 * d * (2 * y - 1)
  {
    assert 8 * d * (2 * y - 1) == 8 * d * (2 * (y - 1) - 1) + 8 * d * 2;
  }

  lemma {:induction false} CapRowLists(d: int, x: int, z: int)
    requires d >= 1 && -d <= z
    ensures Lists(CapRow(d, x, z), v => OnCapRow(d, x, z, v)) && |CapRow(d, x, z)| == (z + d) * 2
    decreases z + d
  {
    if z != -d {
      CapRowLists(d, x, z - 1);
      ListsAppend(CapRow(d, x, z - 1), CapColumn(d, x, z - 1), v => OnCapRow(d, x, z - 1, v),
                  (v: V3) => Abs(v.y) == d && v.x == x && v.z == z - 1, v => OnCapRow(d, x, z, v));
    }
  }

  lemma {:induction false} CapsList(d: int, x: int)
    requires d >= 1 && -d <= x <= d + 1
    ensures Lists(Caps(d, x), v => OnCaps(d, x, v)) && |Caps(d, x)| == (x + d) * (4 * d + 2)
    decreases x + d
  {
    if x != -d {
      CapsList(d, x - 1);
      CapRowLists(d, x - 1, d + 1);
      ListsAppend(Caps(d, x - 1), CapRow(d, x - 1, d + 1), v => OnCaps(d, x - 1, v), v => OnCapRow(d, x - 1, d + 1, v),
          v => OnCaps(d, x, v));
      assert (x + d) * (4 * d + 2) == (x - 1 + d) * (4 * d + 2) + (4 * d + 2);
    }
  }

  /** The list for radius `d` is the cube surface: every point with that norm, once, `24 d^2 + 2` of them. */
  lemma ShellIsSurface(d: nat)
    ensures IsShell(Shell(d), d)
    ensures |Shell(d)| == if d == 0 then 1 else 24 * d * d + 2
  {
    if d == 1 {
      UnitShell();
    } else if d >= 2 {
      BeltLists(d, d);
      CapsList(d, d + 1);
      BeltAndCaps(d);
      ShellCount(d);
    }
  }

  lemma BeltAndCaps(d: int)
    requires d >= 1 && Lists(Belt(d, d), v => OnBelt(d, d, v)) && Lists(Caps(d, d + 1), v => OnCaps(d, d + 1, v))
    ensures Lists(Belt(d, d) + Caps(d, d + 1), v => Norm(v) == d)
  {
    ListsAppend(Belt(d, d), Caps(d, d + 1), v => OnBelt(d, d, v), v => OnCaps(d, d + 1, v), v => Norm(v) == d);
  }

  lemma ShellCount(d: int)
    ensures 8 * d * (2 * d - 1) + (2 * d + 1) * (4 * d + 2) == 24 * d * d + 2
  {
    assert 8 * d * (2 * d - 1) == 16 * (d * d) - 8 * d;
    assert (2 * d + 1) * (4 * d + 2) == 8 * (d * d) + 8 * d + 2;
  }

  // ----- in which order -----

  /**
   * The order of the list for radius `d`: heights by their distance from the middle, and the two faces last. At one
   * height the sides in x come before those in z, each by its running coordinate; there the upper block comes before
   * the lower one, and the one at `+d` before the one at `-d`. A face goes row by row, the lower face first.
   */
  predicate Before(d: int, a: V3, b: V3) {
    if Abs(a.y) != Abs(b.y) then Abs(a.y) < Abs(b.y)
    else if Abs(a.y) == d then a.x < b.x || (a.x == b.x && (a.z < b.z || (a.z == b.z && a.y < b.y)))
    else if Abs(a.x) == d then
      Abs(b.x) == d ==> a.z < b.z || (a.z == b.z && (a.y > b.y || (a.y == b.y && a.x > b.x)))
    else Abs(b.x) != d && (a.x < b.x || (a.x == b.x && (a.y > b.y || (a.y == b.y && a.z > b.z))))
  }

  ghost predicate IsOrdered(d: int, s: seq<V3>) {
    forall i, j :: 0 <= i < j < |s| ==> Before(d, s[i], s[j])
  }

  lemma OrderedAppend(d: int, a: seq<V3>, b: seq<V3>)
    requires IsOrdered(d, a) && IsOrdered(d, b)
    requires forall u, v :: u in a && v in b ==> Before(d, u, v)
    ensures IsOrdered(d, a + b)
  {
    forall i, j | 0 <= i < j < |a + b| ensures Before(d, (a + b)[i], (a + b)[j]) {
      if i < |a| <= j { assert (a + b)[i] in a && (a + b)[j] in b; }
    }
  }

  lemma {:induction false} SidesOrder(d: int, y: int, z: int)
    requires d >= 1 && 0 <= y < d && -d <= z
    ensures IsOrdered(d, Sides(d, y, z))
    decreases z + d
  {
    if z != -d {
      SidesOrder(d, y, z - 1);
      SidesList(d, y, z - 1);
      forall u, v | u in Sides(d, y, z - 1) && v in SideColumn(d, y, z - 1) ensures Before(d, u, v) {
        assert OnSide(d, y, z - 1, u);
      }
      OrderedAppend(d, Sides(d, y, z - 1), SideColumn(d, y, z - 1));
    }
  }

  lemma {:induction false} FrontsOrder(d: int, y: int, x: int)
    requires d >= 1 && 0 <= y < d && 1 - d <= x <= d
    ensures IsOrdered(d, Fronts(d, y, x))
    decreases x + d
  {
    if x != 1 - d {
      FrontsOrder(d, y, x - 1);
      FrontsList(d, y, x - 1);
      forall u, v | u in Fronts(d, y, x - 1) && v in FrontColumn(d, y, x - 1) ensures Before(d, u, v) {
        assert OnFront(d, y, x - 1, u);
      }
      OrderedAppend(d, Fronts(d, y, x - 1), FrontColumn(d, y, x - 1));
    }
  }

  lemma {:induction false} BeltOrder(d: int, y: int)
    requires d >= 1 && 0 <= y <= d
    ensures IsOrdered(d, Belt(d, y))
  {
    if y != 0 {
      var below, sides, fronts := Belt(d, y - 1), Sides(d, y - 1, d + 1), Fronts(d, y - 1, d);
      BeltOrder(d, y - 1);
      SidesOrder(d, y - 1, d + 1);
      FrontsOrder(d, y - 1, d);
      BeltLists(d, y - 1);
      SidesList(d, y - 1, d + 1);
      FrontsList(d, y - 1, d);
      assert forall u :: u in below ==> OnBelt(d, y - 1, u);
      assert forall u :: u in sides ==> OnSide(d, y - 1, d + 1, u);
      assert forall u :: u in fronts ==> OnFront(d, y - 1, d, u);
      hide Belt, Sides, Fronts, IsOrdered;
      OrderedAppend(d, below, sides);
      OrderedAppend(d, below + sides, fronts);
    }
  }

  lemma {:induction false} CapRowOrder(d: int, x: int, z: int)
    requires d >= 1 && -d <= z
    ensures IsOrdered(d, CapRow(d, x, z))
    decreases z + d
  {
    if z != -d {
      CapRowOrder(d, x, z - 1);
      CapRowLists(d, x, z - 1);
      forall u, v | u in CapRow(d, x, z - 1) && v in CapColumn(d, x, z - 1) ensures Before(d, u, v) {
        assert OnCapRow(d, x, z - 1, u);
      }
      OrderedAppend(d, CapRow(d, x, z - 1), CapColumn(d, x, z - 1));
    }
  }

  lemma {:induction false} CapsOrder(d: int, x: int)
    requires d >= 1 && -d <= x <= d + 1
    ensures IsOrdered(d, Caps(d, x))
    decreases x + d
  {
    if x != -d {
      var rows, row := Caps(d, x - 1), CapRow(d, x - 1, d + 1);
      CapsOrder(d, x - 1);
      CapRowOrder(d, x - 1, d + 1);
      CapsList(d, x - 1);
      CapRowLists(d, x - 1, d + 1);
      forall u, v | u in rows && v in row ensures Before(d, u, v) {
        assert OnCaps(d, x - 1, u) && OnCapRow(d, x - 1, d + 1, v);
      }
      OrderedAppend(d, rows, row);
    }
  }

  /** From radius 2 on the list is in this order, which settles the list. */
  lemma ShellIsOrdered(d: nat)
    requires d >= 2
    ensures IsOrdered(d, Shell(d))
  {
    var belt, caps := Belt(d, d), Caps(d, d + 1);
    BeltOrder(d, d);
    CapsOrder(d, d + 1);
    BeltLists(d, d);
    CapsList(d, d + 1);
    forall u, v | u in belt && v in caps ensures Before(d, u, v) {
      assert OnBelt(d, d, u) && OnCaps(d, d + 1, v);
    }
    OrderedAppend(d, belt, caps);
  }

  /** For radius 1 there are faces, then edges, then corners. */
  lemma UnitOrder()
    ensures |Shell(1)| == 26
    ensures Lists(Shell(1)[..6], v => OnUnit(v, 1)) && Lists(Shell(1)[6..18], v => OnUnit(v, 2))
    ensures Lists(Shell(1)[18..], v => OnUnit(v, 3))
  {
    UnitFaces();
    UnitEdges();
    UnitCorners();
    assert Shell(1)[..6] == UNIT_FACES && Shell(1)[6..18] == UNIT_EDGES && Shell(1)[18..] == UNIT_CORNERS;
  }

  /** No two different points of a surface come both before each other, and one of them does. */
  lemma BeforeIsTotal(d: nat, a: V3, b: V3)
    requires Norm(a) == d && Norm(b) == d && d >= 1
    ensures a != b ==> (Before(d, a, b) <==> !Before(d, b, a))
  {}

  predicate OnUnit(v: V3, nonzero: nat) {
    Norm(v) == 1 && Abs(v.x) + Abs(v.y) + Abs(v.z) == nonzero
  }

  lemma UnitFaces()
    ensures Lists(UNIT_FACES, v => OnUnit(v, 1))
  {}

  lemma UnitEdges()
    ensures Lists(UNIT_EDGES, v => OnUnit(v, 2))
  {}

  lemma UnitCorners()
    ensures Lists(UNIT_CORNERS, v => OnUnit(v, 3))
  {}

  lemma UnitShell()
    ensures IsShell(UNIT_SHELL, 1)
  {
    UnitFaces();
    UnitEdges();
    UnitCorners();
    ListsAppend(UNIT_FACES, UNIT_EDGES, v => OnUnit(v, 1), v => OnUnit(v, 2), v => OnUnit(v, 1) || OnUnit(v, 2));
    ListsAppend(UNIT_FACES + UNIT_EDGES, UNIT_CORNERS, v => OnUnit(v, 1)
        || OnUnit(v, 2), v => OnUnit(v, 3), v => Norm(v) == 1);
  }

  // ----- the shells tile the cube -----

  /** The lists for radius 0 to `n`, one after the other. */
  function Shells(n: nat): seq<V3> {
    if n == 0 then Shell(0) else Shells(n - 1) + Shell(n)
  }

  function Cube(n: int): int {
    n * n * n
  }

  lemma CubeStep(n: int)
    ensures Cube(2 * n + 1) == Cube(2 * n - 1) + 24 * n * n + 2
  {
    var a := 2 * n;
    assert (a + 1) * (a + 1) == a * a + 2 * a + 1 && (a - 1) * (a - 1) == a * a - 2 * a + 1;
    assert Cube(a + 1) == a * a * a + 3 * (a * a) + 3 * a + 1 && Cube(a - 1) == a * a * a - 3 * (a * a) + 3 * a - 1;
    assert a * a == 4 * (n * n);
  }

  /** Together they list the whole `(2n+1)^3` cube, every block once. */
  lemma {:induction false} ShellsTileCube(n: nat)
    ensures Lists(Shells(n), v => Norm(v) <= n)
    ensures |Shells(n)| == Cube(2 * n + 1)
  {
    ShellIsSurface(n);
    if n > 0 {
      ShellsTileCube(n - 1);
      ListsAppend(Shells(n - 1), Shell(n), v => Norm(v) <= n - 1, v => Norm(v) == n, v => Norm(v) <= n);
      CubeStep(n);
    }
  }

  // ----- the generator and its memo -----

  /** `FacePositionCache`: the lists generated so far. The loop counters are 16-bit, which bounds the radius. */
  class FacePositionCache {
    var cache: map<nat, seq<V3>>

    ghost predicate Valid()
      reads this
    {
      forall d :: d in cache ==> cache[d] == Shell(d)
    }

    constructor ()
      ensures Valid() && cache == map[]
    {
      cache := map[];
    }

    method GetFacePositions(d: nat) returns (c: seq<V3>)
      requires Valid() && d < 0x7FFF
      modifies this
      ensures Valid() && cache == old(cache)[d := c]
      ensures c == Shell(d) && IsShell(c, d)
    {
      ShellIsSurface(d);
      if d in cache {
        c := cache[d];
        assert cache[d := c] == cache;
        return;
      }
      c := GenerateFacePosition(d);
      cache := cache[d := c];
    }

    method GenerateFacePosition(radius: nat) returns (c: seq<V3>)
      ensures c == Shell(radius)
    {
      var d: int := radius;
      c := [];
      if d == 0 { return [V3(0, 0, 0)]; }
      if d == 1 { return UNIT_SHELL; }
      for y := 0 to d
        invariant c == Belt(d, y)
      {
        c := AddSides(c, d, y);
        c := AddFronts(c, d, y);
      }
      c := AddCaps(c, d);
    }

    /** The two sides in x, with the edges they share with the sides in z. */
    method AddSides(c0: seq<V3>, d: int, y: int) returns (c: seq<V3>)
      requires d >= 1 && y >= 0
      ensures c == c0 + Sides(d, y, d + 1)
    {
      c := c0;
      var z := -d;
      while z <= d
        invariant -d <= z <= d + 1
        invariant c == c0 + Sides(d, y, z)
      {
        c := c + [V3(d, y, z)];
        c := c + [V3(-d, y, z)];
        if y != 0 {
          c := c + [V3(d, -y, z)];
          c := c + [V3(-d, -y, z)];
        }
        z := z + 1;
      }
    }

    /** The two sides in z, without those edges. */
    method AddFronts(c0: seq<V3>, d: int, y: int) returns (c: seq<V3>)
      requires d >= 1 && y >= 0
      ensures c == c0 + Fronts(d, y, d)
    {
      c := c0;
      var x := 1 - d;
      while x <= d - 1
        invariant 1 - d <= x <= d
        invariant c == c0 + Fronts(d, y, x)
      {
        c := c + [V3(x, y, d)];
        c := c + [V3(x, y, -d)];
        if y != 0 {
          c := c + [V3(x, -y, d)];
          c := c + [V3(x, -y, -d)];
        }
        x := x + 1;
      }
    }

    /** The two faces in y, edges and corners and all. */
    method AddCaps(c0: seq<V3>, d: int) returns (c: seq<V3>)
      requires d >= 1
      ensures c == c0 + Caps(d, d + 1)
    {
      c := c0;
      var x := -d;
      while x <= d
        invariant -d <= x <= d + 1
        invariant c == c0 + Caps(d, x)
      {
        var z := -d;
        while z <= d
          invariant -d <= z <= d + 1
          invariant c == c0 + Caps(d, x) + CapRow(d, x, z)
        {
          c := c + [V3(x, -d, z)];
          c := c + [V3(x, d, z)];
          z := z + 1;
        }
        x := x + 1;
      }
    }
  }
}
