/** Moving items between slots: of one list, or of two. */
module InventoryMoves {
  import opened InventoryLists
  import opened ItemStacks
  import opened MachineIntegers

  /**
   * The slots of the lists a move may touch. Source and destination are given by their places, which may be the same.
   */
  type World = seq<seq<ItemStack>>

  function ChangeItemIn(w: World, a: nat, i: nat, newitem: ItemStack): (World, ItemStack)
    requires a < |w|
  {
    if i >= |w[a]| then (w, newitem) else (w[a := w[a][i := newitem]], w[a][i])
  }

  function AddItemIn(w: World, a: nat, i: nat, newitem: ItemStack, max: StackMax): (World, ItemStack)
    requires a < |w|
  {
    if i >= |w[a]| then (w, newitem)
    else var (slot, left) := AddItem(w[a][i], newitem, max); (w[a := w[a][i := slot]], left)
  }

  /** Takes from a slot: everything when `count` is 0. */
  function Take(slot: ItemStack, count: nat): (ItemStack, ItemStack) {
    if count == 0 then (EMPTY, slot) else TakeItem(slot, count)
  }

  function TakeItemIn(w: World, a: nat, i: nat, count: nat): (World, ItemStack)
    requires a < |w|
  {
    if i >= |w[a]| then (w, EMPTY)
    else var (slot, taken) := Take(w[a][i], count); (w[a := w[a][i := slot]], taken)
  }

  function AddSomewhereIn(w: World, b: nat, newitem: ItemStack, max: StackMax): (World, ItemStack)
    requires b < |w|
  {
    var (items, left) := AddToItems(w[b], newitem, max);
    (w[b := items], left)
  }

  function MoveItemSomewhere(w: World, a: nat, i: nat, b: nat, count: nat, max: StackMax): World
    requires a < |w| && b < |w|
  {
    var (w1, item1) := TakeItemIn(w, a, i, count);
    if IsEmpty(item1) then w1
    else
      var (w2, left) := AddSomewhereIn(w1, b, item1, max);
      if IsEmpty(left) then w2 else AddItemIn(w2, a, i, left, max).0
  }

  datatype Moved = Moved(world: World, count: nat, didSwap: bool)

  function MoveItem(w: World, a: nat, i: nat, b: nat, j: nat, count: nat, swapIfNeeded: bool, max: StackMax): Moved
    requires a < |w| && b < |w|
  {
    if a == b && i == j then Moved(w, count, false)
    else
      var (w1, item1) := TakeItemIn(w, a, i, count);
      if IsEmpty(item1) then Moved(w1, 0, false)
      else
        var (w2, left) := AddItemIn(w1, b, j, item1, max);
        if IsEmpty(left) then Moved(w2, item1.count, false)
        else
          var w3 := AddItemIn(w2, a, i, left, max).0;
          if left.count == item1.count && swapIfNeeded then Swapped(w3, a, i, b, j, item1.count)
          else Moved(w3, item1.count - left.count, false)
  }

  /** The whole stacks change places. The number reported is a 32-bit difference, which wraps if less was to move. */
  function Swapped(w: World, a: nat, i: nat, b: nat, j: nat, oldcount: nat): Moved
    requires a < |w| && b < |w|
  {
    var (w1, item1) := ChangeItemIn(w, a, i, EMPTY);
    var (w2, item2) := ChangeItemIn(w1, b, j, item1);
    Moved(ChangeItemIn(w2, a, i, item2).0, ToU32(oldcount - item1.count), true)
  }

  // ----- the two slots of a move -----

  /** What a move does to its two slots; `lost` counts items that fit nowhere. */
  datatype SlotMove = SlotMove(src: ItemStack, dst: ItemStack, count: nat, didSwap: bool, lost: nat)

  function MoveSlots(src: ItemStack, dst: ItemStack, count: nat, swapIfNeeded: bool, max: StackMax): SlotMove {
    var (rest, item1) := Take(src, count);
    var (dst1, left) := AddItem(dst, item1, max);
    if IsEmpty(item1) then SlotMove(rest, dst, 0, false, 0)
    else if IsEmpty(left) then SlotMove(rest, dst1, item1.count, false, 0)
    else
      var (src1, lost) := AddItem(rest, left, max);
      if left.count == item1.count && swapIfNeeded then SlotMove(dst, src1, ToU32(item1.count - src1.count), true,
          lost.count)
      else SlotMove(src1, dst1, item1.count - left.count, false, lost.count)
  }

  function Put<T>(w: seq<seq<T>>, a: nat, i: nat, s: T): seq<seq<T>>
    requires a < |w| && i < |w[a]|
  {
    w[a := w[a][i := s]]
  }

  predicate AreSlots<T>(w: seq<seq<T>>, a: nat, i: nat, b: nat, j: nat) {
    a < |w| && b < |w| && i < |w[a]| && j < |w[b]| && !(a == b && i == j)
  }

  /** `w` with two of its slots replaced. */
  function Two<T>(w: seq<seq<T>>, a: nat, i: nat, b: nat, j: nat, s: T, t: T): seq<seq<T>>
    requires AreSlots(w, a, i, b, j)
  {
    Put(Put(w, a, i, s), b, j, t)
  }

  lemma TwoSlots<T>(w: seq<seq<T>>, a: nat, i: nat, b: nat, j: nat, s: T, t: T)
    requires AreSlots(w, a, i, b, j)
    ensures var v := Two(w, a, i, b, j, s, t); AreSlots(v, a, i, b, j) && v[a][i] == s && v[b][j] == t
    ensures Two(w, a, i, b, j, w[a][i], w[b][j]) == w
  {
    assert w[a][i := w[a][i]] == w[a] && w[b][j := w[b][j]] == w[b];
  }

  lemma TwoSrc<T>(w: seq<seq<T>>, a: nat, i: nat, b: nat, j: nat, s: T, t: T, s': T)
    requires AreSlots(w, a, i, b, j)
    ensures AreSlots(Two(w, a, i, b, j, s, t), a, i, b, j)
        && Put(Two(w, a, i, b, j, s, t), a, i, s') == Two(w, a, i, b, j, s', t)
  {
    if a == b {
      assert w[a][i := s][j := t][i := s'] == w[a][i := s'][j := t];
    } else {
      assert w[a][i := s][i := s'] == w[a][i := s'];
    }
  }

  lemma TwoDst<T>(w: seq<seq<T>>, a: nat, i: nat, b: nat, j: nat, s: T, t: T, t': T)
    requires AreSlots(w, a, i, b, j)
    ensures AreSlots(Two(w, a, i, b, j, s, t), a, i, b, j)
        && Put(Two(w, a, i, b, j, s, t), b, j, t') == Two(w, a, i, b, j, s, t')
  {
    var v := Put(w, a, i, s);
    assert v[b][j := t][j := t'] == v[b][j := t'];
  }

  /** Between two different slots a move is what it does to the slots; no other slot changes. */
  lemma MoveIsSlots(w: World, a: nat, i: nat, b: nat, j: nat, count: nat, swapIfNeeded: bool, max: StackMax)
    requires AreSlots(w, a, i, b, j)
    ensures var m := MoveSlots(w[a][i], w[b][j], count, swapIfNeeded, max);
            MoveItem(w, a, i, b, j, count, swapIfNeeded, max) ==
                Moved(Two(w, a, i, b, j, m.src, m.dst), m.count, m.didSwap)
  {
    var src, dst := w[a][i], w[b][j];
    var (rest, item1) := Take(src, count);
    var (dst1, left) := AddItem(dst, item1, max);
    var (src1, lost) := AddItem(rest, left, max);
    hide AddItem, Take, Two;
    TwoSlots(w, a, i, b, j, src, dst);
    TwoSrc(w, a, i, b, j, src, dst, rest);
    var w1 := Two(w, a, i, b, j, rest, dst);
    TwoSlots(w, a, i, b, j, rest, dst);
    TwoDst(w, a, i, b, j, rest, dst, dst1);
    var w2 := Two(w, a, i, b, j, rest, dst1);
    TwoSlots(w, a, i, b, j, rest, dst1);
    TwoSrc(w, a, i, b, j, rest, dst1, src1);
    var w3 := Two(w, a, i, b, j, src1, dst1);
    TwoSlots(w, a, i, b, j, src1, dst1);
    if !IsEmpty(item1) && !IsEmpty(left) && left.count == item1.count && swapIfNeeded {
      SwapIsSlots(w, a, i, b, j, src1, dst1, item1.count);
    }
  }

  lemma SwapIsSlots(w: World, a: nat, i: nat, b: nat, j: nat, s: ItemStack, t: ItemStack, oldcount: nat)
    requires AreSlots(w, a, i, b, j)
    ensures AreSlots(Two(w, a, i, b, j, s, t), a, i, b, j)
    ensures Swapped(Two(w, a, i, b, j, s, t), a, i, b, j, oldcount) ==
        Moved(Two(w, a, i, b, j, t, s), ToU32(oldcount - s.count), true)
  {
    hide Two;
    TwoSlots(w, a, i, b, j, s, t);
    TwoSrc(w, a, i, b, j, s, t, EMPTY);
    TwoSlots(w, a, i, b, j, EMPTY, t);
    TwoDst(w, a, i, b, j, EMPTY, t, s);
    TwoSlots(w, a, i, b, j, EMPTY, s);
    TwoSrc(w, a, i, b, j, EMPTY, s, t);
  }

  // ----- conservation -----

  /** How many items of a kind the lists hold together. */
  function Total(w: World, k: Kind): nat {
    if w == [] then 0 else Total(w[..|w| - 1], k) + Tally(w[|w| - 1], k)
  }

  lemma {:induction false} TotalUpdate(w: World, a: nat, items: seq<ItemStack>, k: Kind)
    requires a < |w|
    ensures Total(w[a := items], k) + Tally(w[a], k) == Total(w, k) + Tally(items, k)
  {
    var n := |w| - 1;
    if a == n {
      assert w[a := items][..n] == w[..n];
    } else {
      TotalUpdate(w[..n], a, items, k);
      assert w[a := items][..n] == w[..n][a := items];
    }
  }

  lemma PutTotal(w: World, a: nat, i: nat, s: ItemStack, k: Kind)
    requires a < |w| && i < |w[a]|
    ensures Total(Put(w, a, i, s), k) + CountOf(w[a][i], k) == Total(w, k) + CountOf(s, k)
  {
    TotalUpdate(w, a, w[a][i := s], k);
    TallyUpdate(w[a], i, s, k);
  }

  lemma TwoTotal(w: World, a: nat, i: nat, b: nat, j: nat, s: ItemStack, t: ItemStack, k: Kind)
    requires AreSlots(w, a, i, b, j)
    ensures Total(Two(w, a, i, b, j, s, t), k) + CountOf(w[a][i], k) + CountOf(w[b][j], k) ==
        Total(w, k) + CountOf(s, k) + CountOf(t, k)
  {
    PutTotal(w, a, i, s, k);
    PutTotal(Put(w, a, i, s), b, j, t, k);
  }

  /** A stack no larger than its item allows. */
  predicate IsOk(s: ItemStack, max: StackMax) {
    IsEmpty(s) || s.count <= max(s.name)
  }

  /**
   * Something is lost only if part of an oversized stack is taken: what the destination's `room` does not hold comes
   * back, and no longer fits.
   */
  predicate LosesItems(src: ItemStack, room: nat, count: nat, max: StackMax) {
    && 0 < count < src.count
    && Beyond(count, room) > FreeSpace(src.(count := src.count - count), max)
  }

  lemma SlotsConserve(src: ItemStack, dst: ItemStack, count: nat, swapIfNeeded: bool, max: StackMax, k: Kind)
    ensures var m := MoveSlots(src, dst, count, swapIfNeeded, max);
            && CountOf(m.src, k) + CountOf(m.dst, k) + (if KindOf(src) == k then m.lost else 0) ==
                  CountOf(src, k) + CountOf(dst, k)
            && (m.lost > 0 <==> LosesItems(src, Room(dst, KindOf(src), max), count, max))
  {
    var (rest, item1) := Take(src, count);
    var (dst1, left) := AddItem(dst, item1, max);
    TakeConserves(src, count, k);
    if !IsEmpty(item1) {
      AddConserves(dst, item1, max, k);
      AddLeftover(dst, item1, max);
      AddConserves(rest, left, max, k);
      if !IsEmpty(left) { AddLeftover(rest, left, max); }
    }
  }

  /** How many items a count asks for: 0, or more than there are, asks for all. */
  function AskedFor(src: ItemStack, count: nat): u16 {
    if count == 0 || count >= src.count then src.count else count
  }

  /**
   * What a move does to the stacks, the source being within its maximum: as many as asked for and as fit go over; if
   * none fit and a swap is wanted, the stacks change places. A swap reports what was asked for less the whole stack.
   */
  lemma SlotsMeaning(src: ItemStack, dst: ItemStack, count: nat, swapIfNeeded: bool, max: StackMax)
    requires !IsEmpty(src) && IsOk(src, max)
    ensures var m := MoveSlots(src, dst, count, swapIfNeeded, max);
            var n := Min(AskedFor(src, count), Room(dst, KindOf(src), max));
            && (!IsEmpty(dst) ==> dst.count + n < 0x1_0000)
            && (m.didSwap <==> n == 0 && swapIfNeeded)
            && (if m.didSwap then m == SlotMove(dst, src, ToU32(AskedFor(src, count) - src.count), true, 0)
                else m == SlotMove(Shrunk(src, n), Grown(dst, src, n), n, false, 0))
  {
    var (rest, item1) := Take(src, count);
    TakeConserves(src, count, KindOf(src));
    AddMeaning(dst, item1, max);
    var left := AddItem(dst, item1, max).1;
    if !IsEmpty(left) { AddMeaning(rest, left, max); }
  }

  /** A stack within its maximum loses nothing. */
  lemma OkLosesNothing(src: ItemStack, room: nat, count: nat, max: StackMax)
    requires IsOk(src, max)
    ensures !LosesItems(src, room, count, max)
  {}

  /** How many more items of a kind a place takes at once; a place that does not exist takes none. */
  function RoomAt(items: seq<ItemStack>, j: nat, k: Kind, max: StackMax): nat {
    if j < |items| then Room(items[j], k, max) else 0
  }

  /**
   * A move, between any two places, loses items exactly when it is one of the kind described, and then of that kind
   * only.
   */
  lemma MoveConservesExactly(w: World, a: nat, i: nat, b: nat, j: nat, count: nat, swapIfNeeded: bool, max: StackMax,
                             k: Kind)
    requires a < |w| && b < |w|
    ensures Total(MoveItem(w, a, i, b, j, count, swapIfNeeded, max).world, k) == Total(w, k) <==>
            !(&& i < |w[a]| && k == KindOf(w[a][i]) && !(a == b && i == j)
              && LosesItems(w[a][i], RoomAt(w[b], j, k, max), count, max))
  {
    if AreSlots(w, a, i, b, j) {
      var m := MoveSlots(w[a][i], w[b][j], count, swapIfNeeded, max);
      MoveIsSlots(w, a, i, b, j, count, swapIfNeeded, max);
      SlotsConserve(w[a][i], w[b][j], count, swapIfNeeded, max, k);
      hide MoveItem, MoveSlots, LosesItems;
      TwoTotal(w, a, i, b, j, m.src, m.dst, k);
    } else if i < |w[a]| && !(a == b && i == j) {
      MoveNowhere(w, a, i, b, j, count, swapIfNeeded, max, k);
    }
  }

  /** A move conserves every kind, for any two places, as long as the source stack is within its maximum. */
  lemma MoveConserves(w: World, a: nat, i: nat, b: nat, j: nat, count: nat, swapIfNeeded: bool, max: StackMax, k: Kind)
    requires a < |w| && b < |w| && (i < |w[a]| ==> IsOk(w[a][i], max))
    ensures Total(MoveItem(w, a, i, b, j, count, swapIfNeeded, max).world, k) == Total(w, k)
  {
    MoveConservesExactly(w, a, i, b, j, count, swapIfNeeded, max, k);
    if i < |w[a]| { OkLosesNothing(w[a][i], RoomAt(w[b], j, k, max), count, max); }
  }

  /** A destination that does not exist: everything that fits goes back, even when a swap is reported. */
  lemma MoveNowhere(w: World, a: nat, i: nat, b: nat, j: nat, count: nat, swapIfNeeded: bool, max: StackMax, k: Kind)
    requires a < |w| && b < |w| && i < |w[a]| && j >= |w[b]|
    ensures Total(MoveItem(w, a, i, b, j, count, swapIfNeeded, max).world, k) == Total(w, k) <==>
            !(k == KindOf(w[a][i]) && LosesItems(w[a][i], 0, count, max))
    ensures !IsEmpty(w[a][i]) && !LosesItems(w[a][i], 0, count, max) ==>
            MoveItem(w, a, i, b, j, count, swapIfNeeded, max).world == w
  {
    var src := w[a][i];
    var (rest, item1) := Take(src, count);
    TakeConserves(src, count, k);
    PutTotal(w, a, i, rest, k);
    if !IsEmpty(item1) {
      var (back, lost) := AddItem(rest, item1, max);
      AddLeftover(rest, item1, max);
      AddConserves(rest, item1, max, k);
      PutTotal(w, a, i, back, k);
      ComesBack(w, a, i, b, j, count, swapIfNeeded, max);
      if IsEmpty(lost) {
        assert back == src;
        assert w[a][i := src] == w[a] && w[a := w[a]] == w;
      }
    }
  }

  lemma ComesBack(w: World, a: nat, i: nat, b: nat, j: nat, count: nat, swapIfNeeded: bool, max: StackMax)
    requires a < |w| && b < |w| && i < |w[a]| && j >= |w[b]|
    ensures var (rest, item1) := Take(w[a][i], count);
            !IsEmpty(item1) ==>
              MoveItem(w, a, i, b, j, count, swapIfNeeded, max).world == Put(w, a, i, AddItem(rest, item1, max).0)
  {
    var (rest, item1) := Take(w[a][i], count);
    var back := AddItem(rest, item1, max).0;
    hide Take, AddItem;
    PutAgain(w, a, i, rest, back);
    PutAgain(w, a, i, back, EMPTY);
    PutAgain(w, a, i, EMPTY, back);
  }

  const TOO_MUCH := ItemStack("stone", 200, 0, map[])
  const DIRT := ItemStack("dirt", 1, 0, map[])

  /**
   * Ten of 200 stone, where 99 is the most: moved onto dirt, or to no slot, or to a list without room, they are gone.
   */
  lemma OversizedLoses(max: StackMax)
    requires max("stone") == 99 && max("dirt") == 99
    ensures var w := [[TOO_MUCH], [DIRT]];
            && Total(w, KindOf(TOO_MUCH)) == 200
            && Total(MoveItem(w, 0, 0, 1, 0, 10, false, max).world, KindOf(TOO_MUCH)) == 190
            && Total(MoveItem(w, 0, 0, 1, 1, 10, false, max).world, KindOf(TOO_MUCH)) == 190
            && Total(MoveItemSomewhere(w, 0, 0, 1, 10, max), KindOf(TOO_MUCH)) == 190
  {
    var k, w := KindOf(TOO_MUCH), [[TOO_MUCH], [DIRT]];
    var rest, ten := TOO_MUCH.(count := 190), TOO_MUCH.(count := 10);
    TwoLists([TOO_MUCH], [DIRT], k);
    assert Put(w, 0, 0, rest) == [[rest], [DIRT]] by { assert w[0][0 := rest] == [rest]; }
    SameSlot([[rest], [DIRT]], 0, 0);
    SameSlot([[rest], [DIRT]], 1, 0);
    TwoLists([rest], [DIRT], k);
    assert |ten.name| == 5 && |DIRT.name| == 4;
    assert FreeSpace(rest, max) == 0 by { assert rest.name == "stone"; }
    assert Remove(ten, 0) == ten && Add(rest, 0) == rest;
    assert AddItem(DIRT, ten, max) == (DIRT, ten);
    assert AddItem(rest, ten, max) == (rest, ten);
    assert Pour([DIRT], 0, ten, false, max) == ([DIRT], ten) by {
      assert [DIRT][0 := DIRT] == [DIRT];
      assert Pour([DIRT], 1, ten, false, max) == ([DIRT], ten);
    }
    assert Pour([DIRT], 0, ten, true, max) == Pour([DIRT], 1, ten, true, max);
  }

  lemma SameSlot<T>(w: seq<seq<T>>, a: nat, i: nat)
    requires a < |w| && i < |w[a]|
    ensures Put(w, a, i, w[a][i]) == w && w[a := w[a][i := w[a][i]]] == w
  {
    assert w[a][i := w[a][i]] == w[a] && w[a := w[a]] == w;
  }

  lemma TwoLists(s: seq<ItemStack>, t: seq<ItemStack>, k: Kind)
    ensures Total([s, t], k) == Tally(s, k) + Tally(t, k)
  {
    assert [s][..0] == [] && Total([s], k) == Tally(s, k);
    assert [s, t][..1] == [s];
  }

  lemma PutAgain<T>(w: seq<seq<T>>, a: nat, i: nat, s: T, t: T)
    requires a < |w| && i < |w[a]|
    ensures Put(Put(w, a, i, s), a, i, t) == Put(w, a, i, t)
  {
    assert w[a][i := s][i := t] == w[a][i := t];
  }

  // ----- moving to whatever slot has room -----

  lemma {:induction false} RoomOfOne(items: seq<ItemStack>, i: nat, j: nat, k: Kind, inEmpty: bool, max: StackMax)
    requires j <= i < |items| && IsEmpty(items[i]) == inEmpty
    ensures RoomIn(items, j, k, inEmpty, max) >= Room(items[i], k, max)
    decreases |items| - j
  {
    if j < i { RoomOfOne(items, i, j + 1, k, inEmpty, max); }
  }

  lemma PourTotal(w: World, b: nat, newitem: ItemStack, max: StackMax, k: Kind)
    requires b < |w|
    ensures var (v, left) := AddSomewhereIn(w, b, newitem, max);
            |v| == |w| && |v[b]| == |w[b]| && Total(v, k) + CountOf(left, k) == Total(w, k) + CountOf(newitem, k)
  {
    var s := ListState(w[b], 0, false);
    AddConservesAll(s, newitem, max, k);
    TotalUpdate(w, b, AddToItems(w[b], newitem, max).0, k);
  }

  lemma PourLeft(w: World, b: nat, newitem: ItemStack, max: StackMax)
    requires b < |w| && !IsEmpty(newitem)
    ensures var left := AddSomewhereIn(w, b, newitem, max).1;
            && left.count == Beyond(newitem.count, TotalRoom(w[b], KindOf(newitem), max))
            && (!IsEmpty(left) ==> KindOf(left) == KindOf(newitem))
  {
    AddLeavesBeyondRoom(ListState(w[b], 0, false), newitem, max);
    LeftKind(w[b], newitem, max);
  }

  lemma LeftKind(items: seq<ItemStack>, newitem: ItemStack, max: StackMax)
    requires !IsEmpty(newitem)
    ensures var left := AddToItems(items, newitem, max).1; !IsEmpty(left) ==> KindOf(left) == KindOf(newitem)
  {
    var (filled, rest) := Pour(items, 0, newitem, false, max);
    PourLeftover(items, 0, newitem, false, max);
    if !IsEmpty(rest) { PourLeftover(filled, 0, rest, true, max); }
  }

  /** Nothing can be left over in the list the item came from. */
  lemma RoomInOwnList(w: World, a: nat, i: nat, rest: ItemStack, k: Kind, max: StackMax)
    requires a < |w| && i < |w[a]|
    ensures TotalRoom(Put(w, a, i, rest)[a], k, max) >= Room(rest, k, max)
  {
    RoomOfOne(w[a][i := rest], i, 0, k, IsEmpty(rest), max);
  }

  /** When something is left over, the slots of its kind are full. */
  lemma {:induction false} PourFills(items: seq<ItemStack>, i: nat, newitem: ItemStack, max: StackMax, j: nat)
    requires i <= j < |items| && !IsEmpty(items[j]) && KindOf(items[j]) == KindOf(newitem)
    ensures var (after, left) := Pour(items, i, newitem, false, max);
            |after| == |items| && (!IsEmpty(left) ==> !IsEmpty(after[j]) && Room(after[j], KindOf(newitem), max) == 0)
    decreases |items| - i
  {
    if !IsEmpty(newitem) {
      if IsEmpty(items[i]) {
        PourFills(items, i + 1, newitem, max, j);
      } else {
        var (slot, left) := AddItem(items[i], newitem, max);
        AddLeftover(items[i], newitem, max);
        AddKeepsFilled(items[i], newitem, max);
        if i == j {
          PourPasses(items[i := slot], i + 1, left, false, max, j);
        } else if !IsEmpty(left) {
          PourFills(items[i := slot], i + 1, left, max, j);
        }
      }
    }
  }

  lemma AddFills(items: seq<ItemStack>, newitem: ItemStack, max: StackMax, j: nat)
    requires j < |items| && !IsEmpty(items[j]) && !IsEmpty(newitem) && KindOf(items[j]) == KindOf(newitem)
    ensures var (after, left) := AddToItems(items, newitem, max);
            |after| == |items| && (!IsEmpty(left) ==> Room(after[j], KindOf(newitem), max) == 0)
  {
    var (filled, rest) := Pour(items, 0, newitem, false, max);
    PourFills(items, 0, newitem, max, j);
    if !IsEmpty(rest) { PourPasses(filled, 0, rest, true, max, j); }
  }

  /** Within one list what is left over finds its old slot full; otherwise that slot may have room for it. */
  predicate LosesSomewhere(w: World, a: nat, i: nat, b: nat, count: nat, max: StackMax)
    requires a < |w| && b < |w| && i < |w[a]|
  {
    var src := w[a][i];
    if a == b then 0 < count < src.count
        && count > TotalRoom(w[a][i := src.(count := src.count - count)], KindOf(src), max)
    else LosesItems(src, TotalRoom(w[b], KindOf(src), max), count, max)
  }

  /** Moving to whatever slots have room, in one list or in another, loses items exactly in the case described. */
  lemma MoveSomewhereConservesExactly(w: World, a: nat, i: nat, b: nat, count: nat, max: StackMax, k: Kind)
    requires a < |w| && b < |w|
    ensures Total(MoveItemSomewhere(w, a, i, b, count, max), k) == Total(w, k) <==>
            !(i < |w[a]| && k == KindOf(w[a][i]) && LosesSomewhere(w, a, i, b, count, max))
  {
    if i < |w[a]| {
      var src := w[a][i];
      var (rest, item1) := Take(src, count);
      TakeConserves(src, count, k);
      PutTotal(w, a, i, rest, k);
      if !IsEmpty(item1) {
        MoveSomewhereStep(Put(w, a, i, rest), a, i, b, item1, max, k);
        if a == b { LostInOwnList(w, a, i, count, max); } else { LostElsewhere(w, a, i, b, count, max); }
      }
    }
  }

  /** Of what is poured into list `b` and comes back, this much is lost. */
  function Lost(w1: World, a: nat, i: nat, b: nat, item1: ItemStack, max: StackMax): nat
    requires a < |w1| && b < |w1|
  {
    var (w2, left) := AddSomewhereIn(w1, b, item1, max);
    Beyond(left.count, RoomAt(w2[a], i, KindOf(item1), max))
  }

  lemma LostInOwnList(w: World, a: nat, i: nat, count: nat, max: StackMax)
    requires a < |w| && i < |w[a]| && !IsEmpty(Take(w[a][i], count).1)
    ensures var (rest, item1) := Take(w[a][i], count);
            Lost(Put(w, a, i, rest), a, i, a, item1, max) > 0 <==> LosesSomewhere(w, a, i, a, count, max)
  {
    var (rest, item1) := Take(w[a][i], count);
    var w1 := Put(w, a, i, rest);
    PourLeft(w1, a, item1, max);
    RoomInOwnList(w, a, i, rest, KindOf(item1), max);
    if !IsEmpty(rest) { AddFills(w1[a], item1, max, i); }
  }

  lemma LostElsewhere(w: World, a: nat, i: nat, b: nat, count: nat, max: StackMax)
    requires a < |w| && b < |w| && a != b && i < |w[a]| && !IsEmpty(Take(w[a][i], count).1)
    ensures var (rest, item1) := Take(w[a][i], count);
            Lost(Put(w, a, i, rest), a, i, b, item1, max) > 0 <==> LosesSomewhere(w, a, i, b, count, max)
  {
    var (rest, item1) := Take(w[a][i], count);
    PourLeft(Put(w, a, i, rest), b, item1, max);
  }

  /** What a place lacks room for after the item was poured into list `b` is lost. */
  lemma MoveSomewhereStep(w1: World, a: nat, i: nat, b: nat, item1: ItemStack, max: StackMax, k: Kind)
    requires a < |w1| && b < |w1| && i < |w1[a]| && !IsEmpty(item1)
    ensures var (w2, left) := AddSomewhereIn(w1, b, item1, max);
            var v := if IsEmpty(left) then w2 else AddItemIn(w2, a, i, left, max).0;
            Total(v, k) + (if k == KindOf(item1) then Lost(w1, a, i, b, item1, max) else 0) ==
                Total(w1, k) + CountOf(item1, k)
  {
    var (w2, left) := AddSomewhereIn(w1, b, item1, max);
    PourTotal(w1, b, item1, max, k);
    PourLeft(w1, b, item1, max);
    if !IsEmpty(left) {
      var slot := AddItem(w2[a][i], left, max).0;
      AddLeftover(w2[a][i], left, max);
      AddConserves(w2[a][i], left, max, k);
      PutTotal(w2, a, i, slot, k);
    }
  }

  /** Moving an item to whatever slots have room conserves every kind if the source stack is within its maximum. */
  lemma MoveSomewhereConserves(w: World, a: nat, i: nat, b: nat, count: nat, max: StackMax, k: Kind)
    requires a < |w| && b < |w| && (i < |w[a]| ==> IsOk(w[a][i], max))
    ensures Total(MoveItemSomewhere(w, a, i, b, count, max), k) == Total(w, k)
  {
    MoveSomewhereConservesExactly(w, a, i, b, count, max, k);
    if i < |w[a]| {
      var src := w[a][i];
      OkLosesNothing(src, TotalRoom(w[b], KindOf(src), max), count, max);
      if 0 < count < src.count { RoomInOwnList(w, a, i, src.(count := src.count - count), KindOf(src), max); }
    }
  }

  /**
   * What moving to whatever slots have room does to two lists: the destination gains as many as are asked for and as it
   * has room for, as when they are added to it, and the source slot loses them.
   */
  lemma MoveSomewhereIs(w: World, a: nat, i: nat, b: nat, count: nat, max: StackMax)
    requires a < |w| && b < |w| && a != b && i < |w[a]| && !IsEmpty(w[a][i]) && IsOk(w[a][i], max)
    ensures var src := w[a][i];
            var asked := AskedFor(src, count);
            var n := Min(asked, TotalRoom(w[b], KindOf(src), max));
            MoveItemSomewhere(w, a, i, b, count, max) ==
              w[a := w[a][i := Shrunk(src, n)]][b := AddToItems(w[b], src.(count := asked), max).0]
  {
    var src := w[a][i];
    var (rest, item1) := Take(src, count);
    TakeConserves(src, count, KindOf(src));
    var w1 := w[a := w[a][i := rest]];
    PourLeft(w1, b, item1, max);
    LeftIs(w[b], item1, max);
    var (w2, left) := AddSomewhereIn(w1, b, item1, max);
    hide AddToItems, TotalRoom;
    if !IsEmpty(left) { AddMeaning(rest, left, max); }
    Reorder(w, a, i, b, rest, Shrunk(src, src.count - rest.count - item1.count + (item1.count - left.count)), w2[b]);
  }

  lemma LeftIs(items: seq<ItemStack>, newitem: ItemStack, max: StackMax)
    requires !IsEmpty(newitem)
    ensures var left := AddToItems(items, newitem, max).1; !IsEmpty(left) ==> left == newitem.(count := left.count)
  {
    var (filled, rest) := Pour(items, 0, newitem, false, max);
    PourLeftover(items, 0, newitem, false, max);
    if !IsEmpty(rest) { PourLeftover(filled, 0, rest, true, max); }
  }

  lemma Reorder<T>(w: seq<seq<T>>, a: nat, i: nat, b: nat, s: T, t: T, items: seq<T>)
    requires a < |w| && b < |w| && a != b && i < |w[a]|
    ensures w[a := w[a][i := s]][b := items][a := w[a][i := s][i := t]] == w[a := w[a][i := t]][b := items]
    ensures w[a := w[a][i := s]][b := items][a] == w[a][i := s]
  {
    assert w[a][i := s][i := t] == w[a][i := t];
  }

  // ----- stacks stay within their maximum -----

  predicate IsCapped(items: seq<ItemStack>, max: StackMax) {
    forall i :: 0 <= i < |items| ==> IsOk(items[i], max)
  }

  predicate AllCapped(w: World, max: StackMax) {
    forall a :: 0 <= a < |w| ==> IsCapped(w[a], max)
  }

  lemma AddOk(slot: ItemStack, newitem: ItemStack, max: StackMax)
    requires IsOk(slot, max) && IsOk(newitem, max)
    ensures var (after, left) := AddItem(slot, newitem, max); IsOk(after, max) && IsOk(left, max)
  {}

  lemma {:induction false} PourCapped(items: seq<ItemStack>, i: nat, newitem: ItemStack, intoEmpty: bool, max: StackMax)
    requires IsCapped(items, max) && IsOk(newitem, max)
    ensures var (after, left) := Pour(items, i, newitem, intoEmpty, max); IsCapped(after, max) && IsOk(left, max)
    decreases |items| - i
  {
    if i < |items| && !IsEmpty(newitem) {
      if IsEmpty(items[i]) != intoEmpty {
        PourCapped(items, i + 1, newitem, intoEmpty, max);
      } else {
        var (slot, left) := AddItem(items[i], newitem, max);
        AddOk(items[i], newitem, max);
        PourCapped(items[i := slot], i + 1, left, intoEmpty, max);
      }
    }
  }

  lemma PutCapped(w: World, a: nat, i: nat, s: ItemStack, max: StackMax)
    requires a < |w| && i < |w[a]| && AllCapped(w, max) && IsOk(s, max)
    ensures AllCapped(Put(w, a, i, s), max)
  {}

  lemma SlotsOk(src: ItemStack, dst: ItemStack, count: nat, swapIfNeeded: bool, max: StackMax)
    requires IsOk(src, max) && IsOk(dst, max)
    ensures var m := MoveSlots(src, dst, count, swapIfNeeded, max); IsOk(m.src, max) && IsOk(m.dst, max)
  {}

  /** Moving keeps every stack within its maximum. */
  lemma MoveKeepsCap(w: World, a: nat, i: nat, b: nat, j: nat, count: nat, swapIfNeeded: bool, max: StackMax)
    requires a < |w| && b < |w| && AllCapped(w, max)
    ensures AllCapped(MoveItem(w, a, i, b, j, count, swapIfNeeded, max).world, max)
  {
    if AreSlots(w, a, i, b, j) {
      var m := MoveSlots(w[a][i], w[b][j], count, swapIfNeeded, max);
      hide MoveItem, MoveSlots;
      MoveIsSlots(w, a, i, b, j, count, swapIfNeeded, max);
      SlotsOk(w[a][i], w[b][j], count, swapIfNeeded, max);
      PutCapped(w, a, i, m.src, max);
      PutCapped(Put(w, a, i, m.src), b, j, m.dst, max);
    } else if i < |w[a]| && !(a == b && i == j) {
      MoveNowhere(w, a, i, b, j, count, swapIfNeeded, max, KindOf(w[a][i]));
      OkLosesNothing(w[a][i], 0, count, max);
      if IsEmpty(w[a][i]) { PutCapped(w, a, i, Take(w[a][i], count).0, max); }
    }
  }

  lemma MoveSomewhereKeepsCap(w: World, a: nat, i: nat, b: nat, count: nat, max: StackMax)
    requires a < |w| && b < |w| && AllCapped(w, max)
    ensures AllCapped(MoveItemSomewhere(w, a, i, b, count, max), max)
  {
    if i < |w[a]| {
      var (rest, item1) := Take(w[a][i], count);
      var w1 := Put(w, a, i, rest);
      PutCapped(w, a, i, rest, max);
      if !IsEmpty(item1) {
        var (filled, part) := Pour(w1[b], 0, item1, false, max);
        PourCapped(w1[b], 0, item1, false, max);
        PourCapped(filled, 0, part, true, max);
        var (w2, left) := AddSomewhereIn(w1, b, item1, max);
        assert AllCapped(w2, max);
        if !IsEmpty(left) && i < |w2[a]| {
          AddOk(w2[a][i], left, max);
          PutCapped(w2, a, i, AddItem(w2[a][i], left, max).0, max);
        }
      }
    }
  }
}
