/** Inventory lists as values: what every operation on a list does to its slots, its width and its dirty flag. */
module InventoryLists {
  import opened ItemStacks
  import opened MachineIntegers

  datatype ListState = ListState(items: seq<ItemStack>, width: nat, dirty: bool)

  // ----- operations -----

  function Blank(size: nat): (r: seq<ItemStack>)
    ensures |r| == size && forall i :: 0 <= i < size ==> r[i] == EMPTY
  {
    seq(size, i => EMPTY)
  }

  function ClearItems(s: ListState): ListState {
    s.(items := Blank(|s.items|), dirty := true)
  }

  function Resize(items: seq<ItemStack>, size: nat): (r: seq<ItemStack>)
    ensures |r| == size && forall i :: 0 <= i < size ==> r[i] == if i < |items| then items[i] else EMPTY
  {
    if size <= |items| then items[..size] else items + Blank(size - |items|)
  }

  function SetSize(s: ListState, size: nat): ListState {
    if size == |s.items| then s else s.(items := Resize(s.items, size), dirty := true)
  }

  function SetWidth(s: ListState, width: nat): ListState {
    s.(width := width, dirty := true)
  }

  /** Puts an item into a slot and returns what was there; the item itself when there is no such slot. */
  function ChangeItem(s: ListState, i: nat, newitem: ItemStack): (ListState, ItemStack) {
    if i >= |s.items| then (s, newitem) else (s.(items := s.items[i := newitem], dirty := true), s.items[i])
  }

  function AddItemAt(s: ListState, i: nat, newitem: ItemStack, max: StackMax): (ListState, ItemStack) {
    if i >= |s.items| then (s, newitem)
    else
      var (slot, left) := AddItem(s.items[i], newitem, max);
      (ListState(s.items[i := slot], s.width, s.dirty || left != newitem), left)
  }

  function TakeItemAt(s: ListState, i: nat, takecount: nat): (ListState, ItemStack) {
    if i >= |s.items| then (s, EMPTY)
    else
      var (slot, taken) := TakeItem(s.items[i], takecount);
      (ListState(s.items[i := slot], s.width, s.dirty || !IsEmpty(taken)), taken)
  }

  /** One pass of adding over the slots from `i` on: only the empty ones, or only the others. */
  function Pour(items: seq<ItemStack>, i: nat, newitem: ItemStack, intoEmpty: bool, max: StackMax): (seq<ItemStack>,
                ItemStack)
    decreases |items| - i
  {
    if i >= |items| || IsEmpty(newitem) then (items, newitem)
    else if IsEmpty(items[i]) != intoEmpty then Pour(items, i + 1, newitem, intoEmpty, max)
    else
      var (slot, left) := AddItem(items[i], newitem, max);
      Pour(items[i := slot], i + 1, left, intoEmpty, max)
  }

  /** First the slots in use, then the empty ones. */
  function AddToItems(items: seq<ItemStack>, newitem: ItemStack, max: StackMax): (seq<ItemStack>, ItemStack) {
    var (filled, rest) := Pour(items, 0, newitem, false, max);
    Pour(filled, 0, rest, true, max)
  }

  function AddItemSomewhere(s: ListState, newitem: ItemStack, max: StackMax): (ListState, ItemStack) {
    var (items, left) := AddToItems(s.items, newitem, max);
    (ListState(items, s.width, s.dirty || left != newitem), left)
  }

  /** Visits all slots in order, empty or not. */
  function RoomForItem(items: seq<ItemStack>, i: nat, item: ItemStack, max: StackMax): bool
    decreases |items| - i
  {
    i < |items| &&
      var (fits, left) := ItemFits(items[i], item, max);
      fits || RoomForItem(items, i + 1, left, max)
  }

  predicate Matches(slot: ItemStack, item: ItemStack, matchMeta: bool) {
    slot.name == item.name && (!matchMeta || slot.metadata == item.metadata)
  }

  /** Walks the first `n` slots backwards, with `count` items still to find. */
  function ContainsItem(items: seq<ItemStack>, n: nat, item: ItemStack, count: nat, matchMeta: bool): bool
    requires n <= |items|
  {
    if count == 0 then true
    else if n == 0 then false
    else if !Matches(items[n - 1], item, matchMeta) then ContainsItem(items, n - 1, item, count, matchMeta)
    else items[n - 1].count >= count || ContainsItem(items, n - 1, item, count - items[n - 1].count, matchMeta)
  }

  /** Items of different metadata are counted together, in a stack that may be oversized. */
  function Collect(removed: ItemStack, taken: ItemStack, max: StackMax): ItemStack {
    var (sum, left) := AddItem(removed, taken, max);
    sum.(count := ToU16(sum.count + left.count))
  }

  /** Walks the first `n` slots backwards, with `removed` taken so far. */
  function RemoveFrom(items: seq<ItemStack>, n: nat, item: ItemStack, removed: ItemStack,
                      max: StackMax): (seq<ItemStack>, ItemStack)
    requires n <= |items| && removed.count <= item.count
    ensures |RemoveFrom(items, n, item, removed, max).0| == |items|
    decreases n
  {
    if n == 0 then (items, removed)
    else if items[n - 1].name != item.name then RemoveFrom(items, n - 1, item, removed, max)
    else
      var (slot, taken) := TakeItem(items[n - 1], item.count - removed.count);
      var sum := Collect(removed, taken, max);
      CollectCount(removed, taken, max);
      if sum.count == item.count then (items[n - 1 := slot], sum)
          else RemoveFrom(items[n - 1 := slot], n - 1, item, sum, max)
  }

  lemma CollectCount(removed: ItemStack, taken: ItemStack, max: StackMax)
    requires removed.count + taken.count < 0x1_0000
    ensures Collect(removed, taken, max).count == removed.count + taken.count
  {}

  function RemoveItem(s: ListState, item: ItemStack, max: StackMax): (ListState, ItemStack) {
    var (items, removed) := RemoveFrom(s.items, |s.items|, item, EMPTY, max);
    (ListState(items, s.width, s.dirty || !IsEmpty(removed)), removed)
  }

  // ----- how many items of a kind a list holds -----

  function Tally(items: seq<ItemStack>, k: Kind): nat {
    if items == [] then 0 else Tally(items[..|items| - 1], k) + CountOf(items[|items| - 1], k)
  }

  lemma {:induction false} TallyUpdate(items: seq<ItemStack>, i: nat, s: ItemStack, k: Kind)
    requires i < |items|
    ensures Tally(items[i := s], k) + CountOf(items[i], k) == Tally(items, k) + CountOf(s, k)
  {
    var n := |items| - 1;
    if i == n {
      assert items[i := s][..n] == items[..n];
    } else {
      TallyUpdate(items[..n], i, s, k);
      assert items[i := s][..n] == items[..n][i := s];
    }
  }

  // ----- adding -----

  lemma {:induction false} PourConserves(items: seq<ItemStack>, i: nat, newitem: ItemStack, intoEmpty: bool,
                                         max: StackMax, k: Kind)
    ensures var (after, left) := Pour(items, i, newitem, intoEmpty, max);
            |after| == |items| && Tally(after, k) + CountOf(left, k) == Tally(items, k) + CountOf(newitem, k)
    decreases |items| - i
  {
    if i < |items| && !IsEmpty(newitem) {
      if IsEmpty(items[i]) != intoEmpty {
        PourConserves(items, i + 1, newitem, intoEmpty, max, k);
      } else {
        var (slot, left) := AddItem(items[i], newitem, max);
        AddConserves(items[i], newitem, max, k);
        TallyUpdate(items, i, slot, k);
        PourConserves(items[i := slot], i + 1, left, intoEmpty, max, k);
      }
    }
  }

  /** The list and what is left over together hold what the list and the item held. */
  lemma AddConservesAll(s: ListState, newitem: ItemStack, max: StackMax, k: Kind)
    ensures var (after, left) := AddItemSomewhere(s, newitem, max);
            && |after.items| == |s.items| && after.width == s.width
            && Tally(after.items, k) + CountOf(left, k) == Tally(s.items, k) + CountOf(newitem, k)
  {
    var (filled, rest) := Pour(s.items, 0, newitem, false, max);
    PourConserves(s.items, 0, newitem, false, max, k);
    PourConserves(filled, 0, rest, true, max, k);
  }

  /** The room for a kind in the slots from `i` on that are empty, or in those that are not. */
  function RoomIn(items: seq<ItemStack>, i: nat, k: Kind, inEmpty: bool, max: StackMax): nat
    decreases |items| - i
  {
    if i >= |items| then 0
    else RoomIn(items, i + 1, k, inEmpty, max) + if IsEmpty(items[i]) == inEmpty then Room(items[i], k, max) else 0
  }

  function TotalRoom(items: seq<ItemStack>, k: Kind, max: StackMax): nat {
    RoomIn(items, 0, k, false, max) + RoomIn(items, 0, k, true, max)
  }

  function Beyond(count: nat, room: nat): nat {
    if count <= room then 0 else count - room
  }

  /** A later slot's room does not depend on an earlier slot. */
  lemma {:induction false} RoomElsewhere(items: seq<ItemStack>, j: nat, s: ItemStack, i: nat, k: Kind, inEmpty: bool,
                                         max: StackMax)
    requires j < |items| && j < i
    ensures RoomIn(items[j := s], i, k, inEmpty, max) == RoomIn(items, i, k, inEmpty, max)
    decreases |items| - i
  {
    if i < |items| { RoomElsewhere(items, j, s, i + 1, k, inEmpty, max); }
  }

  /** One pass leaves over exactly what its slots have no room for. */
  lemma {:induction false} PourLeftover(items: seq<ItemStack>, i: nat, newitem: ItemStack, intoEmpty: bool,
                                        max: StackMax)
    requires !IsEmpty(newitem)
    ensures var left := Pour(items, i, newitem, intoEmpty, max).1;
            && left.count == Beyond(newitem.count, RoomIn(items, i, KindOf(newitem), intoEmpty, max))
            && (left.count > 0 ==> left == newitem.(count := left.count))
    decreases |items| - i
  {
    if i < |items| {
      if IsEmpty(items[i]) != intoEmpty {
        PourLeftover(items, i + 1, newitem, intoEmpty, max);
      } else {
        var (slot, left) := AddItem(items[i], newitem, max);
        AddMeaning(items[i], newitem, max);
        hide AddItem;
        RoomElsewhere(items, i, slot, i + 1, KindOf(newitem), intoEmpty, max);
        if !IsEmpty(left) { PourLeftover(items[i := slot], i + 1, left, intoEmpty, max); }
      }
    }
  }

  /** Filling slots in use neither empties nor uses up an empty one. */
  lemma {:induction false} PourFilledKeepsEmpty(items: seq<ItemStack>, i: nat, newitem: ItemStack, max: StackMax,
                                                j: nat, k: Kind)
    requires j <= i
    ensures RoomIn(Pour(items, i, newitem, false, max).0, j, k, true, max) == RoomIn(items, j, k, true, max)
    decreases |items| - i
  {
    if i < |items| && !IsEmpty(newitem) {
      if IsEmpty(items[i]) {
        PourFilledKeepsEmpty(items, i + 1, newitem, max, j, k);
      } else {
        var (slot, left) := AddItem(items[i], newitem, max);
        AddKeepsFilled(items[i], newitem, max);
        RoomOfFilled(items, i, slot, j, k, max);
        PourFilledKeepsEmpty(items[i := slot], i + 1, left, max, j, k);
      }
    }
  }

  lemma AddKeepsFilled(slot: ItemStack, newitem: ItemStack, max: StackMax)
    requires !IsEmpty(slot)
    ensures !IsEmpty(AddItem(slot, newitem, max).0)
  {}

  lemma {:induction false} RoomOfFilled(items: seq<ItemStack>, i: nat, s: ItemStack, j: nat, k: Kind, max: StackMax)
    requires i < |items| && !IsEmpty(items[i]) && !IsEmpty(s)
    ensures RoomIn(items[i := s], j, k, true, max) == RoomIn(items, j, k, true, max)
    decreases |items| - j
  {
    if j < |items| { RoomOfFilled(items, i, s, j + 1, k, max); }
  }

  /** Adding a non-empty item leaves over exactly what the whole list has no room for. */
  lemma AddLeavesBeyondRoom(s: ListState, newitem: ItemStack, max: StackMax)
    requires !IsEmpty(newitem)
    ensures AddItemSomewhere(s, newitem, max).1.count == Beyond(newitem.count, TotalRoom(s.items, KindOf(newitem), max))
  {
    var (filled, rest) := Pour(s.items, 0, newitem, false, max);
    PourLeftover(s.items, 0, newitem, false, max);
    PourFilledKeepsEmpty(s.items, 0, newitem, max, 0, KindOf(newitem));
    if !IsEmpty(rest) { PourLeftover(filled, 0, rest, true, max); }
  }

  lemma {:induction false} RoomForItemMeaning(items: seq<ItemStack>, i: nat, item: ItemStack, max: StackMax)
    requires !IsEmpty(item)
    ensures var k := KindOf(item);
            RoomForItem(items, i, item, max) <==>
                item.count <= RoomIn(items, i, k, false, max) + RoomIn(items, i, k, true, max)
    decreases |items| - i
  {
    if i < |items| {
      FitsPredictsAdd(items[i], item, max);
      AddLeftover(items[i], item, max);
      var left := ItemFits(items[i], item, max).1;
      if !IsEmpty(left) { RoomForItemMeaning(items, i + 1, left, max); }
    }
  }

  /** There is room for a non-empty item exactly when adding it would leave nothing over. */
  lemma RoomPredictsAdd(s: ListState, item: ItemStack, max: StackMax)
    requires !IsEmpty(item)
    ensures RoomForItem(s.items, 0, item, max) <==> IsEmpty(AddItemSomewhere(s, item, max).1)
  {
    RoomForItemMeaning(s.items, 0, item, max);
    AddLeavesBeyondRoom(s, item, max);
  }

  /** For an empty item the two differ on a list without slots. */
  lemma RoomForNothing(s: ListState, item: ItemStack, max: StackMax)
    requires IsEmpty(item)
    ensures IsEmpty(AddItemSomewhere(s, item, max).1)
    ensures RoomForItem(s.items, 0, item, max) <==> s.items != []
  {}

  // ----- finding and removing -----

  /** How many items of the name, and of the metadata if that is asked for, the first `n` slots hold. */
  function Available(items: seq<ItemStack>, n: nat, item: ItemStack, matchMeta: bool): nat
    requires n <= |items|
  {
    if n == 0 then 0
    else
      var slot := items[n - 1];
      Available(items, n - 1, item, matchMeta) +
        if slot.name == item.name && (!matchMeta || slot.metadata == item.metadata) then slot.count else 0
  }

  lemma {:induction false} ContainsMeaning(items: seq<ItemStack>, n: nat, item: ItemStack, count: nat, matchMeta: bool)
    requires n <= |items|
    ensures ContainsItem(items, n, item, count, matchMeta) <==> count <= Available(items, n, item, matchMeta)
  {
    if n > 0 && count > 0 {
      if !Matches(items[n - 1], item, matchMeta) {
        ContainsMeaning(items, n - 1, item, count, matchMeta);
      } else if items[n - 1].count < count {
        ContainsMeaning(items, n - 1, item, count - items[n - 1].count, matchMeta);
      }
    }
  }

  /** A slot loses items or nothing; what stays is of the kind that was there. */
  predicate IsLess(after: ItemStack, before: ItemStack) {
    after == before || after == EMPTY || (0 < after.count < before.count && after == before.(count := after.count))
  }

  /** The available items do not change when a slot behind them does. */
  lemma {:induction false} AvailableBefore(items: seq<ItemStack>, j: nat, s: ItemStack, n: nat, item: ItemStack,
                                           matchMeta: bool)
    requires n <= j < |items|
    ensures Available(items[j := s], n, item, matchMeta) == Available(items, n, item, matchMeta)
  {
    if n > 0 { AvailableBefore(items, j, s, n - 1, item, matchMeta); }
  }

  /** What is removed is what was asked for, as far as there is any; other slots keep their stacks. */
  lemma {:induction false} RemoveMeaning(items: seq<ItemStack>, n: nat, item: ItemStack, removed: ItemStack,
                                         max: StackMax)
    requires n <= |items| && removed.count <= item.count
    ensures RemoveFrom(items, n, item, removed, max).1.count ==
        Min(item.count, removed.count + Available(items, n, item, false))
    decreases n
  {
    if n > 0 {
      if items[n - 1].name != item.name {
        RemoveMeaning(items, n - 1, item, removed, max);
      } else {
        var (slot, taken) := TakeItem(items[n - 1], item.count - removed.count);
        var sum := Collect(removed, taken, max);
        CollectCount(removed, taken, max);
        TakeConserves(items[n - 1], item.count - removed.count, KindOf(EMPTY));
        hide TakeItem, Collect;
        AvailableBefore(items, n - 1, slot, n - 1, item, false);
        if sum.count != item.count { RemoveMeaning(items[n - 1 := slot], n - 1, item, sum, max); }
      }
    }
  }

  /** Slot by slot: removing touches only slots of that name, and takes from them in whole or in part. */
  lemma {:induction false} RemoveSlots(items: seq<ItemStack>, n: nat, item: ItemStack, removed: ItemStack,
                                       max: StackMax, j: nat)
    requires n <= |items| && removed.count <= item.count && j < |items|
    ensures var after := RemoveFrom(items, n, item, removed, max).0;
            IsLess(after[j], items[j]) && (items[j].name != item.name || j >= n ==> after[j] == items[j])
    decreases n
  {
    if n > 0 {
      if items[n - 1].name != item.name {
        RemoveSlots(items, n - 1, item, removed, max, j);
      } else {
        var (slot, taken) := TakeItem(items[n - 1], item.count - removed.count);
        var sum := Collect(removed, taken, max);
        CollectCount(removed, taken, max);
        if sum.count != item.count { RemoveSlots(items[n - 1 := slot], n - 1, item, sum, max, j); }
      }
    }
  }

  lemma NameMatches(s: ItemStack, named: ItemStack)
    ensures Matches(s, named, false) <==> s.name == named.name
  {}

  lemma TakenCounts(s: ItemStack, count: nat, named: ItemStack)
    ensures var (rest, taken) := TakeItem(s, count);
            && (if Matches(rest, named, false) then rest.count else 0)
                  + (if named.name == s.name then taken.count else 0)
                 == (if Matches(s, named, false) then s.count else 0)
  {}

  /** The slots lose as many items of the name as are removed, and of every other name none. */
  lemma {:induction false} RemoveAccounts(items: seq<ItemStack>, n: nat, item: ItemStack, removed: ItemStack,
                                          max: StackMax, named: ItemStack)
    requires n <= |items| && removed.count <= item.count
    ensures var (after, sum) := RemoveFrom(items, n, item, removed, max);
            Available(after, n, named, false) + (if named.name == item.name then sum.count - removed.count else 0)
              == Available(items, n, named, false)
    decreases n
  {
    hide TakeItem, Collect, Matches;
    if n > 0 {
      NameMatches(items[n - 1], named);
      if items[n - 1].name != item.name {
        RemoveAccounts(items, n - 1, item, removed, max, named);
        RemoveSlots(items, n - 1, item, removed, max, n - 1);
      } else {
        var (slot, taken) := TakeItem(items[n - 1], item.count - removed.count);
        var sum := Collect(removed, taken, max);
        TakeConserves(items[n - 1], item.count - removed.count, KindOf(EMPTY));
        CollectCount(removed, taken, max);
        AvailableBefore(items, n - 1, slot, n - 1, named, false);
        TakenCounts(items[n - 1], item.count - removed.count, named);
        if sum.count != item.count {
          RemoveAccounts(items[n - 1 := slot], n - 1, item, sum, max, named);
          RemoveSlots(items[n - 1 := slot], n - 1, item, sum, max, n - 1);
        }
      }
    }
  }

  /** The list contains the item, metadata aside, exactly when removing it would return the full count. */
  lemma ContainsPredictsRemove(s: ListState, item: ItemStack, max: StackMax)
    ensures ContainsItem(s.items, |s.items|, item, item.count, false) <==>
        RemoveItem(s, item, max).1.count == item.count
  {
    ContainsMeaning(s.items, |s.items|, item, item.count, false);
    RemoveMeaning(s.items, |s.items|, item, EMPTY, max);
  }

  /** Removing takes exactly the smaller of what is asked for and what there is, all of it of that name. */
  lemma RemoveExactly(s: ListState, item: ItemStack, max: StackMax, named: ItemStack)
    ensures var (after, removed) := RemoveItem(s, item, max);
            && removed.count == Min(item.count, Available(s.items, |s.items|, item, false))
            && |after.items| == |s.items| && after.width == s.width
            && Available(after.items, |s.items|, named, false)
                 == Available(s.items, |s.items|, named, false) - (if named.name == item.name then removed.count else 0)
  {
    hide RemoveFrom, Available;
    RemoveMeaning(s.items, |s.items|, item, EMPTY, max);
    RemoveAccounts(s.items, |s.items|, item, EMPTY, max, named);
  }

  /** The last of the first `n` slots that holds items of the name. */
  ghost predicate IsLastHolder(items: seq<ItemStack>, n: nat, name: string, j: nat) {
    && j < n <= |items| && items[j].name == name && !IsEmpty(items[j])
    && forall i :: j < i < n && items[i].name == name ==> IsEmpty(items[i])
  }

  /** What is handed back is a stack like the one it was taken from first, which is the last one. */
  lemma {:induction false} RemovedStack(items: seq<ItemStack>, n: nat, item: ItemStack, removed: ItemStack,
                                        max: StackMax)
    requires n <= |items| && removed.count <= item.count && (IsEmpty(removed) ==> removed == EMPTY)
    ensures var sum := RemoveFrom(items, n, item, removed, max).1;
            && (!IsEmpty(removed) ==> sum == removed.(count := sum.count))
            && (IsEmpty(removed) && !IsEmpty(sum) ==>
                  exists j: nat :: IsLastHolder(items, n, item.name, j) && sum == items[j].(count := sum.count))
            && (IsEmpty(sum) ==> sum == EMPTY)
    decreases n
  {
    if n > 0 {
      if items[n - 1].name != item.name {
        RemovedStack(items, n - 1, item, removed, max);
        HolderBefore(items, items, n, item.name);
      } else {
        var (slot, taken) := TakeItem(items[n - 1], item.count - removed.count);
        var sum := Collect(removed, taken, max);
        CollectCount(removed, taken, max);
        CollectStack(removed, taken, max);
        TakeConserves(items[n - 1], item.count - removed.count, KindOf(EMPTY));
        if sum.count != item.count { RemovedStack(items[n - 1 := slot], n - 1, item, sum, max); }
        if IsEmpty(items[n - 1]) {
          HolderBefore(items, items[n - 1 := slot], n, item.name);
        } else {
          assert IsLastHolder(items, n, item.name, n - 1);
        }
      }
    }
  }

  lemma CollectStack(removed: ItemStack, taken: ItemStack, max: StackMax)
    requires removed.count + taken.count < 0x1_0000
    requires (IsEmpty(removed) ==> removed == EMPTY) && (IsEmpty(taken) ==> taken == EMPTY)
    ensures var sum := Collect(removed, taken, max);
            sum == if IsEmpty(removed) then taken else removed.(count := removed.count + taken.count)
  {}

  lemma HolderBefore(items: seq<ItemStack>, after: seq<ItemStack>, n: nat, name: string)
    requires 0 < n <= |items| == |after| && (items[n - 1].name != name || IsEmpty(items[n - 1]))
    requires forall i :: 0 <= i < n - 1 ==> after[i] == items[i]
    ensures forall j: nat ::
        IsLastHolder(after, n - 1, name, j) ==> IsLastHolder(items, n, name, j) && after[j] == items[j]
  {}

  /** From the end on, each slot of the name gives what is still missing, as far as it has it. */
  lemma {:induction false} RemovedFrom(items: seq<ItemStack>, n: nat, item: ItemStack, removed: ItemStack,
                                       max: StackMax, j: nat)
    requires j < n <= |items| && removed.count <= item.count && items[j].name == item.name
    ensures Available(items, n, item, false) >= Available(items, j + 1, item, false)
    ensures var later := Available(items, n, item, false) - Available(items, j + 1, item, false);
            RemoveFrom(items, n, item, removed, max).0[j] ==
              Shrunk(items[j], Min(items[j].count, Beyond(item.count - removed.count, later)))
    decreases n, 1
  {
    if items[n - 1].name != item.name {
      RemovedFrom(items, n - 1, item, removed, max, j);
    } else {
      hide RemoveFrom, Available, Shrunk;
      RemovedTurn(items, n, item, removed, max, j);
    }
  }

  lemma {:induction false} RemovedTurn(items: seq<ItemStack>, n: nat, item: ItemStack, removed: ItemStack,
                                       max: StackMax, j: nat)
    requires j < n <= |items| && removed.count <= item.count && items[j].name == item.name
        && items[n - 1].name == item.name
    ensures Available(items, n, item, false) >= Available(items, j + 1, item, false)
    ensures var later := Available(items, n, item, false) - Available(items, j + 1, item, false);
            RemoveFrom(items, n, item, removed, max).0[j] ==
              Shrunk(items[j], Min(items[j].count, Beyond(item.count - removed.count, later)))
    decreases n, 0
  {
    hide RemoveFrom, Available, Shrunk;
    var slot := Shrunk(items[n - 1], Min(items[n - 1].count, item.count - removed.count));
    var sum := RemoveTurn(items, n, item, removed, max);
    AvailableStep(items, n, item);
    NothingTaken(items[j]);
    if j < n - 1 {
      AvailableBefore(items, n - 1, slot, n - 1, item, false);
      AvailableBefore(items, n - 1, slot, j + 1, item, false);
      AvailableGrows(items, j + 1, n - 1, item);
      if sum.count != item.count { RemovedFrom(items[n - 1 := slot], n - 1, item, sum, max, j); }
    } else if sum.count != item.count {
      RemoveSlots(items[n - 1 := slot], n - 1, item, sum, max, j);
    }
  }

  lemma AvailableStep(items: seq<ItemStack>, n: nat, item: ItemStack)
    requires 0 < n <= |items| && items[n - 1].name == item.name
    ensures Available(items, n, item, false) == Available(items, n - 1, item, false) + items[n - 1].count
  {}

  /** What one turn onto a slot of the name does. */
  lemma RemoveTurn(items: seq<ItemStack>, n: nat, item: ItemStack, removed: ItemStack, max: StackMax)
      returns (sum: ItemStack)
    requires 0 < n <= |items| && removed.count <= item.count && items[n - 1].name == item.name
    ensures var m := Min(items[n - 1].count, item.count - removed.count);
            var next := items[n - 1 := Shrunk(items[n - 1], m)];
            && sum.count == removed.count + m
            && RemoveFrom(items, n, item, removed, max).0 ==
               if sum.count == item.count then next else RemoveFrom(next, n - 1, item, sum, max).0
  {
    var taken := TakeItem(items[n - 1], item.count - removed.count).1;
    TakeConserves(items[n - 1], item.count - removed.count, KindOf(EMPTY));
    CollectCount(removed, taken, max);
    sum := Collect(removed, taken, max);
    hide TakeItem, Collect, Shrunk;
  }

  lemma NothingTaken(s: ItemStack)
    ensures Shrunk(s, 0) == s
  {}

  lemma {:induction false} AvailableGrows(items: seq<ItemStack>, i: nat, n: nat, item: ItemStack)
    requires i <= n <= |items|
    ensures Available(items, i, item, false) <= Available(items, n, item, false)
  {
    if i < n { AvailableGrows(items, i, n - 1, item); }
  }

  /**
   * `removeItem` takes from the last slots of the name first: a slot loses what the later ones did not have. It hands
   * back one stack, whose metadata and wear are those of the last slot that held any.
   */
  lemma RemoveItemMeaning(s: ListState, item: ItemStack, max: StackMax, j: nat)
    requires j < |s.items|
    ensures var (after, removed) := RemoveItem(s, item, max);
            && |after.items| == |s.items| && after.width == s.width
            && (s.items[j].name != item.name ==> after.items[j] == s.items[j])
            && (s.items[j].name == item.name ==>
                  var later := Available(s.items, |s.items|, item, false) - Available(s.items, j + 1, item, false);
                  && later >= 0
                  && after.items[j] == Shrunk(s.items[j], Min(s.items[j].count, Beyond(item.count, later))))
            && (if IsEmpty(removed) then removed == EMPTY
                else exists i: nat ::
                       && IsLastHolder(s.items, |s.items|, item.name, i)
                       && removed == s.items[i].(count := removed.count))
  {
    hide RemoveFrom, Available, IsLastHolder, Shrunk;
    RemovedStack(s.items, |s.items|, item, EMPTY, max);
    RemoveSlots(s.items, |s.items|, item, EMPTY, max, j);
    if s.items[j].name == item.name { RemovedFrom(s.items, |s.items|, item, EMPTY, max, j); }
  }

  // ----- where added items go -----

  /** The room for a kind in the slots from `i` to before `j` that are empty, or in those that are not. */
  function RoomBetween(items: seq<ItemStack>, i: nat, j: nat, k: Kind, inEmpty: bool, max: StackMax): nat
    requires j <= |items|
    decreases j - i
  {
    if i >= j then 0
    else RoomBetween(items, i + 1, j, k, inEmpty, max) + if IsEmpty(items[i]) == inEmpty then Room(items[i], k, max)
        else 0
  }

  lemma {:induction false} RoomBetweenElsewhere(items: seq<ItemStack>, at: nat, s: ItemStack, i: nat, j: nat, k: Kind,
                                                inEmpty: bool, max: StackMax)
    requires at < |items| && j <= |items| && (at < i || (inEmpty && !IsEmpty(items[at]) && !IsEmpty(s)))
    ensures RoomBetween(items[at := s], i, j, k, inEmpty, max) == RoomBetween(items, i, j, k, inEmpty, max)
    decreases j - i
  {
    if i < j { RoomBetweenElsewhere(items, at, s, i + 1, j, k, inEmpty, max); }
  }

  /** How many of `count` items a slot with this room gets when the slots before it can take `before`. */
  function Share(count: u16, room: nat, before: nat): u16 {
    Min(room, Beyond(count, before))
  }

  lemma {:induction false} PourAt(items: seq<ItemStack>, i: nat, newitem: ItemStack, intoEmpty: bool, max: StackMax,
                                  j: nat)
    requires i <= j < |items| && !IsEmpty(newitem) && IsEmpty(items[j]) == intoEmpty
    ensures var k := KindOf(newitem);
            var n := Share(newitem.count, Room(items[j], k, max), RoomBetween(items, i, j, k, intoEmpty, max));
            && (!IsEmpty(items[j]) ==> items[j].count + n < 0x1_0000)
            && |Pour(items, i, newitem, intoEmpty, max).0| == |items|
            && Pour(items, i, newitem, intoEmpty, max).0[j] == Grown(items[j], newitem, n)
    decreases |items| - i
  {
    hide AddItem;
    if IsEmpty(items[i]) != intoEmpty {
      PourAt(items, i + 1, newitem, intoEmpty, max, j);
    } else {
      var (slot, left) := AddItem(items[i], newitem, max);
      AddMeaning(items[i], newitem, max);
      if i == j {
        PourPasses(items[i := slot], i + 1, left, intoEmpty, max, j);
      } else if IsEmpty(left) {
        assert Pour(items[i := slot], i + 1, left, intoEmpty, max).0 == items[i := slot];
      } else {
        RoomBetweenElsewhere(items, i, slot, i + 1, j, KindOf(newitem), intoEmpty, max);
        PourAt(items[i := slot], i + 1, left, intoEmpty, max, j);
      }
    }
  }

  /** A pass does not come back to a slot, nor touch a slot it is not about. */
  lemma {:induction false} PourPasses(items: seq<ItemStack>, i: nat, newitem: ItemStack, intoEmpty: bool, max: StackMax,
                                      j: nat)
    requires j < |items| && (j < i || IsEmpty(items[j]) != intoEmpty)
    ensures var after := Pour(items, i, newitem, intoEmpty, max).0; |after| == |items| && after[j] == items[j]
    decreases |items| - i
  {
    if i < |items| && !IsEmpty(newitem) {
      if IsEmpty(items[i]) != intoEmpty {
        PourPasses(items, i + 1, newitem, intoEmpty, max, j);
      } else {
        var (slot, left) := AddItem(items[i], newitem, max);
        PourPasses(items[i := slot], i + 1, left, intoEmpty, max, j);
      }
    }
  }

  lemma {:induction false} PourKeepsRoomBetween(items: seq<ItemStack>, i: nat, newitem: ItemStack, max: StackMax,
                                                k: Kind,
                                                from: nat, j: nat)
    requires j <= |items|
    ensures var after := Pour(items, i, newitem, false, max).0;
            |after| == |items| && RoomBetween(after, from, j, k, true, max) == RoomBetween(items, from, j, k, true, max)
    decreases |items| - i
  {
    if i < |items| && !IsEmpty(newitem) {
      if IsEmpty(items[i]) {
        PourKeepsRoomBetween(items, i + 1, newitem, max, k, from, j);
      } else {
        var (slot, left) := AddItem(items[i], newitem, max);
        AddKeepsFilled(items[i], newitem, max);
        RoomBetweenElsewhere(items, i, slot, from, j, k, true, max);
        PourKeepsRoomBetween(items[i := slot], i + 1, left, max, k, from, j);
      }
    }
  }

  /**
   * `addItem` fills the slots in use first and the empty ones then, each in order: a slot gets what those before it
   * have no room for. A stack in an empty slot is like the item; another stack only grows.
   */
  lemma AddItemMeaning(s: ListState, newitem: ItemStack, max: StackMax, j: nat)
    requires j < |s.items| && !IsEmpty(newitem)
    ensures var k, slot := KindOf(newitem), s.items[j];
            var before := if IsEmpty(slot) then RoomIn(s.items, 0, k, false, max)
                + RoomBetween(s.items, 0, j, k, true, max)
                          else RoomBetween(s.items, 0, j, k, false, max);
            var n := Share(newitem.count, Room(slot, k, max), before);
            var after := AddItemSomewhere(s, newitem, max).0;
            && (!IsEmpty(slot) ==> slot.count + n < 0x1_0000)
            && |after.items| == |s.items| && after.items[j] == Grown(slot, newitem, n)
  {
    var k := KindOf(newitem);
    var (filled, rest) := Pour(s.items, 0, newitem, false, max);
    hide Pour, RoomIn, RoomBetween;
    PourLeftover(s.items, 0, newitem, false, max);
    PourKeepsRoomBetween(s.items, 0, newitem, max, k, 0, j);
    if IsEmpty(s.items[j]) {
      PourPasses(s.items, 0, newitem, false, max, j);
      if IsEmpty(rest) {
        PourPasses(filled, |filled|, rest, true, max, j);
        PourNothing(filled, rest, max);
      } else {
        PourAt(filled, 0, rest, true, max, j);
      }
    } else {
      PourAt(s.items, 0, newitem, false, max, j);
      PourPasses(filled, 0, rest, true, max, j);
    }
  }

  lemma PourNothing(items: seq<ItemStack>, newitem: ItemStack, max: StackMax)
    requires IsEmpty(newitem)
    ensures Pour(items, 0, newitem, true, max) == (items, newitem)
  {}

  // ----- the flag -----

  /** Adding, taking and removing set the flag exactly when a slot changes. */
  lemma FlagExact(s: ListState, i: nat, item: ItemStack, count: nat, max: StackMax)
    ensures var t := AddItemAt(s, i, item, max).0; t.dirty <==> s.dirty || t.items != s.items
    ensures var t := AddItemSomewhere(s, item, max).0; t.dirty <==> s.dirty || t.items != s.items
    ensures var t := TakeItemAt(s, i, count).0; t.dirty <==> s.dirty || t.items != s.items
    ensures var t := RemoveItem(s, item, max).0; t.dirty <==> s.dirty || t.items != s.items
  {
    if i < |s.items| {
      if !IsEmpty(item) { AddLeftover(s.items[i], item, max); }
      TakeConserves(s.items[i], count, KindOf(EMPTY));
      SameAt(s.items, i, AddItem(s.items[i], item, max).0);
      SameAt(s.items, i, TakeItem(s.items[i], count).0);
    }
    AddFlag(s, item, max);
    RemoveFlag(s, item, max);
  }

  lemma SameAt<T>(items: seq<T>, i: nat, x: T)
    requires i < |items|
    ensures items[i := x] == items <==> x == items[i]
  {
    if x == items[i] { assert items[i := x] == items; } else { assert items[i := x][i] == x; }
  }

  lemma AddFlag(s: ListState, item: ItemStack, max: StackMax)
    ensures var (after, left) := AddToItems(s.items, item, max); left != item <==> after != s.items
  {
    var (after, left) := AddToItems(s.items, item, max);
    AddChanges(s.items, item, max);
    AddConservesAll(s, item, max, KindOf(item));
    var (filled, rest) := Pour(s.items, 0, item, false, max);
    PourChanges(s.items, 0, item, false, max);
    PourChanges(filled, 0, rest, true, max);
  }

  lemma RemoveFlag(s: ListState, item: ItemStack, max: StackMax)
    ensures var (after, removed) := RemoveItem(s, item, max); !IsEmpty(removed) <==> after.items != s.items
  {
    RemoveChanges(s.items, |s.items|, item, EMPTY, max);
    RemoveExactly(s, item, max, item);
  }

  // ----- what stays the same -----

  /** If adding hands the item back untouched, the slots are untouched. */
  lemma AddChanges(items: seq<ItemStack>, newitem: ItemStack, max: StackMax)
    ensures var (after, left) := AddToItems(items, newitem, max); left == newitem ==> after == items
  {
    var (filled, rest) := Pour(items, 0, newitem, false, max);
    PourChanges(items, 0, newitem, false, max);
    PourChanges(filled, 0, rest, true, max);
  }

  lemma {:induction false} PourChanges(items: seq<ItemStack>, i: nat, newitem: ItemStack, intoEmpty: bool,
                                       max: StackMax)
    ensures var (after, left) := Pour(items, i, newitem, intoEmpty, max);
            left.count <= newitem.count && (left.count == newitem.count ==> after == items && left == newitem)
    decreases |items| - i
  {
    if i < |items| && !IsEmpty(newitem) {
      if IsEmpty(items[i]) != intoEmpty {
        PourChanges(items, i + 1, newitem, intoEmpty, max);
      } else {
        var (slot, left) := AddItem(items[i], newitem, max);
        AddLeftover(items[i], newitem, max);
        PourChanges(items[i := slot], i + 1, left, intoEmpty, max);
      }
    }
  }

  /** If nothing is removed, the slots are untouched. */
  lemma {:induction false} RemoveChanges(items: seq<ItemStack>, n: nat, item: ItemStack, removed: ItemStack,
                                         max: StackMax)
    requires n <= |items| && removed.count <= item.count
    ensures var (after, sum) := RemoveFrom(items, n, item, removed, max);
            sum.count >= removed.count && (sum.count == removed.count ==> after == items)
    decreases n
  {
    if n > 0 {
      if items[n - 1].name != item.name {
        RemoveChanges(items, n - 1, item, removed, max);
      } else {
        var (slot, taken) := TakeItem(items[n - 1], item.count - removed.count);
        var sum := Collect(removed, taken, max);
        CollectCount(removed, taken, max);
        TakeConserves(items[n - 1], item.count - removed.count, KindOf(EMPTY));
        assert taken.count == 0 ==> items[n - 1 := slot] == items;
        hide TakeItem, Collect;
        if sum.count != item.count { RemoveChanges(items[n - 1 := slot], n - 1, item, sum, max); }
      }
    }
  }
}
