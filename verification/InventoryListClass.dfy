/** The inventory list itself: slots changed in place, and a flag that says whether anything may have changed. */
module InventoryListClass {
  import opened InventoryLists
  import opened InventoryMoves
  import opened ItemStacks
  import opened ItemWire
  import opened MachineIntegers
  import opened Options

  class InventoryList {
    const name: string
    /** What the item definitions say about stack sizes. */
    const max: StackMax
    var items: seq<ItemStack>
    var width: nat
    var dirty: bool

    ghost function AsState(): ListState
      reads this
    {
      ListState(items, width, dirty)
    }

    constructor (name: string, size: nat, max: StackMax)
      ensures this.name == name && this.max == max && AsState() == ListState(Blank(size), 0, true)
    {
      this.name, this.max := name, max;
      items, width, dirty := Blank(size), 0, true;
    }

    method SetModified(dirty: bool)
      modifies this`dirty
      ensures this.dirty == dirty
    {
      this.dirty := dirty;
    }

    method ClearItems()
      modifies this`items, this`dirty
      ensures AsState() == InventoryLists.ClearItems(old(AsState()))
    {
      items := Blank(|items|);
      dirty := true;
    }

    method SetSize(newsize: nat)
      modifies this`items, this`dirty
      ensures AsState() == InventoryLists.SetSize(old(AsState()), newsize)
    {
      if newsize == |items| { return; }
      items := Resize(items, newsize);
      dirty := true;
    }

    method SetWidth(newwidth: nat)
      modifies this`width, this`dirty
      ensures AsState() == InventoryLists.SetWidth(old(AsState()), newwidth)
    {
      width := newwidth;
      dirty := true;
    }

    method ChangeItem(i: nat, newitem: ItemStack) returns (olditem: ItemStack)
      modifies this`items, this`dirty
      ensures (AsState(), olditem) == InventoryLists.ChangeItem(old(AsState()), i, newitem)
    {
      if i >= |items| { return newitem; }
      olditem := items[i];
      items := items[i := newitem];
      dirty := true;
    }

    method DeleteItem(i: nat)
      requires i < |items|
      modifies this`items, this`dirty
      ensures AsState() == InventoryLists.ChangeItem(old(AsState()), i, EMPTY).0
    {
      items := items[i := EMPTY];
      dirty := true;
    }

    method AddItemAt(i: nat, newitem: ItemStack) returns (leftover: ItemStack)
      modifies this`items, this`dirty
      ensures (AsState(), leftover) == InventoryLists.AddItemAt(old(AsState()), i, newitem, max)
    {
      if i >= |items| { return newitem; }
      var (slot, left) := ItemStacks.AddItem(items[i], newitem, max);
      items, leftover := items[i := slot], left;
      if leftover != newitem { dirty := true; }
    }

    method TakeItem(i: nat, takecount: nat) returns (taken: ItemStack)
      modifies this`items, this`dirty
      ensures (AsState(), taken) == TakeItemAt(old(AsState()), i, takecount)
    {
      if i >= |items| { return EMPTY; }
      var (slot, got) := ItemStacks.TakeItem(items[i], takecount);
      items, taken := items[i := slot], got;
      if !IsEmpty(taken) { dirty := true; }
    }

    method AddItem(newitem_: ItemStack) returns (newitem: ItemStack)
      modifies this`items, this`dirty
      ensures (AsState(), newitem) == AddItemSomewhere(old(AsState()), newitem_, max)
    {
      newitem := newitem_;
      if IsEmpty(newitem) { return; }
      newitem := AddPass(newitem, false);
      if IsEmpty(newitem) { return; }
      newitem := AddPass(newitem, true);
    }

    /** One of the two loops of adding: over the slots in use, or over the empty ones. */
    method AddPass(newitem_: ItemStack, intoEmpty: bool) returns (newitem: ItemStack)
      requires !IsEmpty(newitem_)
      modifies this`items, this`dirty
      ensures (items, newitem) == Pour(old(items), 0, newitem_, intoEmpty, max)
      ensures dirty == (old(dirty) || newitem != newitem_) && (newitem == newitem_ || newitem.count < newitem_.count)
    {
      newitem := newitem_;
      for i := 0 to |items|
        invariant |items| == |old(items)| && !IsEmpty(newitem)
        invariant Pour(items, i, newitem, intoEmpty, max) == Pour(old(items), 0, newitem_, intoEmpty, max)
        invariant dirty == (old(dirty) || newitem != newitem_)
            && (newitem == newitem_ || newitem.count < newitem_.count)
      {
        if IsEmpty(items[i]) != intoEmpty { continue; }
        AddLess(items[i], newitem, max);
        newitem := AddItemAt(i, newitem);
        if IsEmpty(newitem) { return; }
      }
    }

    method RoomForItem(item_: ItemStack) returns (room: bool)
      ensures room == InventoryLists.RoomForItem(items, 0, item_, max)
    {
      var item := item_;
      for i := 0 to |items|
        invariant InventoryLists.RoomForItem(items, 0, item_, max) == InventoryLists.RoomForItem(items, i, item, max)
      {
        var (fits, leftover) := ItemFits(items[i], item, max);
        if fits { return true; }
        item := leftover;
      }
      room := false;
    }

    method ContainsItem(item: ItemStack, matchMeta: bool) returns (found: bool)
      ensures found == InventoryLists.ContainsItem(items, |items|, item, item.count, matchMeta)
    {
      var count: nat := item.count;
      if count == 0 { return true; }
      for n := |items| downto 0
        invariant count > 0
        invariant InventoryLists.ContainsItem(items, |items|, item, item.count, matchMeta)
               == InventoryLists.ContainsItem(items, n, item, count, matchMeta)
      {
        if Matches(items[n], item, matchMeta) {
          if items[n].count >= count { return true; }
          count := count - items[n].count;
        }
      }
      found := false;
    }

    method RemoveItem(item: ItemStack) returns (removed: ItemStack)
      modifies this`items, this`dirty
      ensures (AsState(), removed) == InventoryLists.RemoveItem(old(AsState()), item, max)
    {
      removed := EMPTY;
      for n := |items| downto 0
        invariant |items| == |old(items)| && removed.count <= item.count && dirty == old(dirty)
        invariant RemoveFrom(items, n, item, removed, max) == RemoveFrom(old(items), |old(items)|, item, EMPTY, max)
      {
        if items[n].name == item.name {
          var stillToRemove := item.count - removed.count;
          var (slot, taken) := ItemStacks.TakeItem(items[n], stillToRemove);
          CollectCount(removed, taken, max);
          items := items[n := slot];
          removed := Collect(removed, taken, max);
          if removed.count == item.count { break; }
        }
      }
      if !IsEmpty(removed) { dirty := true; }
    }

    // ----- on the wire -----

    method Serialize() returns (lines: seq<Line>)
      ensures lines == WriteList(items, width)
    {
      var slots: seq<Line> := [];
      for i := 0 to |items|
        invariant slots == WriteSlots(items[..i])
      {
        assert items[..i + 1][..i] == items[..i];
        slots := slots + [WriteSlot(items[i])];
      }
      assert items[..|items|] == items;
      lines := [WidthLine(width)] + slots + [EndInventoryList];
    }

    /** Reads lines into the slots; none is returned where the program throws, and then some may have been read. */
    method DeSerialize(lines: seq<Line>, reader: Reader) returns (rest: Option<seq<Line>>)
      modifies this`items, this`width, this`dirty
      ensures dirty
      ensures match ReadList(old(items), 0, 0, lines, reader)
              case None => rest == None
              case Some(r) => rest == Some(r.rest) && items == r.items && width == r.width
    {
      dirty, width := true, 0;
      var itemI, todo := 0, lines;
      while todo != []
        invariant dirty && ReadList(items, width, itemI, todo, reader) == ReadList(old(items), 0, 0, lines, reader)
        decreases |todo|
      {
        var line := todo[0];
        todo := todo[1..];
        match line {
          case EndInventoryList =>
            items := ClearFrom(items, itemI);
            return Some(todo);
          case WidthLine(w) => width := w;
          case ItemLine(tokens) =>
            var item := ReadItem(tokens, reader);
            if itemI >= |items| || item.None? { return None; }
            items, itemI := items[itemI := item.value], itemI + 1;
          case EmptyLine =>
            if itemI >= |items| { return None; }
            items, itemI := items[itemI := EMPTY], itemI + 1;
          case KeepLine => itemI := itemI + 1;
          case _ =>
        }
      }
      rest := None;
    }

    // ----- moves; the destination may be this list -----

    ghost function Lists(dest: InventoryList): World
      reads this, dest
    {
      if dest == this then [items] else [items, dest.items]
    }

    ghost function Place(dest: InventoryList): nat {
      if dest == this then 0 else 1
    }

    /** No flag is cleared, and a list that changed is flagged. */
    twostate predicate Flagged()
      reads this
    {
      (old(dirty) ==> dirty) && (items != old(items) ==> dirty)
    }

    /** Takes from a slot for a move: everything when `count` is 0. */
    method TakeToMove(dest: InventoryList, i: nat, count: nat) returns (item1: ItemStack)
      modifies this`items, this`dirty
      ensures (Lists(dest), item1) == TakeItemIn(old(Lists(dest)), 0, i, count) && Flagged()
    {
      if count == 0 {
        item1 := ChangeItem(i, EMPTY);
      } else {
        item1 := TakeItem(i, count);
      }
      assert Lists(dest) == old(Lists(dest))[0 := items];
    }

    method AddToDest(dest: InventoryList, destI: nat, item1: ItemStack) returns (left: ItemStack)
      requires dest.max == max
      modifies dest`items, dest`dirty
      ensures (Lists(dest), left) == AddItemIn(old(Lists(dest)), Place(dest), destI, item1, max) && dest.Flagged()
    {
      left := dest.AddItemAt(destI, item1);
      assert Lists(dest) == old(Lists(dest))[Place(dest) := dest.items];
    }

    method AddBack(dest: InventoryList, i: nat, item1: ItemStack)
      modifies this`items, this`dirty
      ensures Lists(dest) == AddItemIn(old(Lists(dest)), 0, i, item1, max).0 && Flagged()
    {
      var lost := AddItemAt(i, item1);
    }

    method SwapWith(dest: InventoryList, i: nat, destI: nat, oldcount: nat) returns (moved: nat)
      modifies this`items, this`dirty, dest`items, dest`dirty
      ensures Moved(Lists(dest), moved, true) == Swapped(old(Lists(dest)), 0, i, Place(dest), destI, oldcount)
      ensures Flagged() && dest.Flagged()
    {
      var item1 := ChangeItem(i, EMPTY);
      var item2 := dest.ChangeItem(destI, item1);
      item2 := ChangeItem(i, item2);
      moved := ToU32(oldcount - item1.count);
    }

    method MoveItem(i: nat, dest: InventoryList, destI: nat, count: nat, swapIfNeeded: bool)
        returns (moved: nat, didSwap: bool)
      requires dest.max == max
      modifies this`items, this`dirty, dest`items, dest`dirty
      ensures Moved(Lists(dest), moved, didSwap) ==
              InventoryMoves.MoveItem(old(Lists(dest)), 0, i, Place(dest), destI, count, swapIfNeeded, max)
      ensures Flagged() && dest.Flagged()
    {
      if this == dest && i == destI { return count, false; }
      var item1 := TakeToMove(dest, i, count);
      if IsEmpty(item1) { return 0, false; }
      var oldcount := item1.count;
      item1 := AddToDest(dest, destI, item1);
      moved, didSwap := oldcount - item1.count, false;
      if !IsEmpty(item1) {
        AddBack(dest, i, item1);
        if item1.count == oldcount && swapIfNeeded {
          moved := SwapWith(dest, i, destI, oldcount);
          didSwap := true;
        }
      }
    }

    method MoveItemSomewhere(i: nat, dest: InventoryList, count: nat)
      requires dest.max == max
      modifies this`items, this`dirty, dest`items, dest`dirty
      ensures Lists(dest) == InventoryMoves.MoveItemSomewhere(old(Lists(dest)), 0, i, Place(dest), count, max)
      ensures Flagged() && dest.Flagged()
    {
      var item1 := TakeToMove(dest, i, count);
      if IsEmpty(item1) { return; }
      var leftover := AddSomewhere(dest, item1);
      if !IsEmpty(leftover) { AddBack(dest, i, leftover); }
    }

    method AddSomewhere(dest: InventoryList, item1: ItemStack) returns (left: ItemStack)
      requires dest.max == max && !IsEmpty(item1)
      modifies dest`items, dest`dirty
      ensures (Lists(dest), left) == AddSomewhereIn(old(Lists(dest)), Place(dest), item1, max) && dest.Flagged()
    {
      PourLeft([dest.items], 0, item1, max);
      AddChanges(dest.items, item1, max);
      left := dest.AddItem(item1);
      assert Lists(dest) == old(Lists(dest))[Place(dest) := dest.items];
    }
  }

  lemma AddLess(slot: ItemStack, newitem: ItemStack, max: StackMax)
    requires !IsEmpty(newitem)
    ensures var left := ItemStacks.AddItem(slot, newitem, max).1; left == newitem || left.count < newitem.count
  {}
}
