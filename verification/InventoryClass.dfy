/** An inventory: lists with different names, written, read and kept in step. */
module InventoryClass {
  import opened InventoryListClass
  import opened InventoryLists
  import opened InventorySync
  import opened ItemStacks
  import opened ItemWire
  import opened Options
  import SyncRuns

  class Inventory {
    const max: StackMax
    var lists: seq<InventoryList>

    ghost predicate Valid()
      reads this, lists
    {
      && (forall i, j :: 0 <= i < j < |lists| ==> lists[i].name != lists[j].name)
      && (forall i :: 0 <= i < |lists| ==> lists[i].max == max)
    }

    /** The lists as a sender holds them, and as a receiver's copies. */
    ghost function AsHeld(): (r: seq<Held>)
      reads this, lists
      ensures |r| == |lists| && forall i :: 0 <= i < |r| ==> r[i] == Held(lists[i].name, lists[i].AsState())
    {
      seq(|lists|, i requires 0 <= i < |lists| reads this, lists => Held(lists[i].name, lists[i].AsState()))
    }

    ghost function AsCopies(): (r: seq<Named>)
      reads this, lists
      ensures |r| == |lists| && forall i ::
          0 <= i < |r| ==> r[i] == Named(lists[i].name, Copy(lists[i].items, lists[i].width))
    {
      seq(|lists|, i requires 0 <= i < |lists| reads this,
          lists => Named(lists[i].name, Copy(lists[i].items, lists[i].width)))
    }

    constructor (max: StackMax)
      ensures Valid() && this.max == max && lists == []
    {
      this.max, lists := max, [];
    }

    /** The place of the list with that name, or the number of lists. */
    method GetListIndex(name: string) returns (i: nat)
      ensures i == SyncRuns.Place(AsHeld(), name) && i == IndexOf(Names(AsCopies()), name)
    {
      i := 0;
      while i < |lists| && lists[i].name != name
        invariant i <= |lists| && forall k :: 0 <= k < i ==> lists[k].name != name
      {
        i := i + 1;
      }
      FirstIndex(HeldNames(AsHeld()), name, i);
      FirstIndex(Names(AsCopies()), name, i);
    }

    method SerializeOne(i: nat, incremental: bool) returns (lines: seq<Line>)
      requires i < |lists|
      ensures lines == WriteOne(AsHeld()[i], incremental)
    {
      var list := lists[i];
      if !incremental || list.dirty {
        var written := list.Serialize();
        lines := [ListLine(list.name, |list.items|)] + written;
      } else {
        lines := [KeepListLine(list.name)];
      }
    }

    method Serialize(incremental: bool) returns (lines: seq<Line>)
      ensures lines == WriteInventory(AsHeld(), incremental)
    {
      hide WriteOne;
      lines := [];
      ghost var held := AsHeld();
      for i := 0 to |lists|
        invariant lines + WriteLists(held[i..], incremental) == WriteLists(held, incremental)
      {
        var one := SerializeOne(i, incremental);
        WriteNext(held, i, incremental);
        lines := lines + one;
      }
      lines := lines + [EndInventory];
    }

    /** All changes are handled. */
    method ClearModified()
      modifies lists
      ensures AsHeld() == SyncRuns.AllClean(old(AsHeld()))
    {
      for i := 0 to |lists|
        invariant forall k ::
            0 <= k < |lists| ==> lists[k].items == old(lists[k].items) && lists[k].width == old(lists[k].width)
        invariant forall k :: 0 <= k < i ==> !lists[k].dirty
      {
        lists[i].SetModified(false);
      }
    }

    method AppendList(list: InventoryList)
      requires Valid() && list.max == max && forall k :: 0 <= k < |lists| ==> lists[k].name != list.name
      modifies this
      ensures Valid() && lists == old(lists) + [list]
      ensures AsHeld() == old(AsHeld()) + [Held(list.name, list.AsState())]
      ensures AsCopies() == old(AsCopies()) + [Named(list.name, Copy(list.items, list.width))]
    {
      lists := lists + [list];
    }

    method ReplaceList(i: nat, list: InventoryList)
      requires Valid() && list.max == max && i < |lists| && lists[i].name == list.name
      modifies this
      ensures Valid() && lists == old(lists)[i := list]
      ensures AsHeld() == old(AsHeld())[i := Held(list.name, list.AsState())]
    {
      lists := lists[i := list];
    }

    /** A list of another size is replaced; a new name with a space is refused. */
    method AddList(name: string, size: nat) returns (list: InventoryList?)
      requires Valid()
      modifies this
      ensures Valid() && AsHeld() == SyncRuns.WithList(old(AsHeld()), name, size)
      ensures list == null || (list in lists && list.name == name)
    {
      var i := GetListIndex(name);
      if i < |lists| {
        if |lists[i].items| != size {
          list := new InventoryList(name, size, max);
          ReplaceList(i, list);
        }
        return lists[i];
      }
      // a name with a space would break the written form
      if ' ' in name { return null; }
      NameIsNew(AsHeld(), name);
      list := new InventoryList(name, size, max);
      AppendList(list);
    }

    method DeleteList(name: string) returns (found: bool)
      requires Valid()
      modifies this
      ensures Valid() && AsHeld() == SyncRuns.WithoutList(old(AsHeld()), name)
          && found == (name in HeldNames(old(AsHeld())))
    {
      var i := GetListIndex(name);
      found := i < |lists|;
      hide HeldNames;
      if found { RemoveAt(i); }
    }

    method RemoveAt(i: nat)
      requires Valid() && i < |lists|
      modifies this
      ensures Valid() && AsHeld() == old(AsHeld()[..i] + AsHeld()[i + 1..])
    {
      ghost var was, held := lists, AsHeld();
      lists := lists[..i] + lists[i + 1..];
      forall k | 0 <= k < |lists| ensures lists[k] == was[if k < i then k else k + 1] {}
      assert AsHeld() == held[..i] + held[i + 1..];
    }

    /** Reads one list, into the list of that name or a new one. None is returned where the program throws. */
    method ReadListLine(name: string, size: nat, lines: seq<Line>, reader: Reader) returns (rest: Option<seq<Line>>)
      requires Valid()
      modifies this, lists
      ensures forall k :: 0 <= k < |lists| ==> lists[k] in old(lists) || fresh(lists[k])
      ensures match ReadList(Base(old(AsCopies()), name, size), 0, 0, lines, reader)
              case None => rest == None
              case Some(got) =>
                  rest == Some(got.rest) && Valid()
                      && AsCopies() == SetCopy(old(AsCopies()), name, Copy(got.items, got.width))
    {
      hide ReadList;
      var i := GetListIndex(name);
      if i < |lists| {
        SameSize(lists[i].items);
        rest := ReadInto(i, size, lines, reader);
      } else {
        NameIsNew(AsHeld(), name);
        var list := new InventoryList(name, size, max);
        rest := list.DeSerialize(lines, reader);
        AppendList(list);
      }
    }

    method ReadInto(i: nat, size: nat, lines: seq<Line>, reader: Reader) returns (rest: Option<seq<Line>>)
      requires Valid() && i < |lists|
      modifies lists[i]
      ensures match ReadList(Resize(old(lists[i].items), size), 0, 0, lines, reader)
              case None => rest == None
              case Some(got) =>
                  rest == Some(got.rest) && AsCopies() ==
                      old(AsCopies())[i := Named(lists[i].name, Copy(got.items, got.width))]
    {
      hide ReadList;
      SameSize(lists[i].items);
      lists[i].SetSize(size);
      rest := lists[i].DeSerialize(lines, reader);
    }

    /** The lists that were sent. */
    method Sent(kept: seq<string>) returns (left: seq<InventoryList>)
      requires Valid()
      ensures CopiesOf(left) == Keep(AsCopies(), kept)
      ensures forall k :: 0 <= k < |left| ==> left[k].max == max
      ensures forall k, j :: 0 <= k < j < |left| ==> left[k].name != left[j].name
    {
      ghost var copies := AsCopies();
      ghost var places: seq<nat> := [];
      ghost var sent: seq<Named> := [];
      left := [];
      assert Keep(copies[..0], kept) == [];
      hide Keep;
      for i := 0 to |lists|
        invariant |places| == |left| == |sent|
        invariant forall k ::
            0 <= k < |left| ==> places[k] < i && left[k] == lists[places[k]] && sent[k] == copies[places[k]]
        invariant forall k, j :: 0 <= k < j < |left| ==> places[k] < places[j]
        invariant sent == Keep(copies[..i], kept)
      {
        KeepNext(copies, i, kept);
        if lists[i].name in kept {
          left, places, sent := left + [lists[i]], places + [i], sent + [copies[i]];
        }
      }
      assert copies[..|lists|] == copies;
      assert CopiesOf(left) == sent;
    }

    /** Lists that were not sent leave the inventory. */
    method RemoveUnsent(kept: seq<string>)
      requires Valid()
      modifies this
      ensures Valid() && AsCopies() == Keep(old(AsCopies()), kept)
    {
      lists := Sent(kept);
      assert AsCopies() == CopiesOf(lists);
    }

    /**
     * Merges an inventory that was written. It fails where the program throws, and then part of it may have been read.
     */
    method DeSerialize(lines: seq<Line>, reader: Reader) returns (ok: bool)
      requires Valid()
      modifies this, lists
      ensures match ReadInventory(old(AsCopies()), [], lines, reader)
              case None => !ok
              case Some(copies) => ok && Valid() && AsCopies() == copies
    {
      hide ReadList, SetCopy, Names, Keep;
      var newLists: seq<string> := [];
      var todo := lines;
      ghost var goal := ReadInventory(AsCopies(), [], lines, reader);
      while todo != []
        invariant Valid() && ReadInventory(AsCopies(), newLists, todo, reader) == goal
        invariant forall k :: 0 <= k < |lists| ==> lists[k] in old(lists) || fresh(lists[k])
        decreases |todo|
      {
        var line := todo[0];
        todo := todo[1..];
        match line {
          case EndInventory =>
            RemoveUnsent(newLists);
            return true;
          case ListLine(name, size) =>
            var rest := ReadListLine(name, size, todo, reader);
            if rest.None? { return false; }
            newLists, todo := newLists + [name], rest.value;
          case KeepListLine(name) =>
            var i := GetListIndex(name);
            if i < |lists| { newLists := newLists + [name]; }
          case _ =>
        }
      }
      ok := false;
    }
  }

  ghost function CopiesOf(lists: seq<InventoryList>): (r: seq<Named>)
    reads lists
    ensures |r| == |lists| && forall i ::
        0 <= i < |r| ==> r[i] == Named(lists[i].name, Copy(lists[i].items, lists[i].width))
  {
    seq(|lists|, i requires 0 <= i < |lists| reads lists => Named(lists[i].name, Copy(lists[i].items, lists[i].width)))
  }

  lemma NameIsNew(held: seq<Held>, name: string)
    requires SyncRuns.Place(held, name) == |held|
    ensures forall k :: 0 <= k < |held| ==> held[k].name != name
  {
    assert forall k :: 0 <= k < |held| ==> HeldNames(held)[k] == held[k].name;
  }

  lemma KeepNext(copies: seq<Named>, i: nat, kept: seq<string>)
    requires i < |copies|
    ensures Keep(copies[..i + 1], kept) ==
        if copies[i].name in kept then Keep(copies[..i], kept) + [copies[i]] else Keep(copies[..i], kept)
  {
    assert copies[..i + 1][..i] == copies[..i];
  }

  lemma SameSize(items: seq<ItemStack>)
    ensures Resize(items, |items|) == items
  {}

  lemma WriteNext(held: seq<Held>, i: nat, incremental: bool)
    requires i < |held|
    ensures WriteLists(held[i..], incremental) ==
        WriteOne(held[i], incremental) + WriteLists(held[i + 1..], incremental)
  {
    assert held[i..][1..] == held[i + 1..];
  }

  lemma {:induction false} FirstIndex(names: seq<string>, name: string, i: nat)
    requires i <= |names| && (forall k :: 0 <= k < i ==> names[k] != name) && (i < |names| ==> names[i] == name)
    ensures IndexOf(names, name) == i
  {
    if i > 0 { FirstIndex(names[1..], name, i - 1); }
  }
}
