/** Item stacks and inventory lists on the wire, as lines of tokens. */
module ItemWire {
  import opened InventoryLists
  import opened ItemStacks
  import opened MachineIntegers
  import opened Options

  /** The words of an item line. Names and metadata are written in an escaped form that holds no space or line end. */
  datatype Token = Name(name: string) | Number(n: u16) | Metadata(fields: map<string, string>)

  /**
   * What the reader's item definitions say, and how it reads the formats of old versions, which start with a keyword.
   */
  datatype Reader = Reader(alias: string -> string, tool: string -> bool, legacy: seq<Token> -> Option<ItemStack>)

  const LEGACY_KEYWORDS := {"MaterialItem", "MaterialItem2", "MaterialItem3", "node", "NodeItem", "craft", "CraftItem",
      "MBOItem", "tool", "ToolItem"}

  /** Parts that have their usual value are left out from the end. */
  function WriteItem(s: ItemStack): seq<Token> {
    if s.metadata != map[] then [Name(s.name), Number(s.count), Number(s.wear), Metadata(s.metadata)]
    else if s.wear != 0 then [Name(s.name), Number(s.count), Number(s.wear)]
    else if s.count != 1 then [Name(s.name), Number(s.count)]
    else [Name(s.name)]
  }

  /** A stack without a name or count is cleared; of a tool there is one. */
  function Tidy(s: ItemStack, reader: Reader): ItemStack {
    if s.name == "" || s.count == 0 then EMPTY
    else if reader.tool(s.name) then s.(count := 1) else s
  }

  function ReadItem(tokens: seq<Token>, reader: Reader): Option<ItemStack> {
    if tokens == [] || !tokens[0].Name? then None
    else if tokens[0].name in LEGACY_KEYWORDS then
      var s := reader.legacy(tokens);
      if s.Some? then Some(Tidy(s.value, reader)) else None
    else
      var name := reader.alias(tokens[0].name);
      if |tokens| == 1 then Some(Tidy(ItemStack(name, 1, 0, map[]), reader))
      else if !tokens[1].Number? then None
      else if |tokens| == 2 then Some(Tidy(ItemStack(name, tokens[1].n, 0, map[]), reader))
      else if !tokens[2].Number? then None
      else if |tokens| == 3 then Some(Tidy(ItemStack(name, tokens[1].n, tokens[2].n, map[]), reader))
      else if !tokens[3].Metadata? then None
      else Some(Tidy(ItemStack(name, tokens[1].n, tokens[2].n, tokens[3].fields), reader))
  }

  /** An item reads back with its name resolved and tidied; nothing else of it changes. */
  lemma ItemRoundTrip(s: ItemStack, reader: Reader)
    requires s.name !in LEGACY_KEYWORDS
    ensures ReadItem(WriteItem(s), reader) == Some(Tidy(s.(name := reader.alias(s.name)), reader))
  {}

  /** An item reads back the same exactly when its name is resolved and tidying leaves it. */
  lemma ItemUnchanged(s: ItemStack, reader: Reader)
    requires s.name !in LEGACY_KEYWORDS && !IsEmpty(s)
    ensures ReadItem(WriteItem(s), reader) == Some(s) <==>
            reader.alias(s.name) == s.name && s.name != "" && (reader.tool(s.name) ==> s.count == 1)
  {
    ItemRoundTrip(s, reader);
  }

  /** A reader that takes every name as it is and knows no tools. */
  const PLAIN_READER := Reader(n => n, n => false, tokens => None)

  /** All that can be written of a stack: name, count, wear and metadata, in this order. */
  function FullForm(s: ItemStack): seq<Token> {
    [Name(s.name), Number(s.count), Number(s.wear), Metadata(s.metadata)]
  }

  /** What is written is the shortest beginning of the full form that still reads back as the stack. */
  lemma WriteShortest(s: ItemStack, n: nat)
    requires s.name !in LEGACY_KEYWORDS && s.name != "" && !IsEmpty(s) && 1 <= n <= 4
    ensures WriteItem(s) <= FullForm(s)
    ensures ReadItem(FullForm(s)[..n], PLAIN_READER) == Some(s) <==> |WriteItem(s)| <= n
  {}

  // ----- lists -----

  datatype Line =
    | ListLine(name: string, size: nat)
    | KeepListLine(name: string)
    | EndInventory
    | WidthLine(width: nat)
    | ItemLine(tokens: seq<Token>)
    | EmptyLine
    | KeepLine
    | EndInventoryList
    | OtherLine

  function WriteSlot(s: ItemStack): Line {
    if IsEmpty(s) then EmptyLine else ItemLine(WriteItem(s))
  }

  function WriteSlots(items: seq<ItemStack>): seq<Line> {
    if items == [] then [] else WriteSlots(items[..|items| - 1]) + [WriteSlot(items[|items| - 1])]
  }

  function WriteList(items: seq<ItemStack>, width: nat): seq<Line> {
    [WidthLine(width)] + WriteSlots(items) + [EndInventoryList]
  }

  /** A list read: its slots and width, and the lines after it. */
  datatype ListRead = ListRead(items: seq<ItemStack>, width: nat, rest: seq<Line>)

  /** Clears the slots from `i` on. */
  function ClearFrom(items: seq<ItemStack>, i: nat): (r: seq<ItemStack>)
    ensures |r| == |items| && forall k :: 0 <= k < |items| ==> r[k] == if k < i then items[k] else EMPTY
  {
    if i >= |items| then items else items[..i] + Blank(|items| - i)
  }

  /** Reads lines into the slots from `i` on. Fails on too many items, an unreadable item, or a missing end. */
  function ReadList(items: seq<ItemStack>, width: nat, i: nat, lines: seq<Line>, reader: Reader): (r: Option<ListRead>)
    ensures r.Some? ==> |r.value.rest| < |lines|
    decreases |lines|
  {
    if lines == [] then None
    else
      match lines[0]
      case EndInventoryList => Some(ListRead(ClearFrom(items, i), width, lines[1..]))
      case WidthLine(w) => ReadList(items, w, i, lines[1..], reader)
      case ItemLine(tokens) =>
        if i >= |items| || ReadItem(tokens, reader).None? then None
        else ReadList(items[i := ReadItem(tokens, reader).value], width, i + 1, lines[1..], reader)
      case EmptyLine => if i >= |items| then None else ReadList(items[i := EMPTY], width, i + 1, lines[1..], reader)
      case KeepLine => ReadList(items, width, i + 1, lines[1..], reader)
      case _ => ReadList(items, width, i, lines[1..], reader)
  }

  /** What a reader gets for a slot. */
  function Received(s: ItemStack, reader: Reader): Option<ItemStack> {
    if IsEmpty(s) then Some(EMPTY) else ReadItem(WriteItem(s), reader)
  }

  predicate IsReadable(items: seq<ItemStack>, reader: Reader) {
    forall i :: 0 <= i < |items| ==> Received(items[i], reader).Some?
  }

  /** The list a reader gets. */
  function ReceivedList(items: seq<ItemStack>, reader: Reader): (r: seq<ItemStack>)
    requires IsReadable(items, reader)
    ensures |r| == |items| && forall i :: 0 <= i < |r| ==> r[i] == Received(items[i], reader).value
  {
    seq(|items|, i requires 0 <= i < |items| => Received(items[i], reader).value)
  }

  lemma {:induction false} WriteSlotsSplit(items: seq<ItemStack>)
    requires items != []
    ensures WriteSlots(items) == [WriteSlot(items[0])] + WriteSlots(items[1..]) && |WriteSlots(items)| == |items|
  {
    var n := |items| - 1;
    if n > 0 {
      WriteSlotsSplit(items[..n]);
      assert items[..n][1..] == items[1..][..n - 1];
    } else {
      assert items[..n] == [] && items[1..] == [];
    }
  }

  /** A written list: its width, one line for every slot in order, and the end. */
  lemma ListLines(items: seq<ItemStack>, width: nat, i: nat)
    requires i < |items|
    ensures var lines := WriteList(items, width);
            && |lines| == |items| + 2 && lines[0] == WidthLine(width) && lines[|items| + 1] == EndInventoryList
            && lines[i + 1] == if items[i].count == 0 then EmptyLine else ItemLine(WriteItem(items[i]))
  {
    SlotLines(items, i);
  }

  lemma {:induction false} SlotLines(items: seq<ItemStack>, i: nat)
    requires i < |items|
    ensures |WriteSlots(items)| == |items| && WriteSlots(items)[i] == WriteSlot(items[i])
  {
    var n := |items| - 1;
    WriteSlotsSplit(items);
    if i < n {
      SlotLines(items[..n], i);
    } else if n > 0 {
      WriteSlotsSplit(items[..n]);
    }
  }

  lemma ReadSlot(items: seq<ItemStack>, width: nat, i: nat, s: ItemStack, more: seq<Line>, reader: Reader)
    requires i < |items| && Received(s, reader).Some?
    ensures ReadList(items, width, i, [WriteSlot(s)] + more, reader) ==
            ReadList(items[i := Received(s, reader).value], width, i + 1, more, reader)
  {
    hide ReadItem, WriteItem;
    assert ([WriteSlot(s)] + more)[1..] == more;
  }

  lemma Splice<T>(s: seq<T>, i: nat, x: T, t: seq<T>)
    requires i + 1 + |t| <= |s|
    ensures s[i := x][..i + 1] + t + s[i := x][i + 1 + |t|..] == s[..i] + ([x] + t) + s[i + 1 + |t|..]
  {}

  lemma SpliceNothing<T>(s: seq<T>, i: nat)
    requires i <= |s|
    ensures s[..i] + [] + s[i..] == s
  {}

  lemma ReceivedFirst(items: seq<ItemStack>, reader: Reader)
    requires items != [] && IsReadable(items, reader)
    ensures Received(items[0], reader).Some? && IsReadable(items[1..], reader)
    ensures ReceivedList(items, reader) == [Received(items[0], reader).value] + ReceivedList(items[1..], reader)
  {
    hide Received;
    assert forall i :: 0 <= i < |items[1..]| ==> items[1..][i] == items[i + 1];
  }

  /** Reading what was written for slots puts them in place, whatever the reader had there. */
  lemma {:induction false} ReadSlots(had: seq<ItemStack>, width: nat, i: nat, items: seq<ItemStack>, tail: seq<Line>,
                                     reader: Reader)
    requires i + |items| <= |had| && IsReadable(items, reader)
    ensures ReadList(had, width, i, WriteSlots(items) + tail, reader) ==
            ReadList(had[..i] + ReceivedList(items, reader) + had[i + |items|..], width, i + |items|, tail, reader)
    decreases |items|
  {
    hide ReadItem, WriteItem, Received, IsReadable, ReadList, WriteSlot;
    if items == [] {
      assert WriteSlots(items) + tail == tail;
      assert ReceivedList(items, reader) == [];
      SpliceNothing(had, i);
    } else {
      ReceivedFirst(items, reader);
      WriteSlotsSplit(items);
      var got := Received(items[0], reader).value;
      assert WriteSlots(items) + tail == [WriteSlot(items[0])] + (WriteSlots(items[1..]) + tail);
      ReadSlot(had, width, i, items[0], WriteSlots(items[1..]) + tail, reader);
      ReadSlots(had[i := got], width, i + 1, items[1..], tail, reader);
      Splice(had, i, got, ReceivedList(items[1..], reader));
    }
  }

  /** A list written and read into a list of the same size replaces everything that was there. */
  lemma ListRoundTrip(had: seq<ItemStack>, items: seq<ItemStack>, width: nat, tail: seq<Line>, reader: Reader)
    requires |had| == |items| && IsReadable(items, reader)
    ensures ReadList(had, 0, 0, WriteList(items, width) + tail, reader) ==
        Some(ListRead(ReceivedList(items, reader), width, tail))
  {
    hide ReadItem, WriteItem, Received, WriteSlots;
    var lines := WriteList(items, width) + tail;
    var end := [EndInventoryList] + tail;
    assert lines[0] == WidthLine(width) && lines[1..] == WriteSlots(items) + end;
    ReadSlots(had, width, 0, items, end, reader);
    Replaced(had, ReceivedList(items, reader));
    ReadEnd(ReceivedList(items, reader), width, |items|, tail, reader);
  }

  lemma Replaced<T>(s: seq<T>, t: seq<T>)
    requires |s| == |t|
    ensures s[..0] + t + s[|t|..] == t
  {}

  lemma ReadEnd(items: seq<ItemStack>, width: nat, i: nat, tail: seq<Line>, reader: Reader)
    requires i == |items|
    ensures ReadList(items, width, i, [EndInventoryList] + tail, reader) == Some(ListRead(items, width, tail))
  {
    assert ([EndInventoryList] + tail)[1..] == tail;
  }
}
