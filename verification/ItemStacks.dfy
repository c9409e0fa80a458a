/** Item stacks: adding, fitting and taking. */
module ItemStacks {
  import opened MachineIntegers

  datatype ItemStack = ItemStack(name: string, count: u16, wear: u16, metadata: map<string, string>)

  const EMPTY := ItemStack("", 0, 0, map[])

  /** What makes two stacks stack: the item's name and metadata. Wear is not compared. */
  datatype Kind = Kind(name: string, metadata: map<string, string>)

  function KindOf(s: ItemStack): Kind {
    Kind(s.name, s.metadata)
  }

  predicate IsEmpty(s: ItemStack) {
    s.count == 0
  }

  /** The largest stack of each item, from the item definitions. */
  type StackMax = string -> u16

  function FreeSpace(s: ItemStack, max: StackMax): u16 {
    if s.count >= max(s.name) then 0 else max(s.name) - s.count
  }

  function Add(s: ItemStack, n: u16): ItemStack {
    s.(count := ToU16(s.count + n))
  }

  function Remove(s: ItemStack, n: u16): ItemStack
    requires n <= s.count
  {
    if n == s.count then EMPTY else s.(count := s.count - n)
  }

  /** The slot after adding, and what is left over. */
  function AddItem(slot: ItemStack, newitem: ItemStack, max: StackMax): (ItemStack, ItemStack) {
    if IsEmpty(newitem) then (slot, newitem)
    else if IsEmpty(slot) then (newitem, EMPTY)
    else if slot.name != newitem.name || slot.metadata != newitem.metadata then (slot, newitem)
    else if newitem.count <= FreeSpace(slot, max) then (Add(slot, newitem.count), EMPTY)
    else (Add(slot, FreeSpace(slot, max)), Remove(newitem, FreeSpace(slot, max)))
  }

  /** Whether the whole item would fit, and what would be left over. */
  function ItemFits(slot: ItemStack, newitem: ItemStack, max: StackMax): (bool, ItemStack) {
    var rest :=
      if IsEmpty(newitem) then newitem
      else if IsEmpty(slot) then EMPTY
      else if slot.name != newitem.name || slot.metadata != newitem.metadata then newitem
      else if newitem.count <= FreeSpace(slot, max) then EMPTY
      else Remove(newitem, FreeSpace(slot, max));
    (IsEmpty(rest), rest)
  }

  /** The slot after taking, and what was taken. */
  function TakeItem(s: ItemStack, takecount: nat): (ItemStack, ItemStack) {
    if takecount == 0 || s.count == 0 then (s, EMPTY)
    else if takecount >= s.count then (EMPTY, s)
    else (Remove(s, takecount), s.(count := takecount))
  }

  /** How many items of a kind a stack holds. */
  function CountOf(s: ItemStack, k: Kind): nat {
    if KindOf(s) == k then s.count else 0
  }

  /** The query predicts the mutator. */
  lemma FitsPredictsAdd(slot: ItemStack, newitem: ItemStack, max: StackMax)
    ensures ItemFits(slot, newitem, max) == (IsEmpty(AddItem(slot, newitem, max).1), AddItem(slot, newitem, max).1)
  {}

  /** Adding loses nothing and makes nothing, for every kind, and fills a slot no further than its maximum. */
  lemma AddConserves(slot: ItemStack, newitem: ItemStack, max: StackMax, k: Kind)
    ensures var (after, left) := AddItem(slot, newitem, max);
            && CountOf(after, k) + CountOf(left, k) == CountOf(slot, k) + CountOf(newitem, k)
            && left.count <= newitem.count
            && (!IsEmpty(slot) ==> KindOf(after) == KindOf(slot) && (after.count <= max(slot.name) || after == slot))
  {}

  /** What is left over is what the slot has no room for; a slot of another kind has none, an empty one has enough. */
  lemma AddLeftover(slot: ItemStack, newitem: ItemStack, max: StackMax)
    requires !IsEmpty(newitem)
    ensures var room := Room(slot, KindOf(newitem), max);
            var (after, left) := AddItem(slot, newitem, max);
            && left.count == (if room >= newitem.count then 0 else newitem.count - room)
            && (left.count > 0 ==> KindOf(left) == KindOf(newitem) && left.wear == newitem.wear)
            && (left.count == 0 ==> left == EMPTY)
            && (left == newitem <==> after == slot)
            && (left.count > 0 && KindOf(slot) == KindOf(newitem) ==> after.count >= max(slot.name))
  {}

  /** A slot after `n` of the items were added: an empty slot becomes a stack of theirs, another only grows. */
  function Grown(slot: ItemStack, newitem: ItemStack, n: u16): ItemStack
    requires !IsEmpty(slot) ==> slot.count + n < 0x1_0000
  {
    if n == 0 then slot else if IsEmpty(slot) then newitem.(count := n) else slot.(count := slot.count + n)
  }

  /** A stack after `n` of its items are gone. */
  function Shrunk(s: ItemStack, n: u16): ItemStack
    requires n <= s.count
  {
    if n == 0 then s else if n == s.count then EMPTY else s.(count := s.count - n)
  }

  /** As much is added as there is room for, and the stacks are otherwise as they were. */
  lemma AddMeaning(slot: ItemStack, newitem: ItemStack, max: StackMax)
    requires !IsEmpty(newitem)
    ensures var n := Min(newitem.count, Room(slot, KindOf(newitem), max));
            && (!IsEmpty(slot) ==> slot.count + n < 0x1_0000)
            && AddItem(slot, newitem, max) == (Grown(slot, newitem, n), Shrunk(newitem, n))
  {}

  /** How many more items of a kind a slot takes at once. */
  function Room(slot: ItemStack, k: Kind, max: StackMax): nat {
    if IsEmpty(slot) then 0xFFFF
    else if KindOf(slot) == k then FreeSpace(slot, max) else 0
  }

  lemma TakeConserves(s: ItemStack, takecount: nat, k: Kind)
    ensures var (rest, taken) := TakeItem(s, takecount);
            && CountOf(rest, k) + CountOf(taken, k) == CountOf(s, k)
            && taken.count == (if takecount < s.count then takecount else s.count)
            && (taken.count > 0 ==> KindOf(taken) == KindOf(s) && taken.wear == s.wear)
            && (rest.count > 0 ==> KindOf(rest) == KindOf(s))
            && (taken.count == 0 ==> rest == s && taken == EMPTY)
            && rest == Shrunk(s, taken.count) && (taken.count > 0 ==> taken == s.(count := taken.count))
  {}
}
