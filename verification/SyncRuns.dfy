/**
 * Whole runs: any interleaving of changes to the sender's inventory and sync rounds keeps the receiver's copy right.
 */
module SyncRuns {
  import opened InventoryLists
  import opened InventoryMoves
  import opened InventorySync
  import opened ItemStacks
  import opened ItemWire
  import opened Options

  /** The operations on one list that may change it. */
  datatype ListOp =
    | ClearOp
    | SetSizeOp(size: nat)
    | SetWidthOp(width: nat)
    | ChangeItemOp(i: nat, item: ItemStack)
    | AddItemAtOp(i: nat, item: ItemStack)
    | AddItemOp(item: ItemStack)
    | RemoveItemOp(item: ItemStack)
    | TakeItemOp(i: nat, count: nat)

  function ApplyOp(s: ListState, op: ListOp, max: StackMax): ListState {
    match op
    case ClearOp => ClearItems(s)
    case SetSizeOp(n) => SetSize(s, n)
    case SetWidthOp(n) => SetWidth(s, n)
    case ChangeItemOp(i, item) => ChangeItem(s, i, item).0
    case AddItemAtOp(i, item) => AddItemAt(s, i, item, max).0
    case AddItemOp(item) => AddItemSomewhere(s, item, max).0
    case RemoveItemOp(item) => RemoveItem(s, item, max).0
    case TakeItemOp(i, n) => TakeItemAt(s, i, n).0
  }

  /** A list that is clean afterwards is the list it was. */
  predicate IsHonest(before: ListState, after: ListState) {
    !after.dirty ==> after == before
  }

  /** Every operation that changes a list's content sets its flag, and none clears it. */
  lemma OpIsHonest(s: ListState, op: ListOp, max: StackMax)
    ensures IsHonest(s, ApplyOp(s, op, max))
  {
    match op {
      case AddItemAtOp(i, item) =>
        if i < |s.items| { AddAtHonest(s, i, item, max); }
      case AddItemOp(item) => AddChanges(s.items, item, max);
      case RemoveItemOp(item) => RemoveChanges(s.items, |s.items|, item, EMPTY, max);
      case TakeItemOp(i, n) =>
        if i < |s.items| { TakeHonest(s, i, n); }
      case _ =>
    }
  }

  lemma AddAtHonest(s: ListState, i: nat, item: ItemStack, max: StackMax)
    requires i < |s.items|
    ensures IsHonest(s, AddItemAt(s, i, item, max).0)
  {
    if !IsEmpty(item) { AddLeftover(s.items[i], item, max); }
    assert s.items[i := s.items[i]] == s.items;
  }

  lemma TakeHonest(s: ListState, i: nat, n: nat)
    requires i < |s.items|
    ensures IsHonest(s, TakeItemAt(s, i, n).0)
  {
    TakeConserves(s.items[i], n, KindOf(EMPTY));
    assert s.items[i := s.items[i]] == s.items;
  }

  // ----- the sender's inventory -----

  /** A list's state after a move: flagged if its slots changed, and perhaps otherwise. */
  function AfterMove(s: ListState, items: seq<ItemStack>, extra: bool): ListState {
    ListState(items, s.width, s.dirty || items != s.items || extra)
  }

  datatype Op =
    | Mutate(list: string, op: ListOp)
    | Move(from: string, i: nat, to: string, j: nat, count: nat, swap: bool, extraFrom: bool, extraTo: bool)
    | MoveSomewhere(from: string, i: nat, to: string, count: nat, extraFrom: bool, extraTo: bool)
    | AddList(list: string, size: nat)
    | DeleteList(list: string)
    | Sync(incremental: bool)

  function Place(lists: seq<Held>, name: string): nat {
    IndexOf(HeldNames(lists), name)
  }

  function SetState(lists: seq<Held>, i: nat, s: ListState): seq<Held>
    requires i < |lists|
  {
    lists[i := lists[i].(state := s)]
  }

  function WorldOf(lists: seq<Held>, a: nat, b: nat): World
    requires a < |lists| && b < |lists|
  {
    if a == b then [lists[a].state.items] else [lists[a].state.items, lists[b].state.items]
  }

  /** Puts the slots after a move back into the lists. */
  function StoreWorld(lists: seq<Held>, a: nat, b: nat, w: World, extraA: bool, extraB: bool): seq<Held>
    requires a < |lists| && b < |lists| && |w| == |WorldOf(lists, a, b)|
  {
    var moved := SetState(lists, a, AfterMove(lists[a].state, w[0], extraA));
    if a == b then moved else SetState(moved, b, AfterMove(lists[b].state, w[1], extraB))
  }

  /** `addList`: replaces a list of another size; refuses a new name with a space. */
  function WithList(lists: seq<Held>, name: string, size: nat): seq<Held> {
    var i := Place(lists, name);
    if i < |lists| then
      if |lists[i].state.items| == size then lists else SetState(lists, i, ListState(Blank(size), 0, true))
    else if ' ' in name then lists
    else lists + [Held(name, ListState(Blank(size), 0, true))]
  }

  function WithoutList(lists: seq<Held>, name: string): seq<Held> {
    var i := Place(lists, name);
    if i < |lists| then lists[..i] + lists[i + 1..] else lists
  }

  function AllClean(lists: seq<Held>): (r: seq<Held>)
    ensures |r| == |lists| && forall i :: 0 <= i < |r| ==> r[i] == lists[i].(state := lists[i].state.(dirty := false))
  {
    seq(|lists|, i requires 0 <= i < |lists| => lists[i].(state := lists[i].state.(dirty := false)))
  }

  datatype State = State(held: seq<Held>, copies: seq<Named>)

  /**
   * Changes touch the sender only; a round reads what the sender writes and clears the flags. A stack in a format of
   * old versions that the reader rejects ends the connection instead.
   */
  function Step(s: State, op: Op, max: StackMax, reader: Reader): State {
    match op
    case Mutate(n, o) =>
      var i := Place(s.held, n);
      if i < |s.held| then s.(held := SetState(s.held, i, ApplyOp(s.held[i].state, o, max))) else s
    case Move(from, i, to, j, count, swap, ea, eb) =>
      var a, b := Place(s.held, from), Place(s.held, to);
      if a < |s.held| && b < |s.held| then
        MoveShape(WorldOf(s.held, a, b), 0, i, if a == b then 0 else 1, j, count, swap, max);
        s.(held := StoreWorld(s.held, a, b,
            MoveItem(WorldOf(s.held, a, b), 0, i, if a == b then 0 else 1, j, count, swap, max).world, ea, eb))
      else s
    case MoveSomewhere(from, i, to, count, ea, eb) =>
      var a, b := Place(s.held, from), Place(s.held, to);
      if a < |s.held| && b < |s.held| then
        SomewhereShape(WorldOf(s.held, a, b), 0, i, if a == b then 0 else 1, count, max);
        s.(held := StoreWorld(s.held, a, b,
            MoveItemSomewhere(WorldOf(s.held, a, b), 0, i, if a == b then 0 else 1, count, max), ea, eb))
      else s
    case AddList(n, size) => s.(held := WithList(s.held, n, size))
    case DeleteList(n) => s.(held := WithoutList(s.held, n))
    case Sync(incremental) =>
      var got := ReadInventory(s.copies, [], WriteInventory(s.held, incremental), reader);
      if AllReadable(s.held, reader) && got.Some? then State(AllClean(s.held), got.value) else s
  }

  lemma MoveShape(w: World, a: nat, i: nat, b: nat, j: nat, count: nat, swap: bool, max: StackMax)
    requires a < |w| && b < |w|
    ensures |MoveItem(w, a, i, b, j, count, swap, max).world| == |w|
  {}

  lemma SomewhereShape(w: World, a: nat, i: nat, b: nat, count: nat, max: StackMax)
    requires a < |w| && b < |w|
    ensures |MoveItemSomewhere(w, a, i, b, count, max)| == |w|
  {}

  // ----- what every step keeps -----

  /** Names are unique on both sides, and every clean list is what the receiver should have. */
  ghost predicate InSync(s: State, reader: Reader) {
    && AllDifferent(HeldNames(s.held)) && AllDifferent(Names(s.copies))
    && CleanAreThere(s.held, true, View(s.copies), reader)
  }

  lemma SetStateKeeps(lists: seq<Held>, i: nat, after: ListState, view: map<string, Copy>, reader: Reader)
    requires i < |lists| && AllDifferent(HeldNames(lists)) && CleanAreThere(lists, true, view, reader)
    requires IsHonest(lists[i].state, after)
    ensures HeldNames(SetState(lists, i, after)) == HeldNames(lists)
    ensures CleanAreThere(SetState(lists, i, after), true, view, reader)
  {
    hide IsReadable, Image;
    assert HeldNames(SetState(lists, i, after)) == HeldNames(lists);
  }

  lemma AfterMoveHonest(s: ListState, items: seq<ItemStack>, extra: bool)
    ensures IsHonest(s, AfterMove(s, items, extra))
  {}

  lemma StoreWorldKeeps(lists: seq<Held>, a: nat, b: nat, w: World, ea: bool, eb: bool, view: map<string, Copy>,
                        reader: Reader)
    requires a < |lists| && b < |lists| && |w| == |WorldOf(lists, a, b)|
    requires AllDifferent(HeldNames(lists)) && CleanAreThere(lists, true, view, reader)
    ensures var after := StoreWorld(lists, a, b, w, ea, eb);
            HeldNames(after) == HeldNames(lists) && CleanAreThere(after, true, view, reader)
  {
    hide CleanAreThere, AllDifferent;
    AfterMoveHonest(lists[a].state, w[0], ea);
    SetStateKeeps(lists, a, AfterMove(lists[a].state, w[0], ea), view, reader);
    if a != b {
      AfterMoveHonest(lists[b].state, w[1], eb);
      SetStateKeeps(SetState(lists, a, AfterMove(lists[a].state, w[0], ea)), b, AfterMove(lists[b].state, w[1], eb),
          view, reader);
    }
  }

  lemma WithListKeeps(lists: seq<Held>, name: string, size: nat, view: map<string, Copy>, reader: Reader)
    requires AllDifferent(HeldNames(lists)) && CleanAreThere(lists, true, view, reader)
    ensures var after := WithList(lists, name, size);
        AllDifferent(HeldNames(after)) && CleanAreThere(after, true, view, reader)
  {
    hide IsReadable, Image;
    var i := Place(lists, name);
    if i < |lists| {
      if |lists[i].state.items| != size { SetStateKeeps(lists, i, ListState(Blank(size), 0, true), view, reader); }
    } else if ' ' !in name {
      assert HeldNames(WithList(lists, name, size)) == HeldNames(lists) + [name];
    }
  }

  /**
   * Adding a list: one of that name and size stays as it is, one of another size is replaced by a blank one, and a new
   * name gets a blank one, if it holds no space. No other list changes.
   */
  lemma AddListMeaning(lists: seq<Held>, name: string, size: nat, i: nat)
    requires AllDifferent(HeldNames(lists))
    ensures var after, known := WithList(lists, name, size), name in HeldNames(lists);
            && |after| == (if known || ' ' in name then |lists| else |lists| + 1)
            && (!known && ' ' !in name ==> after[|lists|] == Held(name, ListState(Blank(size), 0, true)))
            && (i < |lists| ==>
                  after[i] == if lists[i].name == name && |lists[i].state.items| != size
                              then Held(name, ListState(Blank(size), 0, true)) else lists[i])
  {
    if i < |lists| { assert HeldNames(lists)[i] == lists[i].name; }
  }

  /** Deleting a list: the lists of other names stay, in their order. */
  lemma DeleteListMeaning(lists: seq<Held>, name: string)
    requires AllDifferent(HeldNames(lists))
    ensures var after := WithoutList(lists, name);
            && name !in HeldNames(after)
            && (name !in HeldNames(lists) ==> after == lists)
            && (name in HeldNames(lists) ==>
                  exists i: nat :: i < |lists| && lists[i].name == name && after == lists[..i] + lists[i + 1..])
  {
    var i := Place(lists, name);
    if i < |lists| {
      var after := lists[..i] + lists[i + 1..];
      forall k | 0 <= k < |after| ensures HeldNames(after)[k] != name {
        assert after[k] == lists[if k < i then k else k + 1];
        assert HeldNames(lists)[if k < i then k else k + 1] != HeldNames(lists)[i];
      }
    }
  }

  lemma WithoutListKeeps(lists: seq<Held>, name: string, view: map<string, Copy>, reader: Reader)
    requires AllDifferent(HeldNames(lists)) && CleanAreThere(lists, true, view, reader)
    ensures var after := WithoutList(lists, name);
        AllDifferent(HeldNames(after)) && CleanAreThere(after, true, view, reader)
  {
    hide IsReadable, Image;
    var i := Place(lists, name);
    if i < |lists| {
      var after := WithoutList(lists, name);
      forall k | 0 <= k < |after| ensures after[k] == lists[if k < i then k else k + 1] {}
      assert forall k :: 0 <= k < |after| ==> HeldNames(after)[k] == HeldNames(lists)[if k < i then k else k + 1];
    }
  }

  /** A round reads without error, and leaves every list clean and its image, by name, at the receiver. */
  lemma SyncKeeps(s: State, incremental: bool, reader: Reader)
    requires InSync(s, reader) && AllReadable(s.held, reader)
    ensures var got := ReadInventory(s.copies, [], WriteInventory(s.held, incremental), reader);
            && got.Some? && View(got.value) == ImageView(s.held, reader)
            && InSync(State(AllClean(s.held), got.value), reader)
  {
    hide ReadInventory, WriteInventory, View, IsReadable;
    SomeClean(s.held, incremental, View(s.copies), reader);
    RoundMakesEqual(s.copies, s.held, incremental, reader);
    var got := ReadInventory(s.copies, [], WriteInventory(s.held, incremental), reader).value;
    var clean := AllClean(s.held);
    assert HeldNames(clean) == HeldNames(s.held);
    forall i | 0 <= i < |clean|
        ensures IsReadable(clean[i].state.items, reader) && clean[i].name in View(got)
            && View(got)[clean[i].name] == Image(clean[i], reader) {
      ImageViewAt(s.held, s.held[i].name, i, reader);
    }
  }

  lemma SomeClean(lists: seq<Held>, incremental: bool, view: map<string, Copy>, reader: Reader)
    requires CleanAreThere(lists, true, view, reader)
    ensures CleanAreThere(lists, incremental, view, reader)
  {}

  lemma StepKeeps(s: State, op: Op, max: StackMax, reader: Reader)
    requires InSync(s, reader)
    ensures InSync(Step(s, op, max, reader), reader)
  {
    hide CleanAreThere, AllDifferent, ReadInventory, WriteInventory, AllReadable, View, ApplyOp, MoveItem,
        MoveItemSomewhere, StoreWorld;
    match op {
      case Mutate(n, o) =>
        var i := Place(s.held, n);
        if i < |s.held| {
          OpIsHonest(s.held[i].state, o, max);
          SetStateKeeps(s.held, i, ApplyOp(s.held[i].state, o, max), View(s.copies), reader);
        }
      case Move(from, i, to, j, count, swap, ea, eb) =>
        var a, b := Place(s.held, from), Place(s.held, to);
        if a < |s.held| && b < |s.held| {
          var w := WorldOf(s.held, a, b);
          MoveShape(w, 0, i, if a == b then 0 else 1, j, count, swap, max);
          StoreWorldKeeps(s.held, a, b, MoveItem(w, 0, i, if a == b then 0 else 1, j, count, swap, max).world, ea, eb,
              View(s.copies), reader);
        }
      case MoveSomewhere(from, i, to, count, ea, eb) =>
        var a, b := Place(s.held, from), Place(s.held, to);
        if a < |s.held| && b < |s.held| {
          var w := WorldOf(s.held, a, b);
          SomewhereShape(w, 0, i, if a == b then 0 else 1, count, max);
          StoreWorldKeeps(s.held, a, b, MoveItemSomewhere(w, 0, i, if a == b then 0 else 1, count, max), ea, eb,
              View(s.copies), reader);
        }
      case AddList(n, size) => WithListKeeps(s.held, n, size, View(s.copies), reader);
      case DeleteList(n) => WithoutListKeeps(s.held, n, View(s.copies), reader);
      case Sync(incremental) =>
        if AllReadable(s.held, reader) { SyncKeeps(s, incremental, reader); }
    }
  }

  /** The state after a run that starts with nothing on either side. */
  function Run(ops: seq<Op>, max: StackMax, reader: Reader): State {
    if ops == [] then State([], []) else Step(Run(ops[..|ops| - 1], max, reader), ops[|ops| - 1], max, reader)
  }

  lemma {:induction false} RunInSync(ops: seq<Op>, max: StackMax, reader: Reader)
    ensures InSync(Run(ops, max, reader), reader)
  {
    if ops != [] {
      RunInSync(ops[..|ops| - 1], max, reader);
      StepKeeps(Run(ops[..|ops| - 1], max, reader), ops[|ops| - 1], max, reader);
    }
  }

  /** After any run, every list whose flag is clear equals the receiver's copy. */
  lemma CleanEqualsCopy(ops: seq<Op>, max: StackMax, reader: Reader, i: nat)
    requires i < |Run(ops, max, reader).held| && !Run(ops, max, reader).held[i].state.dirty
    ensures var s := Run(ops, max, reader);
            && IsReadable(s.held[i].state.items, reader)
            && s.held[i].name in View(s.copies) && View(s.copies)[s.held[i].name] == Image(s.held[i], reader)
  {
    RunInSync(ops, max, reader);
  }

  /** After any run, a round of either kind, if every stack can be read, makes the two name-to-list maps equal. */
  lemma SyncMakesEqual(ops: seq<Op>, incremental: bool, max: StackMax, reader: Reader)
    requires AllReadable(Run(ops, max, reader).held, reader)
    ensures var before := Run(ops, max, reader);
            var after := Step(before, Sync(incremental), max, reader);
            && after.held == AllClean(before.held)
            && View(after.copies) == ImageView(before.held, reader)
  {
    hide ReadInventory, WriteInventory, View, AllReadable, InSync, Run;
    RunInSync(ops, max, reader);
    SyncKeeps(Run(ops, max, reader), incremental, reader);
  }

  /** Every slot is blank, or its name is resolved and not a keyword, and tidying leaves it alone. */
  predicate IsTidy(l: Held, reader: Reader) {
    forall i :: 0 <= i < |l.state.items| ==>
      var s := l.state.items[i];
      s == EMPTY
      || (&& !IsEmpty(s) && s.name != "" && s.name !in LEGACY_KEYWORDS && reader.alias(s.name) == s.name
          && (reader.tool(s.name) ==> s.count == 1))
  }

  /** A list of such stacks arrives as it is. */
  lemma ImageIsExact(l: Held, reader: Reader)
    requires IsTidy(l, reader)
    ensures IsReadable(l.state.items, reader) && Image(l, reader) == Copy(l.state.items, l.state.width)
  {
    forall i | 0 <= i < |l.state.items| ensures Received(l.state.items[i], reader) == Some(l.state.items[i]) {
      if !IsEmpty(l.state.items[i]) { ItemUnchanged(l.state.items[i], reader); }
    }
    assert ReceivedList(l.state.items, reader) == l.state.items;
  }

  /** The sender's lists without their flags. */
  function Copies(held: seq<Held>): (r: seq<Named>)
    ensures |r| == |held|
    ensures forall i :: 0 <= i < |r| ==> r[i] == Named(held[i].name, Copy(held[i].state.items, held[i].state.width))
  {
    seq(|held|, i requires 0 <= i < |held| => Named(held[i].name, Copy(held[i].state.items, held[i].state.width)))
  }

  /** What the sender's lists hold, by name. */
  function HeldView(held: seq<Held>): map<string, Copy> {
    View(Copies(held))
  }

  lemma HeldViewAt(held: seq<Held>, i: nat)
    requires AllDifferent(HeldNames(held)) && i < |held|
    ensures held[i].name in HeldView(held) && HeldView(held)[held[i].name] == Copies(held)[i].copy
  {
    assert Names(Copies(held)) == HeldNames(held);
    ViewAt(Copies(held), i);
  }

  /** After any run and one more round, the receiver's lists are the sender's, name by name and slot by slot. */
  lemma SyncMakesSame(ops: seq<Op>, incremental: bool, max: StackMax, reader: Reader)
    requires forall i :: 0 <= i < |Run(ops, max, reader).held| ==> IsTidy(Run(ops, max, reader).held[i], reader)
    ensures var after := Step(Run(ops, max, reader), Sync(incremental), max, reader);
            View(after.copies) == HeldView(after.held) == HeldView(Run(ops, max, reader).held)
  {
    hide IsTidy, Run, Step, View, InSync;
    var held := Run(ops, max, reader).held;
    forall i | 0 <= i < |held| ensures IsReadable(held[i].state.items, reader) { ImageIsExact(held[i], reader); }
    SyncMakesEqual(ops, incremental, max, reader);
    RunDiffers(ops, max, reader);
    SameImages(held, reader);
    CleanHeldView(held);
  }

  lemma RunDiffers(ops: seq<Op>, max: StackMax, reader: Reader)
    ensures AllDifferent(HeldNames(Run(ops, max, reader).held))
  {
    RunInSync(ops, max, reader);
  }

  lemma SameImages(held: seq<Held>, reader: Reader)
    requires AllDifferent(HeldNames(held)) && forall i :: 0 <= i < |held| ==> IsTidy(held[i], reader)
    requires AllReadable(held, reader)
    ensures ImageView(held, reader) == HeldView(held)
  {
    hide IsTidy, ImageView, HeldView;
    forall n ensures n in ImageView(held, reader) <==> n in HeldView(held) {
      ImageViewAt(held, n, 0, reader);
      HeldViewNames(held, n);
    }
    forall n | n in ImageView(held, reader)
        ensures n in HeldView(held) && ImageView(held, reader)[n] == HeldView(held)[n] {
      ImageViewAt(held, n, 0, reader);
      var i :| 0 <= i < |held| && HeldNames(held)[i] == n;
      ImageViewAt(held, n, i, reader);
      ImageIsExact(held[i], reader);
      HeldViewAt(held, i);
    }
  }

  lemma HeldViewNames(held: seq<Held>, n: string)
    ensures n in HeldView(held) <==> n in HeldNames(held)
  {
    assert Names(Copies(held)) == HeldNames(held);
  }

  /** Clearing the flags changes no content. */
  lemma CleanHeldView(held: seq<Held>)
    ensures HeldView(AllClean(held)) == HeldView(held)
  {
    assert Copies(AllClean(held)) == Copies(held);
  }
}
