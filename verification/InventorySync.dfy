/**
 * Keeping a copy of an inventory in step. The sender writes only the lists whose flag is set, the receiver merges them
 * into its copy, and the sender clears the flags.
 */
module InventorySync {
  import opened InventoryLists
  import opened ItemStacks
  import opened ItemWire
  import opened Options

  /** A sender's list, and a receiver's. */
  datatype Held = Held(name: string, state: ListState)
  datatype Copy = Copy(items: seq<ItemStack>, width: nat)
  datatype Named = Named(name: string, copy: Copy)

  // ----- looking up lists by name -----

  /** The first list of the name, or the number of lists. */
  function IndexOf(names: seq<string>, name: string): (i: nat)
    ensures i <= |names| && (i < |names| ==> names[i] == name) && (i == |names| <==> name !in names)
  {
    if names == [] then 0 else if names[0] == name then 0 else 1 + IndexOf(names[1..], name)
  }

  ghost predicate AllDifferent(names: seq<string>) {
    forall i, j :: 0 <= i < j < |names| ==> names[i] != names[j]
  }

  function Names(lists: seq<Named>): (r: seq<string>)
    ensures |r| == |lists| && forall i :: 0 <= i < |r| ==> r[i] == lists[i].name
  {
    seq(|lists|, i requires 0 <= i < |lists| => lists[i].name)
  }

  function HeldNames(lists: seq<Held>): (r: seq<string>)
    ensures |r| == |lists| && forall i :: 0 <= i < |r| ==> r[i] == lists[i].name
  {
    seq(|lists|, i requires 0 <= i < |lists| => lists[i].name)
  }

  /** The receiver's lists by name. */
  function View(lists: seq<Named>): map<string, Copy> {
    map n | n in Names(lists) :: lists[IndexOf(Names(lists), n)].copy
  }

  lemma ViewAt(lists: seq<Named>, i: nat)
    requires AllDifferent(Names(lists)) && i < |lists|
    ensures lists[i].name in View(lists) && View(lists)[lists[i].name] == lists[i].copy
  {
    assert Names(lists)[i] == lists[i].name;
  }

  /** Replaces the list of that name, or appends it. */
  function SetCopy(lists: seq<Named>, name: string, copy: Copy): seq<Named> {
    var i := IndexOf(Names(lists), name);
    if i < |lists| then lists[i := Named(name, copy)] else lists + [Named(name, copy)]
  }

  lemma SetCopyView(lists: seq<Named>, name: string, copy: Copy)
    requires AllDifferent(Names(lists))
    ensures var after := SetCopy(lists, name, copy);
            AllDifferent(Names(after)) && View(after) == View(lists)[name := copy]
  {
    var after := SetCopy(lists, name, copy);
    var i := IndexOf(Names(lists), name);
    if i < |lists| {
      assert Names(after) == Names(lists);
    } else {
      assert Names(after) == Names(lists) + [name];
    }
    forall n ensures (n in View(after) <==> n in View(lists)[name := copy])
        && (n in View(after) ==> View(after)[n] == View(lists)[name := copy][n]) {
      if n in Names(after) {
        var k := IndexOf(Names(after), n);
        ViewAt(after, k);
        if n != name {
          assert after[k] == lists[k];
          ViewAt(lists, k);
        }
      }
    }
  }

  function Keep(lists: seq<Named>, kept: seq<string>): seq<Named> {
    if lists == [] then []
    else Keep(lists[..|lists| - 1], kept) + if lists[|lists| - 1].name in kept then [lists[|lists| - 1]] else []
  }

  function Restrict(view: map<string, Copy>, kept: seq<string>): map<string, Copy> {
    map n | n in view && n in kept :: view[n]
  }

  lemma AppendView(front: seq<Named>, last: Named)
    requires AllDifferent(Names(front)) && last.name !in View(front)
    ensures AllDifferent(Names(front + [last])) && View(front + [last]) == View(front)[last.name := last.copy]
  {
    hide View;
    NotInNames(front, last.name);
    SetCopyView(front, last.name, last.copy);
    assert SetCopy(front, last.name, last.copy) == front + [last];
  }

  lemma NotInNames(lists: seq<Named>, name: string)
    ensures name in View(lists) <==> name in Names(lists)
  {}

  lemma FrontDiffers(lists: seq<Named>)
    requires lists != [] && AllDifferent(Names(lists))
    ensures var front, last := lists[..|lists| - 1], lists[|lists| - 1];
            lists == front + [last] && AllDifferent(Names(front)) && last.name !in View(front)
  {
    var front, last := lists[..|lists| - 1], lists[|lists| - 1];
    assert Names(lists) == Names(front) + [last.name];
    assert AllDifferent(Names(front)) by {
      forall i, j | 0 <= i < j < |front| ensures Names(front)[i] != Names(front)[j] {
        assert Names(lists)[i] != Names(lists)[j];
      }
    }
    forall i | 0 <= i < |front| ensures Names(front)[i] != last.name {
      assert Names(lists)[i] != Names(lists)[|lists| - 1];
    }
  }

  lemma RestrictUpdate(view: map<string, Copy>, kept: seq<string>, n: string, c: Copy)
    requires n !in view
    ensures Restrict(view[n := c], kept) == if n in kept then Restrict(view, kept)[n := c] else Restrict(view, kept)
  {}

  lemma {:induction false} KeepView(lists: seq<Named>, kept: seq<string>)
    requires AllDifferent(Names(lists))
    ensures AllDifferent(Names(Keep(lists, kept))) && View(Keep(lists, kept)) == Restrict(View(lists), kept)
  {
    hide View, Names, AllDifferent;
    if lists == [] {
      NothingInView();
    } else {
      var front, last := lists[..|lists| - 1], lists[|lists| - 1];
      FrontDiffers(lists);
      KeepView(front, kept);
      AppendView(front, last);
      RestrictUpdate(View(front), kept, last.name, last.copy);
      if last.name in kept { AppendView(Keep(front, kept), last); } else {
        assert Keep(front, kept) + [] == Keep(front, kept);
      }
    }
  }

  lemma NothingInView()
    ensures View([]) == map[] && AllDifferent(Names([]))
  {}

  // ----- writing and reading an inventory -----

  function WriteOne(l: Held, incremental: bool): seq<Line> {
    if !incremental || l.state.dirty then [ListLine(l.name, |l.state.items|)] + WriteList(l.state.items, l.state.width)
    else [KeepListLine(l.name)]
  }

  function WriteLists(lists: seq<Held>, incremental: bool): seq<Line> {
    if lists == [] then [] else WriteOne(lists[0], incremental) + WriteLists(lists[1..], incremental)
  }

  function WriteInventory(lists: seq<Held>, incremental: bool): seq<Line> {
    WriteLists(lists, incremental) + [EndInventory]
  }

  /** Each list's lines stand at its place; incrementally, a list whose flag is clear is only named. */
  lemma WrittenAt(before: seq<Held>, l: Held, after: seq<Held>, incremental: bool)
    ensures var own := if incremental && !l.state.dirty then [KeepListLine(l.name)]
                       else [ListLine(l.name, |l.state.items|)] + WriteList(l.state.items, l.state.width);
            WriteLists(before + ([l] + after), incremental) ==
            WriteLists(before, incremental) + (own + WriteLists(after, incremental))
  {
    hide WriteList;
    WriteListsAppend(before, [l] + after, incremental);
    assert ([l] + after)[1..] == after;
  }

  lemma {:induction false} WriteListsAppend(a: seq<Held>, b: seq<Held>, incremental: bool)
    ensures WriteLists(a + b, incremental) == WriteLists(a, incremental) + WriteLists(b, incremental)
    decreases |a|
  {
    hide WriteOne;
    if a == [] {
      assert a + b == b;
    } else {
      assert (a + b)[0] == a[0] && (a + b)[1..] == a[1..] + b;
      WriteListsAppend(a[1..], b, incremental);
    }
  }

  /** The slots a list is read into: those the receiver has, in the new number, or blank ones. */
  function Base(lists: seq<Named>, name: string, size: nat): (r: seq<ItemStack>)
    ensures |r| == size
  {
    var i := IndexOf(Names(lists), name);
    if i < |lists| then Resize(lists[i].copy.items, size) else Blank(size)
  }

  /** Merges the lines into the receiver's lists; lists that were not sent go. Fails where the program throws. */
  function ReadInventory(lists: seq<Named>, kept: seq<string>, lines: seq<Line>, reader: Reader): Option<seq<Named>>
    decreases |lines|
  {
    if lines == [] then None
    else
      match lines[0]
      case EndInventory => Some(Keep(lists, kept))
      case ListLine(name, size) =>
        var got := ReadList(Base(lists, name, size), 0, 0, lines[1..], reader);
        if got.None? then None
        else ReadInventory(SetCopy(lists, name, Copy(got.value.items, got.value.width)), kept + [name], got.value.rest,
            reader)
      case KeepListLine(name) =>
        ReadInventory(lists, if name in Names(lists) then kept + [name] else kept, lines[1..], reader)
      case _ => ReadInventory(lists, kept, lines[1..], reader)
  }

  predicate AllReadable(lists: seq<Held>, reader: Reader) {
    forall i :: 0 <= i < |lists| ==> IsReadable(lists[i].state.items, reader)
  }

  /** What a receiver should have for a list. */
  function Image(l: Held, reader: Reader): Copy
    requires IsReadable(l.state.items, reader)
  {
    Copy(ReceivedList(l.state.items, reader), l.state.width)
  }

  /** What a receiver should have for a whole inventory. */
  function ImageView(lists: seq<Held>, reader: Reader): map<string, Copy>
    requires AllReadable(lists, reader)
  {
    if lists == [] then map[]
    else
      RestReadable(lists, reader);
      ImageView(lists[1..], reader)[lists[0].name := Image(lists[0], reader)]
  }

  lemma RestReadable(lists: seq<Held>, reader: Reader)
    requires lists != [] && AllReadable(lists, reader)
    ensures IsReadable(lists[0].state.items, reader) && AllReadable(lists[1..], reader)
  {
    hide IsReadable;
    assert forall i :: 0 <= i < |lists[1..]| ==> lists[1..][i] == lists[i + 1];
  }

  /** By name: the images of the lists, and nothing else. */
  lemma {:induction false} ImageViewAt(lists: seq<Held>, n: string, i: nat, reader: Reader)
    requires AllReadable(lists, reader) && AllDifferent(HeldNames(lists))
    ensures n in ImageView(lists, reader) <==> n in HeldNames(lists)
    ensures i < |lists| ==> IsReadable(lists[i].state.items, reader)
    ensures i < |lists| && lists[i].name == n ==>
        n in ImageView(lists, reader) && ImageView(lists, reader)[n] == Image(lists[i], reader)
  {
    hide IsReadable, Image;
    if lists != [] {
      RestReadable(lists, reader);
      RestDiffers(lists);
      ImageViewAt(lists[1..], n, if i == 0 then 0 else i - 1, reader);
      if 0 < i < |lists| { assert HeldNames(lists[1..])[i - 1] == lists[i].name; }
    }
  }

  /** A list that will not be written is already there, and right. */
  ghost predicate CleanAreThere(lists: seq<Held>, incremental: bool, view: map<string, Copy>, reader: Reader) {
    forall i :: 0 <= i < |lists| && incremental && !lists[i].state.dirty ==>
      && IsReadable(lists[i].state.items, reader)
      && lists[i].name in view && view[lists[i].name] == Image(lists[i], reader)
  }

  /** Reading the lines of one list makes the receiver's copy right, and marks the list as sent. */
  lemma ReadOne(lists: seq<Named>, kept: seq<string>, l: Held, incremental: bool, more: seq<Line>, reader: Reader)
    requires AllDifferent(Names(lists)) && IsReadable(l.state.items, reader)
    requires CleanAreThere([l], incremental, View(lists), reader)
    ensures var after := SetCopy(lists, l.name, Image(l, reader));
            && ReadInventory(lists, kept, WriteOne(l, incremental) + more, reader) ==
                  ReadInventory(after, kept + [l.name], more, reader)
            && AllDifferent(Names(after)) && View(after) == View(lists)[l.name := Image(l, reader)]
  {
    SetCopyView(lists, l.name, Image(l, reader));
    hide View;
    if !incremental || l.state.dirty {
      ReadSent(lists, kept, l, incremental, more, reader);
    } else {
      assert [l][0] == l;
      AlreadyThere(lists, l.name, Image(l, reader));
      ReadKept(lists, kept, l, incremental, more, reader);
    }
  }

  lemma ReadSent(lists: seq<Named>, kept: seq<string>, l: Held, incremental: bool, more: seq<Line>, reader: Reader)
    requires IsReadable(l.state.items, reader) && (!incremental || l.state.dirty)
    ensures ReadInventory(lists, kept, WriteOne(l, incremental) + more, reader)
         == ReadInventory(SetCopy(lists, l.name, Image(l, reader)), kept + [l.name], more, reader)
  {
    hide ReadList, IsReadable, Received, WriteList, SetCopy;
    var lines := WriteOne(l, incremental) + more;
    var written := WriteList(l.state.items, l.state.width);
    assert lines[0] == ListLine(l.name, |l.state.items|) && lines[1..] == written + more;
    ListRoundTrip(Base(lists, l.name, |l.state.items|), l.state.items, l.state.width, more, reader);
  }

  lemma ReadKept(lists: seq<Named>, kept: seq<string>, l: Held, incremental: bool, more: seq<Line>, reader: Reader)
    requires l.name in Names(lists) && incremental && !l.state.dirty
    ensures ReadInventory(lists, kept, WriteOne(l, incremental) + more, reader) ==
        ReadInventory(lists, kept + [l.name], more, reader)
  {
    hide ReadList;
    var lines := WriteOne(l, incremental) + more;
    assert lines[0] == KeepListLine(l.name) && lines[1..] == more;
  }

  lemma AlreadyThere(lists: seq<Named>, name: string, copy: Copy)
    requires AllDifferent(Names(lists)) && name in View(lists) && View(lists)[name] == copy
    ensures SetCopy(lists, name, copy) == lists && name in Names(lists)
  {
    var i := IndexOf(Names(lists), name);
    ViewAt(lists, i);
    assert lists[i := Named(name, copy)] == lists;
  }

  lemma RestDiffers(lists: seq<Held>)
    requires lists != [] && AllDifferent(HeldNames(lists))
    ensures HeldNames(lists) == [lists[0].name] + HeldNames(lists[1..])
    ensures AllDifferent(HeldNames(lists[1..])) && lists[0].name !in HeldNames(lists[1..])
  {
    assert HeldNames(lists) == [lists[0].name] + HeldNames(lists[1..]);
    forall i | 0 <= i < |lists[1..]| ensures HeldNames(lists[1..])[i] == HeldNames(lists)[i + 1] {}
  }

  lemma RestrictMore(view: map<string, Copy>, kept: seq<string>, n: string, c: Copy, others: map<string, Copy>)
    requires n !in others
    ensures Restrict(view[n := c], kept + [n]) + others == Restrict(view, kept) + others[n := c]
  {}

  lemma StillThere(lists: seq<Held>, incremental: bool, view: map<string, Copy>, n: string, c: Copy, reader: Reader)
    requires CleanAreThere(lists, incremental, view, reader) && n !in HeldNames(lists)
    ensures CleanAreThere(lists, incremental, view[n := c], reader)
  {
    hide IsReadable, Image;
    forall i | 0 <= i < |lists| ensures lists[i].name != n {
      assert HeldNames(lists)[i] == lists[i].name;
    }
  }

  lemma CleanSplit(lists: seq<Held>, incremental: bool, view: map<string, Copy>, reader: Reader)
    requires lists != [] && CleanAreThere(lists, incremental, view, reader) && AllReadable(lists, reader)
    ensures CleanAreThere([lists[0]], incremental, view, reader) && CleanAreThere(lists[1..], incremental, view, reader)
    ensures IsReadable(lists[0].state.items, reader)
  {
    hide IsReadable, Image;
    assert forall i :: 0 <= i < |lists[1..]| ==> lists[1..][i] == lists[i + 1];
  }

  /** Reading what was written for some lists gives the kept lists and the images of those written, and no others. */
  lemma {:induction false} ReadAll(lists: seq<Named>, kept: seq<string>, held: seq<Held>, incremental: bool,
                                   tail: seq<Line>, reader: Reader)
    requires AllDifferent(Names(lists)) && AllDifferent(HeldNames(held))
    requires AllReadable(held, reader) && CleanAreThere(held, incremental, View(lists), reader)
    ensures var r := ReadInventory(lists, kept, WriteLists(held, incremental) + ([EndInventory] + tail), reader);
            && r.Some? && AllDifferent(Names(r.value))
            && View(r.value) == Restrict(View(lists), kept) + ImageView(held, reader)
    decreases |held|
  {
    hide View, Restrict, CleanAreThere, ReadInventory, WriteOne, IsReadable, Image, AllReadable, AllDifferent, SetCopy;
    if held == [] {
      ReadEndOfInventory(lists, kept, tail, reader);
      NoImages(held, Restrict(View(lists), kept), reader);
    } else {
      var l, more := held[0], WriteLists(held[1..], incremental) + ([EndInventory] + tail);
      RestDiffers(held);
      CleanSplit(held, incremental, View(lists), reader);
      ReadOne(lists, kept, l, incremental, more, reader);
      var after := SetCopy(lists, l.name, Image(l, reader));
      StillThere(held[1..], incremental, View(lists), l.name, Image(l, reader), reader);
      RestReadable(held, reader);
      ReadAll(after, kept + [l.name], held[1..], incremental, tail, reader);
      NotInImages(held[1..], l.name, reader);
      RestrictMore(View(lists), kept, l.name, Image(l, reader), ImageView(held[1..], reader));
      assert WriteLists(held, incremental) + ([EndInventory] + tail) == WriteOne(l, incremental) + more;
    }
  }

  lemma NotInImages(held: seq<Held>, name: string, reader: Reader)
    requires AllReadable(held, reader) && AllDifferent(HeldNames(held)) && name !in HeldNames(held)
    ensures name !in ImageView(held, reader)
  {
    ImageViewAt(held, name, 0, reader);
  }

  lemma NoImages(held: seq<Held>, view: map<string, Copy>, reader: Reader)
    requires held == []
    ensures AllReadable(held, reader) && view + ImageView(held, reader) == view
  {}

  lemma ReadEndOfInventory(lists: seq<Named>, kept: seq<string>, tail: seq<Line>, reader: Reader)
    requires AllDifferent(Names(lists))
    ensures var r := ReadInventory(lists, kept, [] + ([EndInventory] + tail), reader);
            r.Some? && AllDifferent(Names(r.value)) && View(r.value) == Restrict(View(lists), kept)
  {
    KeepView(lists, kept);
    assert ([] + ([EndInventory] + tail))[0] == EndInventory;
  }

  /** A round makes the receiver's lists, by name, exactly what it should have for the sender's. */
  lemma RoundMakesEqual(lists: seq<Named>, held: seq<Held>, incremental: bool, reader: Reader)
    requires AllDifferent(Names(lists)) && AllDifferent(HeldNames(held))
    requires AllReadable(held, reader) && CleanAreThere(held, incremental, View(lists), reader)
    ensures var r := ReadInventory(lists, [], WriteInventory(held, incremental), reader);
            r.Some? && AllDifferent(Names(r.value)) && View(r.value) == ImageView(held, reader)
  {
    hide View, CleanAreThere, ReadInventory, WriteLists;
    ReadAll(lists, [], held, incremental, [], reader);
    assert [EndInventory] + [] == [EndInventory];
    RestrictNothing(View(lists), ImageView(held, reader));
  }

  lemma RestrictNothing(view: map<string, Copy>, others: map<string, Copy>)
    ensures Restrict(view, []) + others == others
  {}
}
