/**
 * The layout loop of a chat line as a machine that takes one turn at a time, with unsigned 32-bit columns, for every
 * console width. On narrow consoles it may not end.
 */
module ChatLoop {
  import opened ChatFormat
  import opened MachineIntegers

  /** The rows so far, the pending fragments, the text that is not yet cut up, and whether cutting has begun. */
  datatype Loop = Loop(l: Layout, frags: seq<string>, rest: string, processing: bool)

  datatype Console = Console(cols: nat, indent: nat, space: char -> bool)

  predicate IsDone(s: Loop) {
    s.frags == [] && s.rest == ""
  }

  /** The room left in the row; when the row is indented past the console's edge, the difference wraps. */
  function RoomLeft(l: Layout, cols: nat): nat {
    ToU32(cols - l.column)
  }

  /** A fragment is at least one character long, whatever room there is. */
  function CutLength(text: string, room: nat, space: char -> bool): (n: nat)
    requires text != ""
    ensures 1 <= n <= |text|
  {
    var len := if room == 0 then 1 else if |text| < room then |text| else room;
    var k := LastSpace(text, len, space);
    if k != 0 && len < |text| then k + 1 else len
  }

  /** One turn: lay out the next fragment or a part of it, or else cut the next fragment off the text. */
  function Turn(s: Loop, c: Console): Loop {
    if s.frags != [] then
      var frag, room := s.frags[0], RoomLeft(s.l, c.cols);
      if |frag| <= room then
        s.(l := AfterPut(Put(s.l, frag), c, s.processing), frags := s.frags[1..])
      else
        s.(l := AfterPut(Put(s.l, frag[..room]).(column := c.cols), c, s.processing),
            frags := [frag[room..]] + s.frags[1..])
    else if s.rest != "" then
      var n := CutLength(s.rest, RoomLeft(s.l, c.cols), c.space);
      Loop(s.l, [s.rest[..n]], s.rest[n..], true)
    else s
  }

  /** A full row ends, and so does every row while text is cut up. */
  function AfterPut(l: Layout, c: Console, processing: bool): Layout {
    if l.column == c.cols || processing then EndRow(l, if processing then c.indent else 0) else l
  }

  function Turns(s: Loop, c: Console, n: nat): Loop
    decreases n
  {
    if n == 0 then s else Turns(Turn(s, c), c, n - 1)
  }

  /** The loop comes to an end, with layout `l`. */
  ghost predicate EndsWith(s: Loop, c: Console, l: Layout) {
    exists n: nat :: IsDone(Turns(s, c, n)) && Turns(s, c, n).l == l
  }

  ghost predicate Ends(s: Loop, c: Console) {
    exists n: nat :: IsDone(Turns(s, c, n))
  }

  function StartLoop(line: ChatLine): Loop {
    Loop(Start(line), NameFragments(line.name), line.text, false)
  }

  function ConsoleFor(line: ChatLine, cols: nat, space: char -> bool): Console {
    Console(cols, Indent(line.name, cols), space)
  }

  lemma OneTurn(s: Loop, c: Console)
    ensures Ends(s, c) <==> Ends(Turn(s, c), c)
    ensures forall l :: EndsWith(Turn(s, c), c, l) ==> EndsWith(s, c, l)
  {
    if Ends(s, c) {
      var n: nat :| IsDone(Turns(s, c, n));
      assert IsDone(Turns(Turn(s, c), c, if n == 0 then 0 else n - 1));
    }
    if Ends(Turn(s, c), c) {
      var n: nat :| IsDone(Turns(Turn(s, c), c, n));
      assert IsDone(Turns(s, c, n + 1));
    }
    forall l | EndsWith(Turn(s, c), c, l) ensures EndsWith(s, c, l) {
      var n: nat :| IsDone(Turns(Turn(s, c), c, n)) && Turns(Turn(s, c), c, n).l == l;
      assert IsDone(Turns(s, c, n + 1)) && Turns(s, c, n + 1).l == l;
    }
  }

  lemma AlreadyDone(s: Loop, c: Console)
    requires IsDone(s)
    ensures Ends(s, c) && EndsWith(s, c, s.l)
  {
    assert Turns(s, c, 0) == s;
  }

  // ----- wide enough -----

  /** Where rows start inside the console, every turn leaves less to do, and the layout is the one specified. */
  lemma {:induction false} WideEnds(s: Loop, c: Console)
    requires s.l.column < c.cols < 0x1_0000_0000 && c.indent < c.cols
    ensures Ends(s, c) && EndsWith(s, c, Outcome(s.l, s.frags, s.processing, s.rest, c.cols, c.indent, c.space))
    decreases |s.rest|, Sizes(s.frags)
  {
    if IsDone(s) {
      AlreadyDone(s, c);
      NothingLeft(s.l, s.processing, s.rest, c.cols, c.indent, c.space);
    } else {
      OneTurn(s, c);
      if s.frags != [] {
        WideFragment(s, c);
      } else {
        WideCut(s, c);
      }
      WideEnds(Turn(s, c), c);
    }
  }

  lemma WideFragment(s: Loop, c: Console)
    requires s.l.column < c.cols < 0x1_0000_0000 && (s.processing ==> c.indent < c.cols) && s.frags != []
    ensures var t := Turn(s, c);
            && t.l.column < c.cols && t.rest == s.rest && t.processing == s.processing
                  && Sizes(t.frags) < Sizes(s.frags)
            && PlaceAll(t.l, t.frags, c.cols, t.processing, c.indent) ==
                  PlaceAll(s.l, s.frags, c.cols, s.processing, c.indent)
  {
    var t, room := Turn(s, c), c.cols - s.l.column;
    if |s.frags[0]| > room { assert t.frags[1..] == s.frags[1..]; }
  }

  lemma WideCut(s: Loop, c: Console)
    requires s.l.column < c.cols < 0x1_0000_0000 && c.indent < c.cols && s.frags == [] && s.rest != ""
    ensures var t := Turn(s, c);
            && t.l == s.l && |t.rest| < |s.rest|
            && Outcome(t.l, t.frags, t.processing, t.rest, c.cols, c.indent, c.space)
               == Outcome(s.l, s.frags, s.processing, s.rest, c.cols, c.indent, c.space)
  {
    hide PlaceText, PlaceAll, Place, CutLength, FragmentLength;
    CutFits(s.rest, c.cols - s.l.column, c.space);
    PlaceTextOne(s.l, s.rest, c.cols, c.indent, c.space);
    PlaceOne(s.l, s.rest[..CutLength(s.rest, c.cols - s.l.column, c.space)], c.cols, true, c.indent);
    PlaceOne(s.l, "", c.cols, s.processing, c.indent);
  }

  lemma CutFits(text: string, room: nat, space: char -> bool)
    requires text != "" && 0 < room
    ensures CutLength(text, room, space) == FragmentLength(text, room, space)
  {}

  // ----- one or two columns, with a name: further rows start at the edge or past it -----

  /** Nothing fits any more, and something is left: every turn adds an empty fragment and a row. */
  predicate IsStuck(s: Loop, c: Console) {
    && s.processing && s.l.column == c.cols == c.indent
    && (if s.frags == [] then s.rest != "" else s.frags[0] != "")
  }

  lemma {:induction false} StuckForEver(s: Loop, c: Console, n: nat)
    requires IsStuck(s, c)
    ensures !IsDone(Turns(s, c, n))
    decreases n
  {
    if n > 0 { StuckForEver(Turn(s, c), c, n - 1); }
  }

  lemma NeverEnds(s: Loop, c: Console)
    requires IsStuck(s, c)
    ensures !Ends(s, c)
  {
    forall n: nat ensures !IsDone(Turns(s, c, n)) { StuckForEver(s, c, n); }
  }

  /**
   * The name fills its rows. On two columns what follows fits its last row, or never ends; on one column the first
   * character does, and the rest is written past the edge.
   */
  lemma {:induction false} NarrowEnds(s: Loop, c: Console)
    requires 1 <= c.cols <= 2 && c.indent == 2 && !s.processing && s.l.column < c.cols && |s.rest| < 0x1_0000_0000
    ensures var named := PlaceAll(s.l, s.frags, c.cols, false, 2);
            && (Ends(s, c) <==> c.cols == 1 || |s.rest| <= 2 - named.column)
            && (Ends(s, c) ==> EndsWith(s, c, PlaceNarrow(named, s.rest, c.cols)))
    decreases Sizes(s.frags)
  {
    OneTurn(s, c);
    if s.frags != [] {
      var t := Turn(s, c);
      WideFragment(s, c);
      hide Turn, Sizes, Ends, EndsWith, PlaceNarrow, PlaceAll;
      NarrowEnds(t, c);
    } else if s.rest == "" {
      AlreadyDone(s, c);
    } else {
      NarrowText(s, c);
    }
  }

  lemma NarrowText(s: Loop, c: Console)
    requires 1 <= c.cols <= 2 && c.indent == 2 && !s.processing && s.l.column < c.cols && |s.rest| < 0x1_0000_0000
    requires s.frags == [] && s.rest != ""
    ensures Ends(s, c) <==> c.cols == 1 || |s.rest| <= 2 - s.l.column
    ensures Ends(s, c) ==> EndsWith(s, c, PlaceNarrow(s.l, s.rest, c.cols))
  {
    var t := Turn(s, c);
    var u := Turn(t, c);
    OneTurn(s, c);
    OneTurn(t, c);
    if |s.rest| <= c.cols - s.l.column {
      assert s.rest[..|s.rest|] == s.rest;
      AlreadyDone(u, c);
    } else if c.cols == 2 {
      NeverEnds(u, c);
    } else {
      RestPastEdge(u, c);
    }
  }

  lemma RestPastEdge(s: Loop, c: Console)
    requires c.cols == 1 && c.indent == 2 && s.processing && s.l.column == 2 && s.frags == []
        && 0 < |s.rest| < 0x1_0000_0000
    ensures Ends(s, c) && EndsWith(s, c, EndRow(Put(s.l, s.rest), 2))
  {
    var t := Turn(s, c);
    var u := Turn(t, c);
    OneTurn(s, c);
    OneTurn(t, c);
    assert s.rest[..|s.rest|] == s.rest;
    AlreadyDone(u, c);
  }

  // ----- every console -----

  /**
   * The layout loop ends on every console, except for a line with a name on a console of two columns whose text does
   * not fit behind the name. When it ends, it has laid out the rows specified.
   */
  lemma LoopEnds(line: ChatLine, cols: nat, space: char -> bool)
    requires 1 <= cols < 0x1_0000_0000 && |line.text| < 0x1_0000_0000
    ensures Ends(StartLoop(line), ConsoleFor(line, cols, space)) <==> Fits(line, cols)
    ensures Fits(line, cols) ==>
              exists l :: EndsWith(StartLoop(line), ConsoleFor(line, cols, space), l)
                  && Finish(l) == Format(line, cols, space)
  {
    var s, c := StartLoop(line), ConsoleFor(line, cols, space);
    if IsWide(line.name, cols) {
      WideEnds(s, c);
    } else {
      NameKept(line, cols);
      NarrowEnds(s, c);
    }
  }

  // ----- the program -----

  lemma {:induction false} TurnsSplit(s: Loop, c: Console, m: nat, n: nat)
    ensures Turns(s, c, m + n) == Turns(Turns(s, c, m), c, n)
    decreases m
  {
    hide Turn;
    if m > 0 { TurnsSplit(Turn(s, c), c, m - 1, n); }
  }

  lemma {:induction false} DoneStays(s: Loop, c: Console, n: nat)
    requires IsDone(s)
    ensures Turns(s, c, n) == s
    decreases n
  {
    if n > 0 { DoneStays(s, c, n - 1); }
  }

  /** After `k` of the `n` turns that end the loop, it is over exactly if it has arrived. */
  lemma TurnsTo(s: Loop, c: Console, k: nat, n: nat)
    requires k <= n && IsDone(Turns(s, c, n))
    ensures IsDone(Turns(s, c, k)) ==> Turns(s, c, k) == Turns(s, c, n)
    ensures !IsDone(Turns(s, c, k)) ==> k < n
    ensures Turns(s, c, k + 1) == Turn(Turns(s, c, k), c)
  {
    TurnsSplit(s, c, k, n - k);
    TurnsSplit(s, c, k, 1);
    assert Turns(Turns(s, c, k), c, 1) == Turns(Turn(Turns(s, c, k), c), c, 0);
    hide Turn, Turns;
    if IsDone(Turns(s, c, k)) { DoneStays(Turns(s, c, k), c, n - k); }
  }

  /** Cuts the next fragment off the text, behind a space if one is in reach. */
  method ProduceFragment(text: string, inPos: nat, remainingInOutput: nat, space: char -> bool)
      returns (fragment: string)
    requires inPos < |text|
    ensures |fragment| == CutLength(text[inPos..], remainingInOutput, space)
    ensures inPos + |fragment| <= |text| && fragment == text[inPos..inPos + |fragment|]
  {
    var remainingInInput := |text| - inPos;
    var fragLength := 1;
    var spacePos := 0;
    while fragLength < remainingInInput && fragLength < remainingInOutput
      invariant 1 <= fragLength <= remainingInInput && (fragLength <= remainingInOutput || fragLength == 1)
      invariant spacePos == LastSpace(text[inPos..], fragLength, space)
    {
      if space(text[inPos + fragLength]) { spacePos := fragLength; }
      fragLength := fragLength + 1;
    }
    if spacePos != 0 && fragLength < remainingInInput { fragLength := spacePos + 1; }
    fragment := text[inPos..inPos + fragLength];
  }

  /**
   * The inner loop lays out the pending fragments. `k` of the `n` turns from `start` have been taken; `rest` is the
   * text that is not yet cut up.
   */
  method LayoutFragments(frags: seq<string>, l0: Layout, cols: nat, processing: bool, hangingIndentation: nat,
                         ghost rest: string, ghost start: Loop, ghost c: Console, ghost k0: nat, ghost n: nat)
      returns (l: Layout, ghost k: nat)
    requires c.cols == cols && c.indent == hangingIndentation && k0 <= n && IsDone(Turns(start, c, n))
    requires Turns(start, c, k0) == Loop(l0, frags, rest, processing)
    ensures k0 <= k <= n && Turns(start, c, k) == Loop(l, [], rest, processing) && (frags != [] ==> k0 < k)
  {
    var nextFrags := frags;
    var destination, nextLine := l0.rows, l0.row;
    var outColumn: nat := l0.column;
    k := k0;
    while nextFrags != []
      invariant k0 <= k <= n && (nextFrags != frags ==> k0 < k)
      invariant Turns(start, c, k) ==
                Loop(Layout(destination, nextLine, outColumn, l0.lineIndex), nextFrags, rest, processing)
      decreases n - k
    {
      TurnsTo(start, c, k, n);
      var frag, room := nextFrags[0], ToU32(cols - outColumn);
      if |frag| <= room {
        nextLine := nextLine + [Fragment(frag, outColumn)];
        outColumn := outColumn + |frag|;
        nextFrags := nextFrags[1..];
      } else {
        // fill the row and keep what is left of the fragment
        nextLine := nextLine + [Fragment(frag[..room], outColumn)];
        nextFrags := [frag[room..]] + nextFrags[1..];
        outColumn := cols;
      }
      if outColumn == cols || processing {
        destination := destination + [FormattedLine(nextLine, destination == [], l0.lineIndex)];
        nextLine := [];
        outColumn := if processing then hangingIndentation else 0;
      }
      k := k + 1;
    }
    l := Layout(destination, nextLine, outColumn, l0.lineIndex);
  }

  /** Cuts off the next fragment: one more turn. */
  method NextFragment(text: string, inPos0: nat, l: Layout, cols: nat, space: char -> bool, ghost processing: bool,
                      ghost start: Loop, ghost c: Console, ghost k0: nat, ghost n: nat)
      returns (frags: seq<string>, inPos: nat, ghost k: nat)
    requires c.cols == cols && c.space == space && inPos0 < |text| && k0 <= n && IsDone(Turns(start, c, n))
    requires Turns(start, c, k0) == Loop(l, [], text[inPos0..], processing)
    ensures inPos <= |text| && k0 < k <= n && Turns(start, c, k) == Loop(l, frags, text[inPos..], true)
  {
    TurnsTo(start, c, k0, n);
    var fragment := ProduceFragment(text, inPos0, ToU32(cols - l.column), space);
    frags, inPos, k := [fragment], inPos0 + |fragment|, k0 + 1;
    assert text[inPos0..][..|fragment|] == fragment && text[inPos0..][|fragment|..] == text[inPos..];
  }

  /** The outer loop: lay out fragments, then cut off the next one. The `n`-th turn is the last. */
  method LayoutLine(line: ChatLine, cols: nat, hangingIndentation: nat, space: char -> bool, ghost n: nat)
      returns (l: Layout)
    requires IsDone(Turns(StartLoop(line), Console(cols, hangingIndentation, space), n))
    ensures l == Turns(StartLoop(line), Console(cols, hangingIndentation, space), n).l
  {
    ghost var start, c, k := StartLoop(line), Console(cols, hangingIndentation, space), 0;
    var nextFrags := if line.name != "" then ["<", line.name, "> "] else [];
    var inPos: nat, textProcessing := 0, false;
    l := Layout([], [], 0, line.lineIndex);
    assert line.text[0..] == line.text;
    while nextFrags != [] || inPos < |line.text|
      invariant inPos <= |line.text| && k <= n
      invariant Turns(start, c, k) == Loop(l, nextFrags, line.text[inPos..], textProcessing)
      decreases n - k
    {
      l, k := LayoutFragments(nextFrags, l, cols, textProcessing, hangingIndentation,
                              line.text[inPos..], start, c, k, n);
      nextFrags := [];
      if inPos < |line.text| {
        nextFrags, inPos, k := NextFragment(line.text, inPos, l, cols, space, textProcessing, start, c, k, n);
        textProcessing := true;
      }
    }
    TurnsTo(start, c, k, n);
  }

  /** `formatChatLine`: appends the rows of one chat line to `destination`. */
  method FormatChatLine(line: ChatLine, cols: nat, destination: seq<FormattedLine>, space: char -> bool)
      returns (dest: seq<FormattedLine>, numAdded: nat)
    requires Fits(line, cols)
    ensures dest == destination + Format(line, cols, space) && numAdded == |Format(line, cols, space)|
  {
    ghost var start, c := StartLoop(line), ConsoleFor(line, cols, space);
    LoopEnds(line, cols, space);
    ghost var last :| EndsWith(start, c, last) && Finish(last) == Format(line, cols, space);
    ghost var n: nat :| IsDone(Turns(start, c, n)) && Turns(start, c, n).l == last;
    var l := LayoutLine(line, cols, Indent(line.name, cols), space, n);
    // a row not yet full, or the one row of an empty line
    if l.rows == [] || l.row != [] { l := EndRow(l, 0); }
    dest, numAdded := destination + l.rows, |l.rows|;
  }

  /** "<a> " takes two rows of two columns; "hello" does not end, "hi" does. */
  lemma HelloNeverEnds(space: char -> bool)
    ensures !Ends(StartLoop(ChatLine("a", "hello", 0)), Console(2, 2, space))
    ensures Ends(StartLoop(ChatLine("a", "hi", 0)), Console(2, 2, space))
  {
    assert |"hello"| == 5 && |"hi"| == 2 && |"a"| == 1;
    LoopEnds(ChatLine("a", "hello", 0), 2, space);
    LoopEnds(ChatLine("a", "hi", 0), 2, space);
  }
}
