/** Wrapping one chat line into console rows. */
module ChatFormat {

  datatype ChatLine = ChatLine(name: string, text: string, lineIndex: int)

  datatype Fragment = Fragment(text: string, column: nat)

  datatype FormattedLine = FormattedLine(fragments: seq<Fragment>, first: bool, lineIndex: int)

  // ----- the layout as a function -----

  /** A layout in progress: finished rows, the row being filled, and the column reached in it. */
  datatype Layout = Layout(rows: seq<FormattedLine>, row: seq<Fragment>, column: nat, lineIndex: int)

  function EndRow(l: Layout, column: nat): Layout {
    Layout(l.rows + [FormattedLine(l.row, l.rows == [], l.lineIndex)], [], column, l.lineIndex)
  }

  function Put(l: Layout, text: string): Layout {
    l.(row := l.row + [Fragment(text, l.column)], column := l.column + |text|)
  }

  /** Lays out one fragment; it is split where a row is full. While text is processed every fragment ends its row. */
  function Place(l: Layout, text: string, cols: nat, processing: bool, indent: nat): (r: Layout)
    requires l.column < cols && (processing ==> indent < cols)
    ensures r.column < cols && r.lineIndex == l.lineIndex
    decreases |text|
  {
    var next := if processing then indent else 0;
    if |text| <= cols - l.column then
      var p := Put(l, text);
      if p.column == cols || processing then EndRow(p, next) else p
    else
      Place(EndRow(Put(l, text[..cols - l.column]), next), text[cols - l.column..], cols, processing, indent)
  }

  function PlaceAll(l: Layout, frags: seq<string>, cols: nat, processing: bool, indent: nat): (r: Layout)
    requires l.column < cols && (processing ==> indent < cols)
    ensures r.column < cols && r.lineIndex == l.lineIndex
    decreases |frags|
  {
    if frags == [] then l
        else PlaceAll(Place(l, frags[0], cols, processing, indent), frags[1..], cols, processing, indent)
  }

  /** The last whitespace at an offset in `1 .. len`, or 0. */
  function LastSpace(text: string, len: nat, space: char -> bool): (k: nat)
    requires len <= |text|
    ensures k < len || k == 0
  {
    if len <= 1 then 0 else if space(text[len - 1]) then len - 1 else LastSpace(text, len - 1, space)
  }

  /** How much of the remaining text goes into the next fragment: what fits, ending after a space if more follows. */
  function FragmentLength(text: string, room: nat, space: char -> bool): (n: nat)
    requires text != "" && 0 < room
    ensures 1 <= n <= room && n <= |text|
  {
    var len := if |text| < room then |text| else room;
    var k := LastSpace(text, len, space);
    if k != 0 && len < |text| then k + 1 else len
  }

  function PlaceText(l: Layout, text: string, cols: nat, indent: nat, space: char -> bool): (r: Layout)
    requires l.column < cols && indent < cols
    ensures r.column < cols && r.lineIndex == l.lineIndex
    decreases |text|
  {
    if text == "" then l else
      var n := FragmentLength(text, cols - l.column, space);
      PlaceText(Place(l, text[..n], cols, true, indent), text[n..], cols, indent, space)
  }

  function NameFragments(name: string): seq<string> {
    if name == "" then [] else ["<", name, "> "]
  }

  /** The hanging indentation: none for server messages, below the text for short names, 2 for long ones. */
  function Indent(name: string, cols: nat): nat {
    if name == "" then 0 else if |name| + 3 <= cols / 2 then |name| + 3 else 2
  }

  /** Text indented behind a name starts inside the console. */
  predicate IsWide(name: string, cols: nat) {
    cols >= 1 && (name != "" ==> cols >= 3)
  }

  /** All that a row of two columns does not hold behind the name would never be laid out. */
  predicate Fits(line: ChatLine, cols: nat) {
    && 1 <= cols < 0x1_0000_0000 && |line.text| < 0x1_0000_0000
    && (line.name == "" || cols != 2 || |line.text| <= 2 - (|line.name| + 3) % 2)
  }

  /** The text behind a name on one or two columns: what fits the row, and then the rest, indented past the edge. */
  function PlaceNarrow(l: Layout, text: string, cols: nat): Layout
    requires l.column < cols
  {
    if text == "" then l
    else if |text| <= cols - l.column then EndRow(Put(l, text), 2)
    else EndRow(Put(EndRow(Put(l, text[..cols - l.column]), 2), text[cols - l.column..]), 2)
  }

  function Finish(l: Layout): seq<FormattedLine> {
    if l.rows == [] || l.row != [] then EndRow(l, 0).rows else l.rows
  }

  function Start(line: ChatLine): Layout {
    Layout([], [], 0, line.lineIndex)
  }

  /** The rows one chat line becomes. */
  function Format(line: ChatLine, cols: nat, space: char -> bool): seq<FormattedLine>
    requires Fits(line, cols)
  {
    var indent := Indent(line.name, cols);
    var named := PlaceAll(Start(line), NameFragments(line.name), cols, false, indent);
    Finish(if IsWide(line.name, cols) then PlaceText(named, line.text, cols, indent, space)
           else PlaceNarrow(named, line.text, cols))
  }

  // ----- what the layout keeps -----

  function FragmentText(fragments: seq<Fragment>): string {
    if fragments == [] then "" else FragmentText(fragments[..|fragments| - 1]) + fragments[|fragments| - 1].text
  }

  /** All the text in a list of rows. */
  function RowText(rows: seq<FormattedLine>): string {
    if rows == [] then "" else RowText(rows[..|rows| - 1]) + FragmentText(rows[|rows| - 1].fragments)
  }

  function LayoutText(l: Layout): string {
    RowText(l.rows) + FragmentText(l.row)
  }

  /** Fragments lie side by side and within the console. */
  ghost predicate Contiguous(row: seq<Fragment>, cols: nat) {
    && (forall i :: 0 <= i < |row| ==> row[i].column + |row[i].text| <= cols)
    && (forall i :: 0 < i < |row| ==> row[i].column == row[i - 1].column + |row[i - 1].text|)
  }

  ghost predicate GoodRows(rows: seq<FormattedLine>, cols: nat, lineIndex: int) {
    forall i :: 0 <= i < |rows| ==>
        Contiguous(rows[i].fragments, cols) && (rows[i].first <==> i == 0) && rows[i].lineIndex == lineIndex
  }

  ghost predicate GoodLayout(l: Layout, cols: nat) {
    && GoodRows(l.rows, cols, l.lineIndex) && Contiguous(l.row, cols) && l.column <= cols
    && (l.row != [] ==> l.row[|l.row| - 1].column + |l.row[|l.row| - 1].text| == l.column)
  }

  // ----- the text -----

  lemma Glue(a: string, b: string, c: string)
    ensures (a + b) + c == a + (b + c) && a + "" == a
  {}

  lemma JoinCut(a: string, text: string, n: nat)
    requires n <= |text|
    ensures (a + text[..n]) + text[n..] == a + text
  {}

  lemma PutText(l: Layout, text: string)
    ensures LayoutText(Put(l, text)) == LayoutText(l) + text
  {
    assert (l.row + [Fragment(text, l.column)])[..|l.row|] == l.row;
    Glue(RowText(l.rows), FragmentText(l.row), text);
  }

  lemma EndRowText(l: Layout, column: nat)
    ensures LayoutText(EndRow(l, column)) == LayoutText(l)
  {
    var r := FormattedLine(l.row, l.rows == [], l.lineIndex);
    assert (l.rows + [r])[..|l.rows|] == l.rows;
    Glue(RowText(l.rows + [r]), "", "");
  }

  lemma {:induction false} PlaceKeepsText(l: Layout, text: string, cols: nat, processing: bool, indent: nat)
    requires l.column < cols && (processing ==> indent < cols)
    ensures LayoutText(Place(l, text, cols, processing, indent)) == LayoutText(l) + text
    decreases |text|
  {
    var next := if processing then indent else 0;
    var room := cols - l.column;
    if |text| <= room {
      PutText(l, text);
      EndRowText(Put(l, text), next);
    } else {
      var mid := EndRow(Put(l, text[..room]), next);
      PutText(l, text[..room]);
      EndRowText(Put(l, text[..room]), next);
      PlaceKeepsText(mid, text[room..], cols, processing, indent);
      JoinCut(LayoutText(l), text, room);
    }
  }

  lemma {:induction false} PlaceTextKeepsText(l: Layout, text: string, cols: nat, indent: nat, space: char -> bool)
    requires l.column < cols && indent < cols
    ensures LayoutText(PlaceText(l, text, cols, indent, space)) == LayoutText(l) + text
    decreases |text|
  {
    if text == "" {
      Glue(LayoutText(l), "", "");
    } else {
      var n := FragmentLength(text, cols - l.column, space);
      var mid := Place(l, text[..n], cols, true, indent);
      PlaceKeepsText(l, text[..n], cols, true, indent);
      PlaceTextOne(l, text, cols, indent, space);
      hide PlaceText, Place, LayoutText, FragmentLength;
      PlaceTextKeepsText(mid, text[n..], cols, indent, space);
      JoinCut(LayoutText(l), text, n);
    }
  }

  function Concat(frags: seq<string>): string {
    if frags == [] then "" else frags[0] + Concat(frags[1..])
  }

  lemma {:induction false} PlaceAllKeepsText(l: Layout, frags: seq<string>, cols: nat, processing: bool, indent: nat)
    requires l.column < cols && (processing ==> indent < cols)
    ensures LayoutText(PlaceAll(l, frags, cols, processing, indent)) == LayoutText(l) + Concat(frags)
    decreases |frags|
  {
    if frags == [] {
      Glue(LayoutText(l), "", "");
    } else {
      PlaceKeepsText(l, frags[0], cols, processing, indent);
      PlaceAllKeepsText(Place(l, frags[0], cols, processing, indent), frags[1..], cols, processing, indent);
      Glue(LayoutText(l), frags[0], Concat(frags[1..]));
    }
  }

  // ----- the shape -----

  lemma PutShape(l: Layout, text: string, cols: nat)
    requires GoodLayout(l, cols) && l.column + |text| <= cols
    ensures GoodLayout(Put(l, text), cols)
  {}

  lemma EndRowShape(l: Layout, column: nat, cols: nat)
    requires GoodLayout(l, cols) && column <= cols
    ensures GoodLayout(EndRow(l, column), cols)
  {}

  lemma {:induction false} PlaceKeepsShape(l: Layout, text: string, cols: nat, processing: bool, indent: nat)
    requires l.column < cols && (processing ==> indent < cols) && GoodLayout(l, cols)
    ensures GoodLayout(Place(l, text, cols, processing, indent), cols)
    decreases |text|
  {
    var next := if processing then indent else 0;
    var room := cols - l.column;
    if |text| <= room {
      PutShape(l, text, cols);
      EndRowShape(Put(l, text), next, cols);
    } else {
      PutShape(l, text[..room], cols);
      EndRowShape(Put(l, text[..room]), next, cols);
      PlaceKeepsShape(EndRow(Put(l, text[..room]), next), text[room..], cols, processing, indent);
    }
  }

  lemma {:induction false} PlaceTextKeepsShape(l: Layout, text: string, cols: nat, indent: nat, space: char -> bool)
    requires l.column < cols && indent < cols && GoodLayout(l, cols)
    ensures GoodLayout(PlaceText(l, text, cols, indent, space), cols)
    decreases |text|
  {
    if text != "" {
      var n := FragmentLength(text, cols - l.column, space);
      PlaceKeepsShape(l, text[..n], cols, true, indent);
      PlaceTextKeepsShape(Place(l, text[..n], cols, true, indent), text[n..], cols, indent, space);
    }
  }

  lemma {:induction false} PlaceAllKeepsShape(l: Layout, frags: seq<string>, cols: nat, processing: bool, indent: nat)
    requires l.column < cols && (processing ==> indent < cols) && GoodLayout(l, cols)
    ensures GoodLayout(PlaceAll(l, frags, cols, processing, indent), cols)
    decreases |frags|
  {
    if frags != [] {
      PlaceKeepsShape(l, frags[0], cols, processing, indent);
      PlaceAllKeepsShape(Place(l, frags[0], cols, processing, indent), frags[1..], cols, processing, indent);
    }
  }

  // ----- formatting as a whole -----

  /** What the reader of a chat line sees: the sender in angle brackets, if there is one, and the text. */
  function Shown(line: ChatLine): string {
    (if line.name == "" then "" else "<" + line.name + "> ") + line.text
  }

  lemma NameText(name: string)
    ensures Concat(NameFragments(name)) == if name == "" then "" else "<" + name + "> "
  {
    if name != "" {
      var f, g, h := NameFragments(name), [name, "> "], ["> "];
      assert f[1..] == g && g[1..] == h && h[1..] == [];
      assert Concat(h) == "> " + Concat([]) == "> ";
      assert Concat(g) == name + Concat(h);
      Glue("<", name, "> ");
    }
  }

  /** How far to the right the rows reach: past the console only if it has one column, and a name before the text. */
  function Width(line: ChatLine, cols: nat): nat {
    if line.name != "" && cols == 1 && |line.text| > 1 then |line.text| + 1 else cols
  }

  /** Formatting loses nothing, keeps to its width, and marks the first row only. */
  lemma FormatKeepsText(line: ChatLine, cols: nat, space: char -> bool)
    requires Fits(line, cols)
    ensures var rows := Format(line, cols, space);
            |rows| >= 1 && RowText(rows) == Shown(line) && GoodRows(rows, Width(line, cols), line.lineIndex)
  {
    var indent := Indent(line.name, cols);
    var named := PlaceAll(Start(line), NameFragments(line.name), cols, false, indent);
    NameKept(line, cols);
    hide Place, PlaceAll, PlaceText, PlaceNarrow, GoodLayout, GoodRows, LayoutText, RowText, Finish, NameFragments;
    if IsWide(line.name, cols) {
      PlaceTextKeepsText(named, line.text, cols, indent, space);
      PlaceTextKeepsShape(named, line.text, cols, indent, space);
      FinishKeeps(PlaceText(named, line.text, cols, indent, space), cols);
    } else {
      PlaceNarrowKeeps(named, line.text, cols, Width(line, cols));
    }
  }

  /** What the name leaves: its text, a good layout, and on a narrow console the column its length says. */
  lemma NameKept(line: ChatLine, cols: nat)
    requires cols >= 1
    ensures var named := PlaceAll(Start(line), NameFragments(line.name), cols, false, Indent(line.name, cols));
            && named.lineIndex == line.lineIndex && LayoutText(named) + line.text == Shown(line)
                  && GoodLayout(named, cols)
            && (line.name != "" && cols <= 2 ==> named.column == (|line.name| + 3) % cols)
  {
    var start, frags, indent := Start(line), NameFragments(line.name), Indent(line.name, cols);
    NameText(line.name);
    PlaceAllKeepsText(start, frags, cols, false, indent);
    assert LayoutText(start) + Concat(frags) == Concat(frags);
    PlaceAllKeepsShape(start, frags, cols, false, indent);
    if line.name != "" && cols <= 2 {
      NameLength(line.name);
      NarrowColumn(start, frags, cols, indent);
    }
  }

  function Length(frags: seq<string>): nat {
    if frags == [] then 0 else |frags[0]| + Length(frags[1..])
  }

  lemma NameLength(name: string)
    requires name != ""
    ensures Length(NameFragments(name)) == |name| + 3
  {
    var f := NameFragments(name);
    assert f[1..] == [name, "> "] && f[1..][1..] == ["> "] && f[1..][1..][1..] == [];
    assert |"<"| == 1 && |"> "| == 2;
    assert Length(["> "]) == 2 && Length([name, "> "]) == |name| + 2;
  }

  /** A name fills its rows, and on one or two columns ends where its length says. */
  lemma {:induction false} NarrowColumn(l: Layout, frags: seq<string>, cols: nat, indent: nat)
    requires l.column < cols <= 2
    ensures PlaceAll(l, frags, cols, false, indent).column == (l.column + Length(frags)) % cols
    decreases |frags|
  {
    if frags != [] {
      NarrowPlace(l, frags[0], cols, indent);
      NarrowColumn(Place(l, frags[0], cols, false, indent), frags[1..], cols, indent);
    }
  }

  lemma {:induction false} NarrowPlace(l: Layout, text: string, cols: nat, indent: nat)
    requires l.column < cols <= 2
    ensures Place(l, text, cols, false, indent).column == (l.column + |text|) % cols
    decreases |text|
  {
    var room := cols - l.column;
    if |text| > room { NarrowPlace(EndRow(Put(l, text[..room]), 0), text[room..], cols, indent); }
  }

  lemma PlaceNarrowKeeps(l: Layout, text: string, cols: nat, width: nat)
    requires l.column < cols <= width && GoodLayout(l, cols)
    requires |text| <= cols - l.column || (cols == 1 && |text| + 1 <= width)
    ensures var rows := Finish(PlaceNarrow(l, text, cols));
            |rows| >= 1 && RowText(rows) == LayoutText(l) + text && GoodRows(rows, width, l.lineIndex)
  {
    hide GoodLayout, GoodRows, Contiguous, LayoutText, RowText, Finish;
    Wider(l, cols, width);
    if text == "" {
      FinishKeeps(l, width);
      Glue(LayoutText(l), "", "");
    } else if |text| <= cols - l.column {
      OneRowAdded(l, text, width);
    } else {
      JoinCut(LayoutText(l), text, cols - l.column);
      TwoRowsAdded(l, text[..cols - l.column], text[cols - l.column..], width);
    }
  }

  lemma OneRowAdded(l: Layout, text: string, width: nat)
    requires GoodLayout(l, width) && l.column + |text| <= width
    ensures var after := EndRow(Put(l, text), 2);
            |Finish(after)| >= 1 && RowText(Finish(after)) == LayoutText(l) + text
                && GoodRows(Finish(after), width, l.lineIndex)
  {
    RowAdded(l, text, 2, width);
  }

  lemma TwoRowsAdded(l: Layout, head: string, tail: string, width: nat)
    requires GoodLayout(l, width) && l.column + |head| <= width && 2 + |tail| <= width
    ensures var after := EndRow(Put(EndRow(Put(l, head), 2), tail), 2);
            && RowText(Finish(after)) == (LayoutText(l) + head) + tail
            && |Finish(after)| >= 1 && GoodRows(Finish(after), width, l.lineIndex)
  {
    RowAdded(l, head, 2, width);
    RowAdded(EndRow(Put(l, head), 2), tail, 2, width);
  }

  lemma Wider(l: Layout, cols: nat, width: nat)
    requires GoodLayout(l, cols) && cols <= width
    ensures GoodLayout(l, width)
  {}

  lemma RowAdded(l: Layout, text: string, column: nat, width: nat)
    requires GoodRows(l.rows, width, l.lineIndex) && Contiguous(l.row, width) && l.column + |text| <= width
    requires l.row != [] ==> l.row[|l.row| - 1].column + |l.row[|l.row| - 1].text| == l.column
    ensures var after := EndRow(Put(l, text), column);
            && GoodRows(after.rows, width, l.lineIndex)
                  && RowText(after.rows) == LayoutText(after) == LayoutText(l) + text
  {
    hide LayoutText, RowText, FragmentText;
    AddedText(l, text, column);
  }

  lemma AddedText(l: Layout, text: string, column: nat)
    ensures var after := EndRow(Put(l, text), column); RowText(after.rows) == LayoutText(after) == LayoutText(l) + text
  {
    PutText(l, text);
    EndRowText(Put(l, text), column);
    Glue(RowText(EndRow(Put(l, text), column).rows), "", "");
  }

  lemma FinishKeeps(l: Layout, cols: nat)
    requires GoodLayout(l, cols)
    ensures |Finish(l)| >= 1 && RowText(Finish(l)) == LayoutText(l) && GoodRows(Finish(l), cols, l.lineIndex)
  {
    EndRowText(l, 0);
    EndRowShape(l, 0, cols);
    Glue(RowText(l.rows), "", "");
    Glue(RowText(EndRow(l, 0).rows), "", "");
  }

  // ----- word boundaries -----

  lemma {:induction false} LastSpaceMeaning(text: string, len: nat, space: char -> bool)
    requires len <= |text|
    ensures var k := LastSpace(text, len, space);
            (k != 0 ==> space(text[k])) && forall i :: k < i < len ==> !space(text[i])
  {
    if len > 1 && !space(text[len - 1]) { LastSpaceMeaning(text, len - 1, space); }
  }

  /**
   * Where a fragment ends although more text follows: right after the last space that fits, or at the edge of the
   * console if no space after the first character fits.
   */
  lemma BreaksAtWord(text: string, room: nat, space: char -> bool)
    requires text != "" && 0 < room
    ensures var n := FragmentLength(text, room, space);
            n < |text| ==>
              && (n < room ==> n >= 2 && space(text[n - 1]))
              && forall i :: n <= i < room && i < |text| ==> !space(text[i])
    ensures |text| <= room ==> FragmentLength(text, room, space) == |text|
  {
    LastSpaceMeaning(text, if |text| < room then |text| else room, space);
  }

  // ----- what is still to be placed -----

  function Sizes(frags: seq<string>): nat {
    if frags == [] then 0 else |frags[0]| + 1 + Sizes(frags[1..])
  }

  lemma NothingLeft(l: Layout, processing: bool, rest: string, cols: nat, indent: nat, space: char -> bool)
    requires l.column < cols && indent < cols && rest == ""
    ensures Outcome(l, [], processing, rest, cols, indent, space) == PlaceText(l, rest, cols, indent, space) == l
  {}

  /** The layout once the pending fragments and the rest of the text have been placed. */
  function Outcome(l: Layout, frags: seq<string>, processing: bool, rest: string, cols: nat, indent: nat,
                   space: char -> bool): Layout
    requires l.column < cols && indent < cols
  {
    PlaceText(PlaceAll(l, frags, cols, processing, indent), rest, cols, indent, space)
  }

  lemma PlaceOne(l: Layout, frag: string, cols: nat, processing: bool, indent: nat)
    requires l.column < cols && indent < cols
    ensures PlaceAll(l, [frag], cols, processing, indent) == Place(l, frag, cols, processing, indent)
    ensures PlaceAll(l, [], cols, processing, indent) == l
  {
    assert [frag][1..] == [];
  }

  lemma PlaceTextOne(l: Layout, text: string, cols: nat, indent: nat, space: char -> bool)
    requires l.column < cols && indent < cols && text != ""
    ensures var n := FragmentLength(text, cols - l.column, space);
            PlaceText(l, text, cols, indent, space) ==
                PlaceText(Place(l, text[..n], cols, true, indent), text[n..], cols, indent, space)
  {
    hide Place, FragmentLength;
  }
}
