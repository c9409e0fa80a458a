/** Where the rows of a chat line start and end, read off the rows themselves. */
module ChatRows {
  import opened ChatFormat
  import opened Multiples

  /** How many columns the name takes, with its brackets and the space. */
  function NamedLength(name: string): nat {
    if name == "" then 0 else |name| + 3
  }

  /** The column of the rows that continue a text: below the text if the name takes no more than half the console. */
  function TextColumn(name: string, cols: nat): nat {
    if name == "" then 0 else if 2 * NamedLength(name) <= cols then NamedLength(name) else 2
  }

  function End(row: seq<Fragment>): nat
    requires row != []
  {
    row[|row| - 1].column + |row[|row| - 1].text|
  }

  predicate IsFullRow(row: seq<Fragment>, cols: nat) {
    row != [] && row[0].column == 0 && End(row) == cols
  }

  /**
   * A piece of text that is followed by more ends behind the last space that fits, its first character aside, or at the
   * edge if there is none.
   */
  ghost predicate IsBroken(piece: string, following: string, room: nat, space: char -> bool) {
    following != "" ==>
      && |piece| <= room
      && ((|piece| >= 2 && space(piece[|piece| - 1]))
          || (|piece| == room && forall j :: 0 < j < |piece| ==> !space(piece[j])))
      && forall j :: 0 <= j < |following| && |piece| + j < room ==> !space(following[j])
  }

  /** The row is `head` and a piece of text behind it, in this column. */
  ghost predicate IsTextRow(row: seq<Fragment>, head: seq<Fragment>, column: nat, following: string, cols: nat,
                            space: char -> bool) {
    && row != [] && row == head + [row[|row| - 1]]
    && row[|row| - 1].column == column && row[|row| - 1].text != ""
    && (following != "" ==> column < cols && IsBroken(row[|row| - 1].text, following, cols - column, space))
  }

  // ----- the name -----

  /** Full rows so far, and the beginning of another one. */
  ghost predicate IsNameLayout(l: Layout, cols: nat) {
    && l.column < cols
    && (if l.row == [] then l.column == 0 else l.row[0].column == 0 && 0 < End(l.row) == l.column)
    && forall i :: 0 <= i < |l.rows| ==> IsFullRow(l.rows[i].fragments, cols)
  }

  lemma {:induction false} PlaceFillsRows(l: Layout, text: string, cols: nat, indent: nat)
    requires IsNameLayout(l, cols) && text != ""
    ensures var r := Place(l, text, cols, false, indent);
            IsNameLayout(r, cols) && |r.rows| * cols + r.column == |l.rows| * cols + l.column + |text|
    decreases |text|
  {
    var room := cols - l.column;
    if |text| < room {
      assert Place(l, text, cols, false, indent) == Put(l, text);
    } else {
      var mid := EndRow(Put(l, text[..room]), 0);
      FullRowAdded(l, text[..room], cols);
      if |text| == room {
        assert text[..room] == text;
      } else {
        PlaceFillsRows(mid, text[room..], cols, indent);
      }
    }
  }

  lemma FullRowAdded(l: Layout, text: string, cols: nat)
    requires IsNameLayout(l, cols) && l.column + |text| == cols
    ensures var r := EndRow(Put(l, text), 0);
            IsNameLayout(r, cols) && |r.rows| * cols + r.column == |l.rows| * cols + cols
  {
    var r := EndRow(Put(l, text), 0);
    assert |r.rows| == |l.rows| + 1;
    assert (|l.rows| + 1) * cols == |l.rows| * cols + cols;
  }

  lemma {:induction false} PlaceAllFillsRows(l: Layout, frags: seq<string>, cols: nat, indent: nat)
    requires IsNameLayout(l, cols) && forall i :: 0 <= i < |frags| ==> frags[i] != ""
    ensures var r := PlaceAll(l, frags, cols, false, indent);
            IsNameLayout(r, cols) && |r.rows| * cols + r.column == |l.rows| * cols + l.column + Length(frags)
    decreases |frags|
  {
    if frags != [] {
      PlaceFillsRows(l, frags[0], cols, indent);
      PlaceAllFillsRows(Place(l, frags[0], cols, false, indent), frags[1..], cols, indent);
    }
  }

  /** After the name: as many full rows as it fills, and the next row begun with the rest of it. */
  lemma NameRows(line: ChatLine, cols: nat)
    requires cols >= 1
    ensures var named := PlaceAll(Start(line), NameFragments(line.name), cols, false, Indent(line.name, cols));
            && IsNameLayout(named, cols)
            && |named.rows| == NamedLength(line.name) / cols && named.column == NamedLength(line.name) % cols
  {
    var named := PlaceAll(Start(line), NameFragments(line.name), cols, false, Indent(line.name, cols));
    PlaceAllFillsRows(Start(line), NameFragments(line.name), cols, Indent(line.name, cols));
    if line.name != "" { NameLength(line.name); }
    QuotientIs(|named.rows|, named.column, NamedLength(line.name), cols);
  }

  // ----- the text -----

  lemma {:induction false} RowTextAppend(a: seq<FormattedLine>, b: seq<FormattedLine>)
    ensures RowText(a + b) == RowText(a) + RowText(b)
  {
    if b == [] {
      assert a + b == a;
      Glue(RowText(a), "", "");
    } else {
      var n := |b| - 1;
      assert (a + b)[..|a + b| - 1] == a + b[..n];
      RowTextAppend(a, b[..n]);
      Glue(RowText(a), RowText(b[..n]), FragmentText(b[n].fragments));
    }
  }

  lemma RowTextCons(rows: seq<FormattedLine>, n: nat)
    requires n < |rows|
    ensures RowText(rows[n..]) == FragmentText(rows[n].fragments) + RowText(rows[n + 1..])
  {
    assert rows[n..] == [rows[n]] + rows[n + 1..];
    RowTextAppend([rows[n]], rows[n + 1..]);
    assert [rows[n]][..0] == [];
    assert RowText([rows[n]]) == "" + FragmentText(rows[n].fragments);
  }

  lemma CutBreaks(text: string, room: nat, space: char -> bool)
    requires text != "" && 0 < room
    ensures var n := FragmentLength(text, room, space); IsBroken(text[..n], text[n..], room, space)
  {
    var len := if |text| < room then |text| else room;
    LastSpaceMeaning(text, len, space);
    var n := FragmentLength(text, room, space);
    assert forall j :: 0 <= j < |text| - n ==> text[n..][j] == text[n + j];
  }

  /** Rows with a piece of text each, in this column. */
  ghost predicate AreTextRows(rows: seq<FormattedLine>, indent: nat, cols: nat, space: char -> bool) {
    forall i :: 0 <= i < |rows| ==> IsTextRow(rows[i].fragments, [], indent, RowText(rows[i + 1..]), cols, space)
  }

  /** The rows that a text adds: the first behind what its row holds already, the others in the indented column. */
  ghost predicate AddsText(l: Layout, r: Layout, first: FormattedLine, more: seq<FormattedLine>, text: string,
                           cols: nat,
                           indent: nat, space: char -> bool) {
    && r.row == [] && r.rows == l.rows + ([first] + more)
    && RowText([first] + more) == FragmentText(l.row) + text
    && IsTextRow(first.fragments, l.row, l.column, RowText(more), cols, space)
    && AreTextRows(more, indent, cols, space)
  }

  /** The last piece of a text. */
  lemma AddsLast(l: Layout, piece: string, cols: nat, indent: nat, space: char -> bool) returns (first: FormattedLine)
    requires piece != ""
    ensures AddsText(l, EndRow(Put(l, piece), indent), first, [], piece, cols, indent, space)
  {
    first := FormattedLine(l.row + [Fragment(piece, l.column)], l.rows == [], l.lineIndex);
    PieceText(l.row, piece, l.column);
    assert [first] + [] == [first] && [first][..0] == [];
    assert RowText([first]) == "" + FragmentText(first.fragments);
  }

  /** One row with a piece of the text, and then the rows of the rest of it. */
  lemma AddsMore(l: Layout, piece: string, rest: string, r: Layout, first': FormattedLine, more': seq<FormattedLine>,
                 cols: nat, indent: nat, space: char -> bool) returns (first: FormattedLine)
    requires piece != "" && l.column < cols && IsBroken(piece, rest, cols - l.column, space)
    requires AddsText(EndRow(Put(l, piece), indent), r, first', more', rest, cols, indent, space)
    ensures AddsText(l, r, first, [first'] + more', piece + rest, cols, indent, space)
  {
    first := FormattedLine(l.row + [Fragment(piece, l.column)], l.rows == [], l.lineIndex);
    var more := [first'] + more';
    assert l.rows + [first] + more == l.rows + ([first] + more);
    assert RowText(more) == rest by { Glue(rest, "", ""); }
    TextRowsCons(first', more', indent, cols, space);
    PieceText(l.row, piece, l.column);
    RowTextCons([first] + more, 0);
    assert ([first] + more)[0..] == [first] + more && ([first] + more)[1..] == more;
    Glue(FragmentText(l.row), piece, rest);
  }

  lemma TextRowsCons(first: FormattedLine, more: seq<FormattedLine>, indent: nat, cols: nat, space: char -> bool)
    requires IsTextRow(first.fragments, [], indent, RowText(more), cols, space)
        && AreTextRows(more, indent, cols, space)
    ensures AreTextRows([first] + more, indent, cols, space)
  {
    hide IsTextRow, RowText;
    var rows := [first] + more;
    assert rows[1..] == more;
    forall i | 0 <= i < |rows| ensures IsTextRow(rows[i].fragments, [], indent, RowText(rows[i + 1..]), cols, space) {
      if i > 0 { assert rows[i + 1..] == more[i - 1 + 1..] && rows[i] == more[i - 1]; }
    }
  }

  lemma PieceText(row: seq<Fragment>, piece: string, column: nat)
    ensures FragmentText(row + [Fragment(piece, column)]) == FragmentText(row) + piece
  {
    assert (row + [Fragment(piece, column)])[..|row|] == row;
  }

  lemma {:induction false} TextRows(l: Layout, text: string, cols: nat, indent: nat, space: char -> bool)
      returns (first: FormattedLine, more: seq<FormattedLine>)
    requires l.column < cols && indent < cols && text != ""
    ensures AddsText(l, PlaceText(l, text, cols, indent, space), first, more, text, cols, indent, space)
    decreases |text|
  {
    hide AddsText, IsBroken, PlaceText, EndRow, Put;
    var piece, rest := FirstPiece(l, text, cols, indent, space);
    if rest == "" {
      first := AddsLast(l, piece, cols, indent, space);
      more := [];
    } else {
      var mid := EndRow(Put(l, piece), indent);
      IndentedNext(l, piece, indent, cols);
      first, more := TextRows(mid, rest, cols, indent, space);
      var r := PlaceText(mid, rest, cols, indent, space);
      var second := first;
      first := AddsMore(l, piece, rest, r, second, more, cols, indent, space);
      more := [second] + more;
    }
  }

  lemma IndentedNext(l: Layout, piece: string, indent: nat, cols: nat)
    requires indent < cols
    ensures EndRow(Put(l, piece), indent).column < cols
  {}

  /** The piece of the text that is laid out first, and what follows it. */
  lemma FirstPiece(l: Layout, text: string, cols: nat, indent: nat, space: char -> bool)
      returns (piece: string, rest: string)
    requires l.column < cols && indent < cols && text != ""
    ensures piece != "" && text == piece + rest && |rest| < |text| && (rest == "" ==> piece == text)
    ensures IsBroken(piece, rest, cols - l.column, space) && EndRow(Put(l, piece), indent).column < cols
    ensures var mid := EndRow(Put(l, piece), indent);
            PlaceText(l, text, cols, indent, space) ==
                if rest == "" then mid else PlaceText(mid, rest, cols, indent, space)
  {
    var n := FragmentLength(text, cols - l.column, space);
    piece, rest := text[..n], text[n..];
    CutBreaks(text, cols - l.column, space);
    PlaceTextOne(l, text, cols, indent, space);
    PlacePiece(l, piece, cols, indent);
    hide IsBroken, FragmentLength, Place;
    if rest == "" { assert piece == text; }
  }

  lemma PlacePiece(l: Layout, piece: string, cols: nat, indent: nat)
    requires l.column < cols && indent < cols && |piece| <= cols - l.column
    ensures Place(l, piece, cols, true, indent) == EndRow(Put(l, piece), indent)
  {}

  lemma NarrowRows(l: Layout, text: string, cols: nat, space: char -> bool)
      returns (first: FormattedLine, more: seq<FormattedLine>)
    requires l.column < cols && text != "" && (|text| <= cols - l.column || cols == 1)
    ensures AddsText(l, PlaceNarrow(l, text, cols), first, more, text, cols, 2, space)
  {
    var room := cols - l.column;
    hide AddsText;
    if |text| <= room {
      first := AddsLast(l, text, cols, 2, space);
      more := [];
    } else {
      var mid := EndRow(Put(l, text[..room]), 2);
      var second := AddsLast(mid, text[room..], cols, 2, space);
      first := AddsMore(l, text[..room], text[room..], EndRow(Put(mid, text[room..]), 2), second, [], cols, 2, space);
      more := [second] + [];
      assert text == text[..room] + text[room..];
    }
  }

  // ----- all rows -----

  /**
   * The rows of a line with text. Those that only hold the name start in column 0 and are full; the row in which the
   * text begins starts in column 0, too, and the text follows the rest of the name. Every further row holds one piece
   * of the text and starts below the text if the name is short, in column 2 if it is long, and in column 0 without a
   * name.
   */
  ghost predicate AreRowsOf(rows: seq<FormattedLine>, line: ChatLine, cols: nat, space: char -> bool)
    requires cols > 0
  {
    var name := NamedLength(line.name);
    var t := name / cols;
    && t < |rows|
    && (forall i :: 0 <= i < t ==> IsFullRow(rows[i].fragments, cols))
    && BeginsText(rows[t].fragments, name % cols, RowText(rows[t + 1..]), cols, space)
    && AreTextRows(rows[t + 1..], TextColumn(line.name, cols), cols, space)
  }

  ghost predicate BeginsText(row: seq<Fragment>, column: nat, following: string, cols: nat, space: char -> bool) {
    exists head :: IsTextRow(row, head, column, following, cols, space) && IsNameRest(head, column)
  }

  /** What stands before the text in its first row. */
  predicate IsNameRest(head: seq<Fragment>, column: nat) {
    if head == [] then column == 0 else head[0].column == 0 && 0 < End(head) == column
  }

  /** Formatting gives these rows; pieces of the text end at spaces where they can. */
  lemma RowsMeaning(line: ChatLine, cols: nat, space: char -> bool)
    requires Fits(line, cols) && line.text != ""
    ensures AreRowsOf(Format(line, cols, space), line, cols, space)
  {
    var indent := Indent(line.name, cols);
    var named := PlaceAll(Start(line), NameFragments(line.name), cols, false, indent);
    NameRows(line, cols);
    hide Place, PlaceAll, PlaceText, PlaceNarrow, NameFragments, AddsText, AreRowsOf, IsNameLayout;
    if IsWide(line.name, cols) {
      var first, more := TextRows(named, line.text, cols, indent, space);
      RowsOfText(line, named, PlaceText(named, line.text, cols, indent, space), first, more, cols, space);
    } else {
      NameColumn(line, named, cols);
      var first, more := NarrowRows(named, line.text, cols, space);
      RowsOfText(line, named, PlaceNarrow(named, line.text, cols), first, more, cols, space);
    }
  }

  lemma NameColumn(line: ChatLine, named: Layout, cols: nat)
    requires Fits(line, cols) && !IsWide(line.name, cols) && named.column == NamedLength(line.name) % cols
    ensures named.column < cols && (|line.text| <= cols - named.column || cols == 1)
  {}

  lemma RowsOfText(line: ChatLine, named: Layout, r: Layout, first: FormattedLine, more: seq<FormattedLine>, cols: nat,
                   space: char -> bool)
    requires cols >= 1 && IsNameLayout(named, cols)
    requires |named.rows| == NamedLength(line.name) / cols && named.column == NamedLength(line.name) % cols
    requires AddsText(named, r, first, more, line.text, cols, TextColumn(line.name, cols), space)
    ensures Finish(r) == r.rows && AreRowsOf(r.rows, line, cols, space)
  {
    hide IsTextRow, RowText, TextColumn, IsFullRow, AreTextRows;
    var t := |named.rows|;
    assert r.rows[t] == first && r.rows[t + 1..] == more && r.rows[..t] == named.rows;
    assert IsNameRest(named.row, named.column);
  }

  /**
   * Without text there are the rows of the name, the last of which may be incomplete; without either, one empty row.
   */
  lemma RowsOfName(line: ChatLine, cols: nat, space: char -> bool)
    requires Fits(line, cols) && line.text == ""
    ensures var rows, name := Format(line, cols, space), NamedLength(line.name);
            && |rows| == (if name > 0 && name % cols == 0 then name / cols else name / cols + 1)
            && (forall i :: 0 <= i < name / cols ==> IsFullRow(rows[i].fragments, cols))
            && (name % cols > 0 ==> rows[|rows| - 1].fragments != [] && rows[|rows| - 1].fragments[0].column == 0)
  {
    var named := PlaceAll(Start(line), NameFragments(line.name), cols, false, Indent(line.name, cols));
    NameRows(line, cols);
    hide Place, PlaceAll, NameFragments;
    assert Format(line, cols, space) == Finish(named);
  }
}
