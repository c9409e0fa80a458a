/** The chat scrollback: unformatted lines, their formatted copy, and the scroll position. */
module ChatBuffers {
  import opened ChatFormat
  import opened ChatLoop
  import opened Options

  // ----- rows of many lines -----

  /** The images of all elements, one after the other. */
  function Flat<A, B>(f: A -> seq<B>, xs: seq<A>): seq<B> {
    if xs == [] then [] else Flat(f, xs[..|xs| - 1]) + f(xs[|xs| - 1])
  }

  lemma {:induction false} FlatAppend<A, B>(f: A -> seq<B>, xs: seq<A>, ys: seq<A>)
    ensures Flat(f, xs + ys) == Flat(f, xs) + Flat(f, ys)
  {
    if ys == [] {
      assert xs + ys == xs;
    } else {
      var n := |ys| - 1;
      assert (xs + ys)[..|xs + ys| - 1] == xs + ys[..n];
      FlatAppend(f, xs, ys[..n]);
    }
  }

  lemma FlatSplit<A, B>(f: A -> seq<B>, xs: seq<A>, n: nat)
    requires n <= |xs|
    ensures |Flat(f, xs[..n])| <= |Flat(f, xs)|
    ensures Flat(f, xs)[..|Flat(f, xs[..n])|] == Flat(f, xs[..n])
        && Flat(f, xs)[|Flat(f, xs[..n])|..] == Flat(f, xs[n..])
  {
    assert xs == xs[..n] + xs[n..];
    FlatAppend(f, xs[..n], xs[n..]);
  }

  lemma FlatStep<A, B>(f: A -> seq<B>, xs: seq<A>, i: nat)
    requires i < |xs|
    ensures Flat(f, xs[..i + 1]) == Flat(f, xs[..i]) + f(xs[i])
  {
    assert xs[..i + 1][..i] == xs[..i];
  }

  lemma FlatOne<A, B>(f: A -> seq<B>, x: A)
    ensures Flat(f, [x]) == f(x)
  {
    assert [x][..0] == [];
  }

  ghost predicate AllFit(lines: seq<ChatLine>, cols: nat) {
    forall i :: 0 <= i < |lines| ==> Fits(lines[i], cols)
  }

  function Formatter(cols: nat, space: char -> bool): ChatLine -> seq<FormattedLine> {
    (line: ChatLine) => if Fits(line, cols) then Format(line, cols, space) else []
  }

  /** One line's rows: the first is marked and no other. */
  ghost predicate IsMarked(rows: seq<FormattedLine>) {
    |rows| >= 1 && forall i :: 0 <= i < |rows| ==> (rows[i].first <==> i == 0)
  }

  ghost predicate AllMarked(f: ChatLine -> seq<FormattedLine>, lines: seq<ChatLine>) {
    forall i :: 0 <= i < |lines| ==> IsMarked(f(lines[i]))
  }

  lemma FormatterMarks(lines: seq<ChatLine>, cols: nat, space: char -> bool)
    requires AllFit(lines, cols)
    ensures AllMarked(Formatter(cols, space), lines)
  {
    forall i | 0 <= i < |lines| ensures IsMarked(Formatter(cols, space)(lines[i])) {
      FormatKeepsText(lines[i], cols, space);
    }
  }

  // ----- deleting from the front -----

  /** The rows of line `n` start at its marked row and reach to the next marked row. */
  lemma LineRows(f: ChatLine -> seq<FormattedLine>, lines: seq<ChatLine>, n: nat)
    requires AllMarked(f, lines) && n < |lines|
    ensures var all, p, q := Flat(f, lines), |Flat(f, lines[..n])|, |Flat(f, lines[..n + 1])|;
            && p < q <= |all| && all[p].first
            && (forall i :: p < i < q ==> !all[i].first)
            && (q < |all| ==> all[q].first)
  {
    var all, p, q := Flat(f, lines), |Flat(f, lines[..n])|, |Flat(f, lines[..n + 1])|;
    assert lines[..n + 1] == lines[..n] + [lines[n]];
    FlatAppend(f, lines[..n], [lines[n]]);
    FlatOne(f, lines[n]);
    FlatSplit(f, lines, n + 1);
    assert all[..q] == Flat(f, lines[..n]) + f(lines[n]);
    forall i | p <= i < q ensures all[i] == f(lines[n])[i - p] { assert all[i] == all[..q][i]; }
    if q < |all| {
      assert all[q] == Flat(f, lines[n + 1..])[0];
      FirstIsMarked(f, lines[n + 1..]);
    }
  }

  lemma FirstIsMarked(f: ChatLine -> seq<FormattedLine>, lines: seq<ChatLine>)
    requires AllMarked(f, lines) && Flat(f, lines) != []
    ensures Flat(f, lines)[0].first
  {
    if lines != [] {
      assert lines == [lines[0]] + lines[1..];
      FlatAppend(f, [lines[0]], lines[1..]);
      FlatOne(f, lines[0]);
    }
  }

  /** The counting loop of `deleteOldest`: how many rows the oldest `count` lines take. */
  method CountOldest(lines: seq<ChatLine>, formatted: seq<FormattedLine>, count: nat,
                     ghost f: ChatLine -> seq<FormattedLine>)
      returns (delUnformatted: nat, delFormatted: nat)
    requires formatted == [] || (formatted == Flat(f, lines) && AllMarked(f, lines))
    ensures delUnformatted == if count < |lines| then count else |lines|
    ensures delFormatted == if formatted == [] then 0 else |Flat(f, lines[..delUnformatted])|
    ensures delFormatted <= |formatted|
  {
    delUnformatted, delFormatted := 0, 0;
    var left := count;
    while left > 0 && delUnformatted < |lines|
      invariant delUnformatted + left == count && delUnformatted <= |lines|
      invariant delFormatted == if formatted == [] then 0 else |Flat(f, lines[..delUnformatted])|
    {
      if formatted != [] { LineRows(f, lines, delUnformatted); }
      delUnformatted := delUnformatted + 1;
      if delFormatted < |formatted| {
        delFormatted := NextFirst(formatted, delFormatted);
      }
      left := left - 1;
    }
    if formatted != [] { FlatSplit(f, lines, delUnformatted); }
  }

  method NextFirst(formatted: seq<FormattedLine>, from: nat) returns (next: nat)
    requires from < |formatted| && formatted[from].first
    ensures from < next <= |formatted| && (forall i :: from < i < next ==> !formatted[i].first)
    ensures next < |formatted| ==> formatted[next].first
  {
    next := from + 1;
    while next < |formatted| && !formatted[next].first
      invariant from < next <= |formatted| && forall i :: from < i < next ==> !formatted[i].first
    {
      next := next + 1;
    }
  }

  // ----- scroll limits -----

  function BottomPos(count: nat, rows: nat): int {
    if rows == 0 then 0 else count - rows
  }

  function TopPos(count: nat, rows: nat): int {
    if rows == 0 then 0 else if count <= rows then count - rows else 0
  }

  /**
   * At the bottom the last console row shows the last formatted row. At the top of a buffer longer than the console its
   * first row shows the first formatted row; a shorter buffer has one position only.
   */
  lemma EndsShown(formatted: seq<FormattedLine>, rows: nat)
    requires rows > 0 && formatted != []
    ensures var count := |formatted|;
            && RowAt(formatted, BottomPos(count, rows), rows - 1) == Some(formatted[count - 1])
            && RowAt(formatted, BottomPos(count, rows), rows) == None
            && (count > rows ==> RowAt(formatted, TopPos(count, rows), 0) == Some(formatted[0]))
            && (count > rows ==> RowAt(formatted, TopPos(count, rows) - 1, 0) == None)
            && (count <= rows ==> TopPos(count, rows) == BottomPos(count, rows))
  {}

  /** `scrollAbsolute`: the position nearest to the requested one that keeps the console filled. */
  function Clamp(scroll: int, count: nat, rows: nat): (s: int)
    ensures TopPos(count, rows) <= s <= BottomPos(count, rows)
    ensures TopPos(count, rows) <= scroll <= BottomPos(count, rows) ==> s == scroll
    ensures scroll < TopPos(count, rows) ==> s == TopPos(count, rows)
    ensures scroll > BottomPos(count, rows) ==> s == BottomPos(count, rows)
  {
    var top, bottom := TopPos(count, rows), BottomPos(count, rows);
    var s := if scroll < top then top else scroll;
    if s > bottom then bottom else s
  }

  // ----- restoring the scroll position -----

  /** How many lines start in these rows. */
  function Firsts(rows: seq<FormattedLine>): nat {
    if rows == [] then 0 else Firsts(rows[..|rows| - 1]) + if rows[|rows| - 1].first then 1 else 0
  }

  lemma {:induction false} FirstsAppend(a: seq<FormattedLine>, b: seq<FormattedLine>)
    ensures Firsts(a + b) == Firsts(a) + Firsts(b)
  {
    if b == [] {
      assert a + b == a;
    } else {
      assert (a + b)[..|a + b| - 1] == a + b[..|b| - 1];
      FirstsAppend(a, b[..|b| - 1]);
    }
  }

  lemma {:induction false} FirstsOfMarked(rows: seq<FormattedLine>)
    requires IsMarked(rows)
    ensures Firsts(rows) == 1
  {
    if |rows| > 1 { FirstsOfMarked(rows[..|rows| - 1]); }
  }

  lemma {:induction false} FirstsOfLines(f: ChatLine -> seq<FormattedLine>, lines: seq<ChatLine>)
    requires AllMarked(f, lines)
    ensures Firsts(Flat(f, lines)) == |lines|
  {
    if lines != [] {
      var n := |lines| - 1;
      FirstsOfLines(f, lines[..n]);
      FirstsOfMarked(f(lines[n]));
      FirstsAppend(Flat(f, lines[..n]), f(lines[n]));
    }
  }

  /** Where a scroll position lands when the rows are produced by `g` instead of `f`. */
  function RestorePos(rows: seq<FormattedLine>, scroll: int, lines: seq<ChatLine>,
                      g: ChatLine -> seq<FormattedLine>): nat
    requires scroll <= |rows|
  {
    var k := if scroll < 0 then 0 else Firsts(rows[..scroll]);
    if k < |lines| then |Flat(g, lines[..k])| else 0
  }

  /** Line `n` is the first that begins at or after the position; `n` is past the last line if none does. */
  ghost predicate IsNextLine(f: ChatLine -> seq<FormattedLine>, lines: seq<ChatLine>, scroll: int, n: nat) {
    && n <= |lines| && scroll <= |Flat(f, lines[..n])|
    && (n > 0 ==> |Flat(f, lines[..n - 1])| < scroll)
  }

  /** Every position has such a line. */
  lemma {:induction false} NextLineExists(f: ChatLine -> seq<FormattedLine>, lines: seq<ChatLine>, scroll: int, m: nat)
    requires m <= |lines| && scroll <= |Flat(f, lines[..m])|
    ensures exists n: nat :: IsNextLine(f, lines, scroll, n)
  {
    if m == 0 || |Flat(f, lines[..m - 1])| < scroll {
      assert IsNextLine(f, lines, scroll, m);
    } else {
      NextLineExists(f, lines, scroll, m - 1);
    }
  }

  /** A view restarts at the first line that began at or after it, and at the top if there is none. */
  lemma RestoresNextLine(f: ChatLine -> seq<FormattedLine>, g: ChatLine -> seq<FormattedLine>, lines: seq<ChatLine>,
                         scroll: int, n: nat)
    requires AllMarked(f, lines) && scroll <= |Flat(f, lines)| && IsNextLine(f, lines, scroll, n)
    ensures RestorePos(Flat(f, lines), scroll, lines, g) == if n < |lines| then |Flat(g, lines[..n])| else 0
  {
    if n > 0 { FirstsBefore(f, lines, scroll, n); }
  }

  lemma FirstsBefore(f: ChatLine -> seq<FormattedLine>, lines: seq<ChatLine>, scroll: nat, n: nat)
    requires AllMarked(f, lines) && scroll <= |Flat(f, lines)| && 0 < n && IsNextLine(f, lines, scroll, n)
    ensures Firsts(Flat(f, lines)[..scroll]) == n
  {
    var all, p := Flat(f, lines), |Flat(f, lines[..n - 1])|;
    FlatStep(f, lines, n - 1);
    FlatSplit(f, lines, n);
    var rows := f(lines[n - 1])[..scroll - p];
    assert all[..scroll] == all[..|Flat(f, lines[..n])|][..scroll] == Flat(f, lines[..n - 1]) + rows;
    assert IsMarked(rows);
    FirstsAppend(Flat(f, lines[..n - 1]), rows);
    FirstsOfLines(f, lines[..n - 1]);
    FirstsOfMarked(rows);
  }

  // ----- the buffer -----

  /** Without a console there are no rows; with one they are the formatted lines. */
  ghost predicate IsCache(formatted: seq<FormattedLine>, lines: seq<ChatLine>, cols: nat, rows: nat,
                          space: char -> bool) {
    if rows == 0 then formatted == []
    else cols > 0 && AllFit(lines, cols) && formatted == Flat(Formatter(cols, space), lines)
  }

  /** How many rows the first `n` lines take. */
  function RowsOf(lines: seq<ChatLine>, n: nat, cols: nat, rows: nat, space: char -> bool): nat
    requires n <= |lines|
  {
    if rows == 0 then 0 else |Flat(Formatter(cols, space), lines[..n])|
  }

  lemma NoRows(lines: seq<ChatLine>, cols: nat, rows: nat, space: char -> bool)
    ensures RowsOf(lines, 0, cols, rows, space) == 0
  {}

  /** The scroll position after appending rows and then deleting `del` of them, which happens only if lines go. */
  lemma LimitScroll(before: nat, middle: nat, del: nat, drop: nat, scroll: int, rows: nat)
    requires before <= middle && del <= middle && (drop == 0 ==> del == 0) && (rows == 0 ==> middle == 0)
    ensures var appended := if scroll == BottomPos(before, rows) then BottomPos(middle, rows) else scroll;
            var after := if appended == BottomPos(middle, rows) then BottomPos(middle - del, rows)
                         else if drop == 0 then appended else Clamp(appended - del, middle - del, rows);
            && after == (if scroll == BottomPos(before, rows) then BottomPos(middle - del, rows)
                         else if drop == 0 then scroll else Clamp(scroll - del, middle - del, rows))
            && (TopPos(before, rows) <= scroll <= BottomPos(before, rows) ==>
                  TopPos(middle - del, rows) <= after <= BottomPos(middle - del, rows))
  {}

  /** How many of the oldest go, so that the limit holds: none too many, and none more than that. */
  function Excess<T>(s: seq<T>, limit: nat): (n: nat)
    ensures n <= |s| && |s| - n <= limit && (n > 0 ==> |s| - n == limit)
  {
    if |s| > limit then |s| - limit else 0
  }

  lemma DropLines(formatted: seq<FormattedLine>, lines: seq<ChatLine>, n: nat, cols: nat, rows: nat,
                  space: char -> bool)
    requires IsCache(formatted, lines, cols, rows, space) && n <= |lines|
    ensures RowsOf(lines, n, cols, rows, space) <= |formatted|
    ensures IsCache(formatted[RowsOf(lines, n, cols, rows, space)..], lines[n..], cols, rows, space)
  {
    FlatSplit(Formatter(cols, space), lines, n);
  }

  lemma AddLineRows(formatted: seq<FormattedLine>, lines: seq<ChatLine>, line: ChatLine, cols: nat, rows: nat,
                    space: char -> bool)
    requires IsCache(formatted, lines, cols, rows, space) && (rows > 0 ==> Fits(line, cols))
    ensures IsCache(if rows == 0 then [] else formatted + Format(line, cols, space), lines + [line], cols, rows, space)
  {
    if rows > 0 {
      FlatAppend(Formatter(cols, space), lines, [line]);
      FlatOne(Formatter(cols, space), line);
    }
  }

  /** Counts the lines `deleteOldest` removes, and their rows. */
  method CountDeleted(lines: seq<ChatLine>, formatted: seq<FormattedLine>, count: nat, ghost cols: nat, ghost rows: nat,
                      ghost space: char -> bool)
      returns (delU: nat, delF: nat)
    requires IsCache(formatted, lines, cols, rows, space)
    ensures delU == (if count < |lines| then count else |lines|) && delF == RowsOf(lines, delU, cols, rows, space)
    ensures delF <= |formatted| && IsCache(formatted[delF..], lines[delU..], cols, rows, space)
  {
    ghost var f := Formatter(cols, space);
    if rows > 0 { FormatterMarks(lines, cols, space); }
    delU, delF := CountOldest(lines, formatted, count, f);
    DropLines(formatted, lines, delU, cols, rows, space);
  }

  class ChatBuffer {
    const space: char -> bool
    var scrollback: nat
    var unformatted: seq<ChatLine>
    var cols: nat
    var rows: nat
    var scroll: int
    var formatted: seq<FormattedLine>
    var linesModified: bool
    var delFormatted: nat
    var currentLineIndex: int

    /** The formatted rows are a cache of the unformatted lines, or there is no console. */
    ghost predicate Valid()
      reads this
    {
      && scroll <= |formatted|
      && (rows == 0 ==> cols == 0 && scroll == 0)
      && IsCache(formatted, unformatted, cols, rows, space)
    }

    ghost predicate InRange()
      reads this
    {
      TopPos(|formatted|, rows) <= scroll <= BottomPos(|formatted|, rows)
    }

    predicate AtBottom()
      reads this
    {
      scroll == BottomPos(|formatted|, rows)
    }

    constructor (scrollback: nat, space: char -> bool)
      ensures Valid() && InRange() && rows == 0 && unformatted == [] && this.scrollback ==
          if scrollback == 0 then 1 else scrollback
      ensures this.space == space
    {
      this.space := space;
      this.scrollback := if scrollback == 0 then 1 else scrollback;
      unformatted, cols, rows, scroll, formatted := [], 0, 0, 0, [];
      linesModified, delFormatted, currentLineIndex := true, 0, 0;
    }

    method DeleteOldest(count: nat)
      requires Valid()
      modifies this
      ensures Valid() && cols == old(cols) && rows == old(rows) && scrollback == old(scrollback)
          && currentLineIndex == old(currentLineIndex)
      ensures var n := if count < old(|unformatted|) then count else old(|unformatted|);
              var del := RowsOf(old(unformatted), n, cols, rows, space);
              && unformatted == old(unformatted)[n..]
              && delFormatted == old(delFormatted) + del && del <= |old(formatted)|
                    && formatted == old(formatted)[del..]
              && scroll == (if old(AtBottom()) then BottomPos(|formatted|, rows)
                    else Clamp(old(scroll) - del, |formatted|, rows))
              && (linesModified <==> old(linesModified) || n > 0)
    {
      hide IsCache, RowsOf;
      var atBottom := AtBottom();
      var delU, delF := CountDeleted(unformatted, formatted, count, cols, rows, space);
      unformatted := unformatted[delU..];
      formatted := formatted[delF..];
      if delU > 0 { linesModified := true; }
      scroll := if atBottom then BottomPos(|formatted|, rows) else Clamp(scroll - delF, |formatted|, rows);
      delFormatted := delFormatted + delF;
    }

    /** Appends a line and its rows; a view at the bottom follows it. */
    method AppendLine(line: ChatLine)
      requires Valid() && (rows > 0 ==> Fits(line, cols))
      modifies this
      ensures Valid() && cols == old(cols) && rows == old(rows) && scrollback == old(scrollback)
          && delFormatted == old(delFormatted)
      ensures unformatted == old(unformatted) + [line] && currentLineIndex == old(currentLineIndex) + 1 && linesModified
      ensures formatted == if rows == 0 then [] else old(formatted) + Format(line, cols, space)
      ensures scroll == if old(AtBottom()) then BottomPos(|formatted|, rows) else old(scroll)
    {
      linesModified := true;
      AddLineRows(formatted, unformatted, line, cols, rows, space);
      unformatted := unformatted + [line];
      currentLineIndex := currentLineIndex + 1;
      if rows > 0 {
        var scrolledAtBottom := AtBottom();
        var numAdded;
        formatted, numAdded := FormatChatLine(line, cols, formatted, space);
        if scrolledAtBottom { scroll := scroll + numAdded; }
      }
    }

    /** Drops the oldest lines beyond the scrollback. */
    method LimitLines()
      requires Valid()
      modifies this
      ensures Valid() && cols == old(cols) && rows == old(rows) && scrollback == old(scrollback)
          && currentLineIndex == old(currentLineIndex)
      ensures var drop := Excess(old(unformatted), scrollback);
              var del := RowsOf(old(unformatted), drop, cols, rows, space);
              && unformatted == old(unformatted)[drop..]
              && delFormatted == old(delFormatted) + del && del <= |old(formatted)|
                    && formatted == old(formatted)[del..]
              && scroll == (if old(AtBottom()) then BottomPos(|formatted|, rows)
                            else if drop == 0 then old(scroll) else Clamp(old(scroll) - del, |formatted|, rows))
      ensures old(linesModified) ==> linesModified
    {
      NoRows(unformatted, cols, rows, space);
      hide IsCache, RowsOf, Clamp;
      if |unformatted| > scrollback { DeleteOldest(|unformatted| - scrollback); }
    }

    /** `addLine`: lines beyond the scrollback limit go. */
    method AddLine(name: string, text: string)
      requires Valid() && (rows > 0 ==> Fits(ChatLine(name, text, currentLineIndex), cols))
      modifies this
      ensures Valid() && cols == old(cols) && rows == old(rows) && scrollback == old(scrollback)
      ensures currentLineIndex == old(currentLineIndex) + 1 && linesModified
      ensures var all := old(unformatted) + [ChatLine(name, text, old(currentLineIndex))];
              var drop := Excess(all, scrollback);
              var del := RowsOf(all, drop, cols, rows, space);
              && unformatted == all[drop..] && delFormatted == old(delFormatted) + del
              && (!old(AtBottom()) ==> scroll == if drop == 0 then old(scroll)
                    else Clamp(old(scroll) - del, |formatted|, rows))
      ensures (old(AtBottom()) ==> AtBottom()) && (old(InRange()) ==> InRange())
      ensures rows > 0 && old(InRange()) && !old(AtBottom()) && old(scroll) >= delFormatted - old(delFormatted) ==>
                View(formatted, scroll, rows) == View(old(formatted), old(scroll), rows)
                    && IsFull(View(formatted, scroll, rows))
    {
      var line := ChatLine(name, text, currentLineIndex);
      ghost var before, s0, deleted := formatted, scroll, delFormatted;
      ghost var upward := rows > 0 && TopPos(|before|, rows) <= s0 < BottomPos(|before|, rows);
      ghost var added := if rows > 0 then Format(line, cols, space) else [];
      NoRows(unformatted + [line], cols, rows, space);
      hide Format, RowsOf, View, IsFull, IsCache, AllFit, Fits, Clamp, Excess;
      AppendLimited(line);
      if upward { ViewKept(before, added, delFormatted - deleted, s0, formatted, scroll, rows); }
    }

    method AppendLimited(line: ChatLine)
      requires Valid() && (rows > 0 ==> Fits(line, cols))
      modifies this
      ensures Valid() && cols == old(cols) && rows == old(rows) && scrollback == old(scrollback)
      ensures currentLineIndex == old(currentLineIndex) + 1 && linesModified
      ensures var all := old(unformatted) + [line];
              var drop := Excess(all, scrollback);
              var del := RowsOf(all, drop, cols, rows, space);
              var more := if rows == 0 then [] else old(formatted) + Format(line, cols, space);
              && unformatted == all[drop..] && delFormatted == old(delFormatted) + del
              && del <= |more| && formatted == more[del..]
              && scroll == (if old(AtBottom()) then BottomPos(|formatted|, rows)
                            else if drop == 0 then old(scroll) else Clamp(old(scroll) - del, |formatted|, rows))
      ensures old(InRange()) ==> InRange()
    {
      assert rows == 0 ==> formatted == [];
      hide Format, IsCache, AllFit, Fits;
      ghost var all, before, s0 := unformatted + [line], |formatted|, scroll;
      NoRows(all, cols, rows, space);
      hide RowsOf, Clamp, TopPos, BottomPos;
      AppendLine(line);
      ghost var middle := |formatted|;
      LimitLines();
      LimitScroll(before, middle, middle - |formatted|, Excess(all, scrollback), s0, rows);
    }

    /** Forgets everything; with a console open this leaves the scroll position past the bottom. */
    method Clear()
      requires Valid()
      modifies this
      ensures Valid() && unformatted == [] && formatted == [] && currentLineIndex == 0 && scroll == 0 && linesModified
      ensures cols == old(cols) && rows == old(rows) && scrollback == old(scrollback)
          && delFormatted == old(delFormatted)
      ensures InRange() <==> rows == 0
    {
      hide Format, Formatter, Fits, RowsOf, Clamp;
      unformatted, formatted, currentLineIndex, scroll, linesModified := [], [], 0, 0, true;
    }

    method Resize(limit: nat)
      requires Valid()
      modifies this
      ensures Valid() && cols == old(cols) && rows == old(rows) && scrollback == limit
          && currentLineIndex == old(currentLineIndex)
      ensures unformatted == old(unformatted)[Excess(old(unformatted), limit)..]
      ensures (old(InRange()) ==> InRange()) && (old(AtBottom()) ==> AtBottom())
    {
      scrollback := limit;
      LimitLines();
    }

    method ScrollAbsolute(to: int)
      modifies this`scroll
      ensures InRange() && scroll == Clamp(to, |formatted|, rows)
    {
      var top, bottom := TopPos(|formatted|, rows), BottomPos(|formatted|, rows);
      scroll := to;
      if scroll < top { scroll := top; }
      if scroll > bottom { scroll := bottom; }
    }

    method Scroll(step: int)
      requires Valid()
      modifies this`scroll
      ensures Valid() && InRange() && scroll == Clamp(old(scroll) + step, |formatted|, rows)
    {
      ScrollAbsolute(scroll + step);
    }

    /** The row shown on console row `row`, if it holds any. */
    method GetFormattedLine(row: nat) returns (line: Option<FormattedLine>)
      ensures line == RowAt(formatted, scroll, row)
    {
      var index := scroll + row;
      line := if 0 <= index < |formatted| then Some(formatted[index]) else None;
    }

    /** Updates the console size; a new width reflows every line. */
    method Reformat(newCols: nat, newRows: nat)
      requires Valid() && (newCols > 0 && newRows > 0 && newCols != cols ==> AllFit(unformatted, newCols))
      modifies this
      ensures Valid() && unformatted == old(unformatted) && scrollback == old(scrollback)
          && currentLineIndex == old(currentLineIndex)
      ensures if newCols == 0 || newRows == 0 then rows == 0 && formatted == [] && scroll == 0
              else rows == newRows && cols == newCols
      ensures old(InRange()) ==> InRange()
      ensures newCols > 0 && newRows > 0 && !(newCols == old(cols) && newRows == old(rows)) ==>
                scroll == if old(AtBottom()) then BottomPos(|formatted|, rows)
                          else Clamp(if newCols == old(cols) then 0
                                     else RestorePos(old(formatted), old(scroll), unformatted,
                                         Formatter(newCols, space)), |formatted|, rows)
      ensures newCols > 0 && newRows > 0 && old(rows) > 0 && newCols != old(cols) && !old(AtBottom()) ==>
                forall n: nat :: IsNextLine(Formatter(old(cols), space), unformatted, old(scroll), n) ==>
                  scroll == Clamp(if n < |unformatted| then RowsOf(unformatted, n, cols, rows, space)
                      else 0, |formatted|, rows)
      ensures old(rows) > 0 ==> exists n: nat :: IsNextLine(Formatter(old(cols), space), unformatted, old(scroll), n)
      ensures newCols == old(cols) && newRows == old(rows) ==> formatted == old(formatted) && scroll == old(scroll)
    {
      if rows > 0 {
        assert unformatted[..|unformatted|] == unformatted;
        NextLineExists(Formatter(cols, space), unformatted, scroll, |unformatted|);
      }
      if newCols == 0 || newRows == 0 {
        cols, rows, scroll, formatted := 0, 0, 0, [];
      } else if newCols != cols || newRows != rows {
        ghost var f, g, was := Formatter(cols, space), Formatter(newCols, space), scroll;
        if rows > 0 && newCols != cols { NextLines(f, g, unformatted, cols, space, was); }
        var atBottom := AtBottom();
        var restoreUnformatted := 0;
        if !atBottom { restoreUnformatted := CountFirsts(formatted, scroll); }
        var restoreFormatted := 0;
        if newCols != cols {
          formatted, restoreFormatted := ReflowAll(unformatted, newCols, restoreUnformatted, space);
        }
        cols, rows := newCols, newRows;
        if atBottom {
          scroll := BottomPos(|formatted|, rows);
        } else {
          ScrollAbsolute(restoreFormatted);
        }
      }
    }
  }

  lemma NextLines(f: ChatLine -> seq<FormattedLine>, g: ChatLine -> seq<FormattedLine>, lines: seq<ChatLine>, cols: nat,
                  space: char -> bool, scroll: int)
    requires f == Formatter(cols, space) && AllFit(lines, cols) && scroll <= |Flat(f, lines)|
    ensures forall n: nat :: IsNextLine(f, lines, scroll, n) ==>
              RestorePos(Flat(f, lines), scroll, lines, g) == if n < |lines| then |Flat(g, lines[..n])| else 0
  {
    FormatterMarks(lines, cols, space);
    forall n: nat | IsNextLine(f, lines, scroll, n)
      ensures RestorePos(Flat(f, lines), scroll, lines, g) == if n < |lines| then |Flat(g, lines[..n])| else 0
    {
      RestoresNextLine(f, g, lines, scroll, n);
    }
  }

  function RowAt(formatted: seq<FormattedLine>, scroll: int, row: nat): Option<FormattedLine> {
    if 0 <= scroll + row < |formatted| then Some(formatted[scroll + row]) else None
  }

  /** What the console shows, row by row. */
  function View(formatted: seq<FormattedLine>, scroll: int, rows: nat): seq<Option<FormattedLine>> {
    seq(rows, r requires 0 <= r < rows => RowAt(formatted, scroll, r))
  }

  ghost predicate IsFull(view: seq<Option<FormattedLine>>) {
    forall r :: 0 <= r < |view| ==> view[r].Some?
  }

  lemma ViewKept(before: seq<FormattedLine>, added: seq<FormattedLine>, del: nat, scroll: int,
                 after: seq<FormattedLine>, next: int, rows: nat)
    requires rows > 0 && TopPos(|before|, rows) <= scroll < BottomPos(|before|, rows)
    requires del <= |before + added| && after == (before + added)[del..]
    requires next == Clamp(scroll - del, |after|, rows) || (del == 0 && next == scroll)
    ensures scroll >= del ==> View(after, next, rows) == View(before, scroll, rows) && IsFull(View(after, next, rows))
  {
    ScrolledUpKept(before, added, del, scroll, rows);
  }

  /** A scrolled-up view shows the same rows after rows were added at the end, and removed before it. */
  lemma ScrolledUpKept(before: seq<FormattedLine>, added: seq<FormattedLine>, del: nat, scroll: int, rows: nat)
    requires rows > 0 && TopPos(|before|, rows) <= scroll < BottomPos(|before|, rows) && del <= |before + added|
    ensures var after := (before + added)[del..];
            var next := Clamp(scroll - del, |after|, rows);
            && TopPos(|before + added|, rows) <= scroll < BottomPos(|before + added|, rows)
            && (scroll >= del ==> next == scroll - del && View(after, next, rows) == View(before, scroll, rows))
            && (scroll >= del ==> IsFull(View(after, next, rows)))
  {
    var after := (before + added)[del..];
    if scroll >= del {
      forall r | 0 <= r < rows
          ensures RowAt(after, scroll - del, r).Some? && RowAt(after, scroll - del, r) == RowAt(before, scroll, r) {
        assert after[scroll - del + r] == (before + added)[scroll + r] == before[scroll + r];
      }
    }
  }

  /** How many lines begin above the scroll position. */
  method CountFirsts(formatted: seq<FormattedLine>, scroll: int) returns (n: nat)
    requires scroll <= |formatted|
    ensures n == if scroll < 0 then 0 else Firsts(formatted[..scroll])
  {
    n := 0;
    for i := 0 to if scroll < 0 then 0 else scroll
      invariant n == Firsts(formatted[..i])
    {
      assert formatted[..i + 1][..i] == formatted[..i];
      if formatted[i].first { n := n + 1; }
    }
  }

  lemma FitsAt(lines: seq<ChatLine>, i: nat, cols: nat, space: char -> bool)
    requires AllFit(lines, cols) && i < |lines|
    ensures Fits(lines[i], cols) && Formatter(cols, space)(lines[i]) == Format(lines[i], cols, space)
  {}

  /** Formats every line for the new width and notes where line `restore` starts. */
  method ReflowAll(lines: seq<ChatLine>, cols: nat, restore: nat,
                   space: char -> bool) returns (formatted: seq<FormattedLine>, restored: nat)
    requires cols > 0 && AllFit(lines, cols)
    ensures formatted == Flat(Formatter(cols, space), lines)
    ensures restored == if restore < |lines| then |Flat(Formatter(cols, space), lines[..restore])| else 0
  {
    AllRowsBefore(Formatter(cols, space), lines);
    formatted, restored := ReflowRows(lines, cols, restore, space);
  }

  method ReflowRows(lines: seq<ChatLine>, cols: nat, restore: nat, space: char -> bool)
      returns (formatted: seq<FormattedLine>, restored: nat)
    requires cols > 0 && AllFit(lines, cols)
    ensures var f := Formatter(cols, space);
            && formatted == RowsBefore(f, lines, |lines|)
            && restored == if restore < |lines| then |RowsBefore(f, lines, restore)| else 0
  {
    formatted, restored := [], 0;
    ghost var f := Formatter(cols, space);
    AllRowsBefore(f, lines);
    hide Format, Formatter, AllFit, Fits, RowsBefore, Flat;
    for i := 0 to |lines|
      invariant formatted == RowsBefore(f, lines, i)
      invariant restored == if restore < i then |RowsBefore(f, lines, restore)| else 0
    {
      if i == restore { restored := |formatted|; }
      formatted := FormatNext(lines, i, cols, formatted, space);
    }
  }

  method FormatNext(lines: seq<ChatLine>, i: nat, cols: nat, before: seq<FormattedLine>, space: char -> bool)
      returns (formatted: seq<FormattedLine>)
    requires i < |lines| && AllFit(lines, cols) && before == RowsBefore(Formatter(cols, space), lines, i)
    ensures formatted == RowsBefore(Formatter(cols, space), lines, i + 1)
  {
    FitsAt(lines, i, cols, space);
    RowsBeforeNext(Formatter(cols, space), lines, i);
    hide Format, Formatter, AllFit, Fits, RowsBefore, Flat;
    var numAdded;
    formatted, numAdded := FormatChatLine(lines[i], cols, before, space);
  }

  function RowsBefore(f: ChatLine -> seq<FormattedLine>, lines: seq<ChatLine>, n: nat): seq<FormattedLine>
    requires n <= |lines|
  {
    Flat(f, lines[..n])
  }

  lemma RowsBeforeNext(f: ChatLine -> seq<FormattedLine>, lines: seq<ChatLine>, i: nat)
    requires i < |lines|
    ensures RowsBefore(f, lines, i + 1) == RowsBefore(f, lines, i) + f(lines[i])
  {
    FlatStep(f, lines, i);
  }

  lemma AllRowsBefore(f: ChatLine -> seq<FormattedLine>, lines: seq<ChatLine>)
    ensures RowsBefore(f, lines, 0) == [] && RowsBefore(f, lines, |lines|) == Flat(f, lines)
    ensures forall n: nat :: n < |lines| ==> RowsBefore(f, lines, n) == Flat(f, lines[..n])
  {
    assert lines[..|lines|] == lines;
  }
}
