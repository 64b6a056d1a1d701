/**
 Copying a selection to the clipboard. A selection is kept in absolute rows
 (scrollback, then screen) while a terminal shows only a viewport of them, so
 the copy scrolls from page to page, reads the rows it sees, scrolls back and
 joins the rows it read.
 */
module SelectionCopy {

  import opened Numbers

  datatype Mode = Normal | Block | Line | Word

  datatype Pos = Pos(row: nat, col: nat)

  datatype Selection = Selection(start: Pos, end: Pos, mode: Mode)

  // `softWrap` says that the terminal broke the line after this row.
  datatype Row = Row(cells: seq<string>, softWrap: bool)

  // ---------------------------------------------------------------------
  // Which cells are selected
  // ---------------------------------------------------------------------

  // The two ends in reading order.
  function Ordered(sel: Selection): (Pos, Pos) {
    if sel.start.row < sel.end.row || (sel.start.row == sel.end.row && sel.start.col <= sel.end.col)
    then (sel.start, sel.end)
    else (sel.end, sel.start)
  }

  predicate Contains(sel: Selection, row: nat, col: nat) {
    var (s, e) := Ordered(sel);
    match sel.mode
    case Line => s.row <= row <= e.row
    case Block => s.row <= row <= e.row && Min(s.col, e.col) <= col <= Max(s.col, e.col)
    case _ =>
      if s.row == e.row then row == s.row && s.col <= col <= e.col
      else if row == s.row then col >= s.col
      else if row == e.row then col <= e.col
      else s.row < row < e.row
  }

  // Not after it in reading order.
  predicate UpTo(p: Pos, q: Pos) {
    p.row < q.row || (p.row == q.row && p.col <= q.col)
  }

  // Whichever end was set first: in the reading modes the cells from one end to
  // the other, in line mode all of their rows, in block mode the rectangle with
  // the two ends in opposite corners.
  lemma SelectedCells(sel: Selection, row: nat, col: nat)
    ensures var (a, b, p) := (sel.start, sel.end, Pos(row, col));
            && (sel.mode == Normal || sel.mode == Word ==>
                  (Contains(sel, row, col) <==> (UpTo(a, p) && UpTo(p, b)) || (UpTo(b, p) && UpTo(p, a))))
            && (sel.mode == Line ==>
                  (Contains(sel, row, col) <==> a.row <= row <= b.row || b.row <= row <= a.row))
            && (sel.mode == Block ==>
                  (Contains(sel, row, col) <==>
                   && (a.row <= row <= b.row || b.row <= row <= a.row)
                   && (a.col <= col <= b.col || b.col <= col <= a.col)))
  {
  }

  // First and last column to read from a row.
  function Columns(sel: Selection, row: nat, cols: nat): (nat, nat) {
    var (s, e) := Ordered(sel);
    var last := if cols == 0 then 0 else cols - 1;
    match sel.mode
    case Line => (0, last)
    case Block => (Min(s.col, e.col), Min(Max(s.col, e.col), last))
    case _ => (if row == s.row then s.col else 0, if row == e.row then Min(e.col, last) else last)
  }

  lemma ColumnsAreTheSelectedOnes(sel: Selection, row: nat, col: nat, cols: nat)
    requires Ordered(sel).0.row <= row <= Ordered(sel).1.row && col < cols
    ensures Columns(sel, row, cols).0 <= col <= Columns(sel, row, cols).1 <==> Contains(sel, row, col)
    ensures Columns(sel, row, cols).1 < cols
  {
  }

  // The selected cells of a row from column `col` on, left to right.
  function Picked(sel: Selection, row: nat, cells: seq<string>, col: nat): string
    decreases |cells| - col
  {
    if col >= |cells| then ""
    else (if Contains(sel, row, col) then cells[col] else "") + Picked(sel, row, cells, col + 1)
  }

  lemma {:induction false} NothingPicked(sel: Selection, row: nat, cells: seq<string>, col: nat)
    requires forall c: nat :: col <= c < |cells| ==> !Contains(sel, row, c)
    ensures Picked(sel, row, cells, col) == ""
    decreases |cells| - col
  {
    if col < |cells| {
      NothingPicked(sel, row, cells, col + 1);
    }
  }

  // Cells first..end, read one by one.
  function Between(cells: seq<string>, first: nat, end: nat): string
    requires end <= |cells|
  {
    if first >= end then "" else Between(cells, first, end - 1) + cells[end - 1]
  }

  lemma {:induction false} BetweenFromFront(cells: seq<string>, first: nat, end: nat)
    requires first < end <= |cells|
    ensures Between(cells, first, end) == cells[first] + Between(cells, first + 1, end)
  {
    if first + 1 < end {
      BetweenFromFront(cells, first, end - 1);
    }
  }

  lemma {:induction false} BetweenIsPicked(sel: Selection, row: nat, cells: seq<string>, col: nat, first: nat, end: nat)
    requires end <= |cells| && col <= |cells|
    requires forall c: nat :: c < |cells| ==> (Contains(sel, row, c) <==> first <= c < end)
    ensures Picked(sel, row, cells, col) == Between(cells, Max(first, col), end)
    decreases |cells| - col
  {
    if col < |cells| {
      BetweenIsPicked(sel, row, cells, col + 1, first, end);
      if first <= col < end {
        BetweenFromFront(cells, col, end);
      }
    }
  }

  // With one character in each cell, the text of a row is its selected stretch,
  // character by character.
  lemma {:induction false} PickedByCharacter(sel: Selection, row: nat, cells: seq<string>, first: nat, end: nat)
    requires first <= end <= |cells| && forall c :: 0 <= c < |cells| ==> |cells[c]| == 1
    requires forall c: nat :: c < |cells| ==> (Contains(sel, row, c) <==> first <= c < end)
    ensures |Picked(sel, row, cells, 0)| == end - first
    ensures forall i :: 0 <= i < end - first ==> Picked(sel, row, cells, 0)[i] == cells[first + i][0]
  {
    BetweenIsPicked(sel, row, cells, 0, first, end);
    BetweenByCharacter(cells, first, end);
  }

  lemma {:induction false} BetweenByCharacter(cells: seq<string>, first: nat, end: nat)
    requires first <= end <= |cells| && forall c :: 0 <= c < |cells| ==> |cells[c]| == 1
    ensures |Between(cells, first, end)| == end - first
    ensures forall i :: 0 <= i < end - first ==> Between(cells, first, end)[i] == cells[first + i][0]
  {
    if first < end {
      BetweenByCharacter(cells, first, end - 1);
    }
  }

  method RowText(sel: Selection, row: nat, cells: seq<string>) returns (line: string)
    requires Ordered(sel).0.row <= row <= Ordered(sel).1.row
    ensures line == Picked(sel, row, cells, 0)
  {
    var (first, last) := Columns(sel, row, |cells|);
    var upper := Min(last, if |cells| == 0 then 0 else |cells| - 1);
    var end := Min(upper + 1, |cells|);
    line := "";
    if first < end {
      for c := first to end
        invariant line == Between(cells, first, c)
      {
        line := line + cells[c];
      }
    }
    forall c: nat | c < |cells|
      ensures Contains(sel, row, c) <==> first <= c < end
    {
      ColumnsAreTheSelectedOnes(sel, row, c, |cells|);
    }
    BetweenIsPicked(sel, row, cells, 0, first, end);
  }

  // ---------------------------------------------------------------------
  // Soft-wrapped rows
  // ---------------------------------------------------------------------

  // Number of cells that are a space at the end of the first k cells.
  function TrailingSpaces(cells: seq<string>, k: nat): (n: nat)
    requires k <= |cells|
    ensures n <= k
    ensures forall i :: k - n <= i < k ==> cells[i] == " "
    ensures n < k ==> cells[k - n - 1] != " "
  {
    if k > 0 && cells[k - 1] == " " then 1 + TrailingSpaces(cells, k - 1) else 0
  }

  // A row continues on the next if the terminal says so or, for rows before the
  // last selected one, if its content nearly fills it.
  predicate Wrapped(row: Row, notLast: bool) {
    || row.softWrap
    || (notLast && |row.cells| > 10 && TrailingSpaces(row.cells, |row.cells|) < |row.cells| / 5)
  }

  // Nearly full: of more than ten cells, one in the last fifth is not a space.
  lemma WrappedIffNearlyFull(row: Row, notLast: bool)
    ensures var n := |row.cells|;
            Wrapped(row, notLast) <==>
            row.softWrap || (notLast && n >= 11 && exists i :: n - n / 5 <= i < n && row.cells[i] != " ")
  {
    var n := |row.cells|;
    var spaces := TrailingSpaces(row.cells, n);
    if n >= 11 && spaces < n / 5 {
      assert row.cells[n - spaces - 1] != " ";
    }
  }

  method CountTrailingSpaces(cells: seq<string>) returns (n: nat)
    ensures n == TrailingSpaces(cells, |cells|)
  {
    n := 0;
    var k: nat := |cells|;
    while k > 0 && cells[k - 1] == " "
      invariant k <= |cells|
      invariant n + TrailingSpaces(cells, k) == TrailingSpaces(cells, |cells|)
    {
      n, k := n + 1, k - 1;
    }
  }

  method IsWrapped(row: Row, notLast: bool) returns (wrapped: bool)
    ensures wrapped == Wrapped(row, notLast)
  {
    if row.softWrap {
      return true;
    }
    if notLast && |row.cells| > 10 {
      var n := CountTrailingSpaces(row.cells);
      return n < |row.cells| / 5;
    }
    wrapped := false;
  }

  // ---------------------------------------------------------------------
  // Reading page by page
  // ---------------------------------------------------------------------

  // The selected rows before row `next`, straight from the scrollback.
  ghost predicate ReadUpTo(rows: seq<Row>, sel: Selection, lines: seq<string>, wraps: seq<bool>, next: nat) {
    var (s, e) := Ordered(sel);
    && s.row <= next <= e.row + 1 <= |rows|
    && |lines| == |wraps| == next - s.row
    && forall i :: 0 <= i < |lines| ==>
         && lines[i] == Picked(sel, s.row + i, rows[s.row + i].cells, 0)
         && wraps[i] == Wrapped(rows[s.row + i], s.row + i < e.row)
  }

  // What the copy should read: all selected rows.
  ghost predicate ReadDirectly(rows: seq<Row>, sel: Selection, lines: seq<string>, wraps: seq<bool>) {
    ReadUpTo(rows, sel, lines, wraps, Ordered(sel).1.row + 1)
  }

  // The first row the next page has to read.
  function NextCursor(total: nat, height: nat, last: nat, cursor: nat): nat
    requires 1 <= height <= total
  {
    Min(last, Clamp(cursor, total - height) + height - 1) + 1
  }

  function CursorAfter(total: nat, height: nat, last: nat, cursor: nat, pages: nat): nat
    requires 1 <= height <= total
    decreases pages
  {
    if pages == 0 || cursor > last then cursor
    else CursorAfter(total, height, last, NextCursor(total, height, last, cursor), pages - 1)
  }

  lemma {:induction false} OneMorePage(total: nat, height: nat, last: nat, cursor: nat, pages: nat)
    requires 1 <= height <= total
    ensures var c := CursorAfter(total, height, last, cursor, pages);
            c <= last ==> CursorAfter(total, height, last, cursor, pages + 1) == NextCursor(total, height, last, c)
    decreases pages
  {
    if pages > 0 && cursor <= last {
      OneMorePage(total, height, last, NextCursor(total, height, last, cursor), pages - 1);
    }
  }

  lemma {:induction false} PagesReachTheEnd(total: nat, height: nat, last: nat, cursor: nat)
    returns (pages: nat)
    requires 1 <= height <= total && last < total
    ensures CursorAfter(total, height, last, cursor, pages) > last
    decreases last - cursor
  {
    if cursor > last {
      pages := 0;
    } else {
      var more := PagesReachTheEnd(total, height, last, NextCursor(total, height, last, cursor));
      pages := more + 1;
    }
  }

  // Past the end of the scrollback the page at the bottom is read for ever.
  lemma {:induction false} PagesGetStuck(total: nat, height: nat, last: nat, cursor: nat, pages: nat)
    requires 1 <= height <= total <= last && cursor <= last
    ensures CursorAfter(total, height, last, cursor, pages) <= last
    decreases pages
  {
    if pages > 0 {
      PagesGetStuck(total, height, last, NextCursor(total, height, last, cursor), pages - 1);
    }
  }

  // The copy ends exactly when the last selected row still exists.
  lemma CopyEndsIffRowsExist(total: nat, height: nat, first: nat, last: nat)
    requires 1 <= height <= total && first <= last
    ensures (exists pages: nat :: CursorAfter(total, height, last, first, pages) > last) <==> last < total
  {
    if last < total {
      var pages := PagesReachTheEnd(total, height, last, first);
    } else {
      forall pages: nat
        ensures CursorAfter(total, height, last, first, pages) <= last
      {
        PagesGetStuck(total, height, last, first, pages);
      }
    }
  }

  class Terminal {
    const rows: seq<Row>   // scrollback, then the active screen
    const cols: nat
    const height: nat      // rows in the viewport
    var offset: nat        // absolute row at the top of the viewport

    ghost predicate Valid()
      reads this
    {
      && 1 <= height && offset + height <= |rows|
      && forall r :: 0 <= r < |rows| ==> |rows[r].cells| == cols
    }

    constructor (rows: seq<Row>, cols: nat, height: nat)
      requires 1 <= height <= |rows|
      requires forall r :: 0 <= r < |rows| ==> |rows[r].cells| == cols
      ensures Valid() && this.rows == rows && this.height == height && offset == |rows| - height
    {
      this.rows, this.cols, this.height, this.offset := rows, cols, height, |rows| - height;
    }

    // A row of the viewport.
    function ScreenRow(r: nat): Row
      requires Valid() && r < height
      reads this
    {
      rows[offset + r]
    }

    // The viewport stops at both ends.
    method ScrollViewportDelta(delta: int)
      requires Valid()
      modifies this
      ensures Valid() && offset == Clamp(old(offset) + delta, |rows| - height)
    {
      offset := Clamp(offset + delta, |rows| - height);
    }

    // Each selected row is read once, in order, whatever the viewport shows,
    // and the viewport is put back.
    method ReadSelection(sel: Selection) returns (lines: seq<string>, wraps: seq<bool>)
      requires Valid() && Ordered(sel).1.row < |rows|
      modifies this
      ensures Valid() && offset == old(offset)
      ensures ReadDirectly(rows, sel, lines, wraps)
    {
      var (s, e) := Ordered(sel);
      var original := offset;
      lines, wraps := [], [];
      var cursor := s.row;
      ghost var pages: nat := 0;
      while cursor <= e.row
        invariant Valid() && ReadUpTo(rows, sel, lines, wraps, cursor)
        invariant cursor == CursorAfter(|rows|, height, e.row, s.row, pages)
      {
        if cursor != offset {
          ScrollViewportDelta(cursor - offset);
        }
        var pageEnd := Min(e.row, offset + height - 1);
        lines, wraps := ReadPage(sel, cursor, pageEnd, lines, wraps);
        OneMorePage(|rows|, height, e.row, s.row, pages);
        pages := pages + 1;
        cursor := pageEnd + 1;
      }
      if original != offset {
        ScrollViewportDelta(original - offset);
      }
    }

    // The rows cursor..pageEnd of the viewport.
    method ReadPage(sel: Selection, cursor: nat, pageEnd: nat, lines: seq<string>, wraps: seq<bool>)
      returns (lines': seq<string>, wraps': seq<bool>)
      requires Valid() && offset <= cursor <= pageEnd < offset + height && pageEnd <= Ordered(sel).1.row
      requires ReadUpTo(rows, sel, lines, wraps, cursor)
      ensures ReadUpTo(rows, sel, lines', wraps', pageEnd + 1)
    {
      lines', wraps' := lines, wraps;
      for absRow := cursor to pageEnd + 1
        invariant ReadUpTo(rows, sel, lines', wraps', absRow)
      {
        var row := ScreenRow(absRow - offset);
        var line := RowText(sel, absRow, row.cells);
        var wrapped := IsWrapped(row, absRow < Ordered(sel).1.row);
        lines', wraps' := lines' + [line], wraps' + [wrapped];
      }
    }

    method CopySelection(sel: Selection) returns (text: string)
      requires Valid() && Ordered(sel).1.row < |rows|
      modifies this
      ensures Valid() && offset == old(offset)
      ensures exists lines, wraps :: ReadDirectly(rows, sel, lines, wraps) && text == Joined(lines, wraps, |lines|)
    {
      var lines, wraps := ReadSelection(sel);
      text := Join(lines, wraps);
    }
  }

  // ---------------------------------------------------------------------
  // Joining the rows
  // ---------------------------------------------------------------------

  // The Unicode White_Space characters.
  predicate IsSpace(c: char) {
    || '\U{0009}' <= c <= '\U{000D}' || '\U{2000}' <= c <= '\U{200A}'
    || c in {' ', '\U{0085}', '\U{00A0}', '\U{1680}', '\U{2028}', '\U{2029}', '\U{202F}', '\U{205F}', '\U{3000}'}
  }

  function TrimStart(s: string): string {
    if s != "" && IsSpace(s[0]) then TrimStart(s[1..]) else s
  }

  function TrimEnd(s: string): string {
    if s != "" && IsSpace(s[|s| - 1]) then TrimEnd(s[..|s| - 1]) else s
  }

  lemma WhiteSpaceCharacters(c: char)
    ensures IsSpace(c) <==>
            c in "\t\n\U{000B}\U{000C}\r \U{0085}\U{00A0}\U{1680}"
            || c in "\U{2000}\U{2001}\U{2002}\U{2003}\U{2004}\U{2005}\U{2006}\U{2007}\U{2008}\U{2009}\U{200A}"
            || c in "\U{2028}\U{2029}\U{202F}\U{205F}\U{3000}"
  {
  }

  predicate Blank(s: string) {
    forall i :: 0 <= i < |s| ==> IsSpace(s[i])
  }

  // There is something between the white space at both ends.
  predicate Inked(core: string) {
    core != "" && !IsSpace(core[0]) && !IsSpace(core[|core| - 1])
  }

  lemma {:induction false} TrimStartExactly(a: string, rest: string)
    requires Blank(a) && (rest == "" || !IsSpace(rest[0]))
    ensures TrimStart(a + rest) == rest
  {
    if a != "" {
      assert (a + rest)[1..] == a[1..] + rest;
      TrimStartExactly(a[1..], rest);
    } else {
      assert a + rest == rest;
    }
  }

  lemma {:induction false} TrimEndExactly(rest: string, b: string)
    requires Blank(b) && (rest == "" || !IsSpace(rest[|rest| - 1]))
    ensures TrimEnd(rest + b) == rest
    decreases |b|
  {
    if b != "" {
      assert (rest + b)[..|rest + b| - 1] == rest + b[..|b| - 1];
      TrimEndExactly(rest, b[..|b| - 1]);
    } else {
      assert rest + b == rest;
    }
  }

  // A continuation loses its indentation; a wrapped row keeps at most one space
  // of its padding.
  function Piece(line: string, continuation: bool, wrapped: bool): string {
    var text := if continuation then TrimStart(line) else line;
    if !wrapped then text
    else if |text| > |TrimEnd(text)| then TrimEnd(text) + " "
    else TrimEnd(text)
  }

  // What becomes of a row with white space around its text: the indentation goes
  // from a continuation, and the padding of a wrapped row shrinks to one space.
  lemma PieceExactly(a: string, core: string, b: string)
    requires Blank(a) && Inked(core) && Blank(b)
    ensures var line, word := a + core + b, if b == "" then "" else " ";
            && Piece(line, false, false) == line
            && Piece(line, true, false) == core + b
            && Piece(line, false, true) == a + core + word
            && Piece(line, true, true) == core + word
  {
    assert a + core + b == a + (core + b);
    TrimStartExactly(a, core + b);
    TrimEndExactly(a + core, b);
    TrimEndExactly(core, b);
    assert a + core + "" == a + core && core + "" == core;
  }

  lemma BlankPieceExactly(line: string)
    requires Blank(line)
    ensures Piece(line, true, false) == Piece(line, true, true) == ""
    ensures Piece(line, false, true) == if line == "" then "" else " "
    ensures Piece(line, false, false) == line
  {
    TrimStartExactly(line, "");
    assert line + "" == line && "" + line == line;
    TrimEndExactly("", line);
  }

  function PieceAt(lines: seq<string>, wraps: seq<bool>, k: nat): string
    requires |lines| == |wraps| && k < |lines|
  {
    Piece(lines[k], k > 0 && wraps[k - 1], wraps[k])
  }

  // A line ends after row k: it is neither wrapped nor the last.
  predicate Breaks(wraps: seq<bool>, k: nat)
    requires k < |wraps|
  {
    !wraps[k] && k + 1 < |wraps|
  }

  function Joined(lines: seq<string>, wraps: seq<bool>, k: nat): string
    requires |lines| == |wraps| && k <= |lines|
  {
    if k == 0 then ""
    else Joined(lines, wraps, k - 1) + PieceAt(lines, wraps, k - 1) + if Breaks(wraps, k - 1) then "\n" else ""
  }

  lemma TwoRows(a: string, b: string, wrapped: bool, open: bool)
    ensures Joined([a, b], [wrapped, open], 2) ==
            Piece(a, false, wrapped) + (if wrapped then "" else "\n") + Piece(b, wrapped, open)
  {
    assert Joined([a, b], [wrapped, open], 0) == "";
    assert Joined([a, b], [wrapped, open], 1) == Piece(a, false, wrapped) + if wrapped then "" else "\n";
  }

  method Join(lines: seq<string>, wraps: seq<bool>) returns (text: string)
    requires |lines| == |wraps|
    ensures text == Joined(lines, wraps, |lines|)
  {
    text := "";
    for i := 0 to |lines|
      invariant text == Joined(lines, wraps, i)
    {
      ghost var before := text;
      var row := if i > 0 && wraps[i - 1] then TrimStart(lines[i]) else lines[i];
      if wraps[i] {
        var trimmed := TrimEnd(row);
        text := text + trimmed;
        if |row| > |trimmed| {
          text := text + " ";
        }
        assert text == before + PieceAt(lines, wraps, i);
      } else {
        text := text + row;
        if i + 1 < |lines| {
          text := text + "\n";
        }
      }
    }
  }

  // The lines of text: those finished after k rows, and the one still open.
  datatype Lines = Lines(done: seq<string>, open: string)

  function Logical(lines: seq<string>, wraps: seq<bool>, k: nat): Lines
    requires |lines| == |wraps| && k <= |lines|
  {
    if k == 0 then Lines([], "")
    else
      var before := Logical(lines, wraps, k - 1);
      var open := before.open + PieceAt(lines, wraps, k - 1);
      if Breaks(wraps, k - 1) then Lines(before.done + [open], "") else Lines(before.done, open)
  }

  function Unlines(done: seq<string>, open: string): string {
    if done == [] then open else done[0] + "\n" + Unlines(done[1..], open)
  }

  function HardBreaks(wraps: seq<bool>, k: nat): nat
    requires k <= |wraps|
  {
    if k == 0 then 0 else HardBreaks(wraps, k - 1) + if Breaks(wraps, k - 1) then 1 else 0
  }

  lemma {:induction false} UnlinesAppend(done: seq<string>, open: string, more: string)
    ensures Unlines(done, open + more) == Unlines(done, open) + more
  {
    if done != [] {
      UnlinesAppend(done[1..], open, more);
      var rest := Unlines(done[1..], open);
      assert done[0] + "\n" + (rest + more) == (done[0] + "\n" + rest) + more;
    }
  }

  lemma {:induction false} UnlinesBreak(done: seq<string>, open: string)
    ensures Unlines(done + [open], "") == Unlines(done, open) + "\n"
  {
    if done == [] {
      assert done + [open] == [open];
    } else {
      UnlinesBreak(done[1..], open);
      assert (done + [open])[1..] == done[1..] + [open];
      var rest := Unlines(done[1..], open);
      assert done[0] + "\n" + (rest + "\n") == (done[0] + "\n" + rest) + "\n";
    }
  }

  // Text without its white space.
  function Ink(s: string): string {
    if s == "" then "" else (if IsSpace(s[0]) then "" else [s[0]]) + Ink(s[1..])
  }

  lemma {:induction false} InkAppend(s: string, t: string)
    ensures Ink(s + t) == Ink(s) + Ink(t)
  {
    if s == "" {
      assert s + t == t;
    } else {
      assert (s + t)[1..] == s[1..] + t;
      InkAppend(s[1..], t);
    }
  }

  lemma {:induction false} TrimStartKeepsInk(s: string)
    ensures Ink(TrimStart(s)) == Ink(s)
    ensures '\n' !in s ==> '\n' !in TrimStart(s)
    decreases |s|
  {
    if s != "" && IsSpace(s[0]) {
      TrimStartKeepsInk(s[1..]);
    }
  }

  lemma {:induction false} TrimEndKeepsInk(s: string)
    ensures Ink(TrimEnd(s)) == Ink(s)
    ensures '\n' !in s ==> '\n' !in TrimEnd(s)
    decreases |s|
  {
    if s != "" && IsSpace(s[|s| - 1]) {
      var init, last := s[..|s| - 1], s[|s| - 1];
      TrimEndKeepsInk(init);
      assert s == init + [last];
      InkAppend(init, [last]);
      assert Ink([last]) == "";
    }
  }

  lemma PieceKeepsInk(line: string, continuation: bool, wrapped: bool)
    ensures Ink(Piece(line, continuation, wrapped)) == Ink(line)
    ensures '\n' !in line ==> '\n' !in Piece(line, continuation, wrapped)
  {
    var text := if continuation then TrimStart(line) else line;
    TrimStartKeepsInk(line);
    TrimEndKeepsInk(text);
    InkAppend(TrimEnd(text), " ");
    assert Ink(" ") == "";
  }

  // The text is its lines joined by newlines: one newline for each row that is
  // neither wrapped nor the last, and none inside a line.
  lemma {:induction false} OneNewlinePerHardBreak(lines: seq<string>, wraps: seq<bool>, k: nat)
    requires |lines| == |wraps| && k <= |lines|
    requires forall i :: 0 <= i < |lines| ==> '\n' !in lines[i]
    ensures var l := Logical(lines, wraps, k);
            && Joined(lines, wraps, k) == Unlines(l.done, l.open)
            && |l.done| == HardBreaks(wraps, k)
            && '\n' !in l.open
            && forall i :: 0 <= i < |l.done| ==> '\n' !in l.done[i]
  {
    if k > 0 {
      OneNewlinePerHardBreak(lines, wraps, k - 1);
      var before := Logical(lines, wraps, k - 1);
      var piece := PieceAt(lines, wraps, k - 1);
      PieceKeepsInk(lines[k - 1], k - 1 > 0 && wraps[k - 2], wraps[k - 1]);
      UnlinesAppend(before.done, before.open, piece);
      UnlinesBreak(before.done, before.open + piece);
    }
  }

  function ConcatAll(lines: seq<string>, k: nat): string
    requires k <= |lines|
  {
    if k == 0 then "" else ConcatAll(lines, k - 1) + lines[k - 1]
  }

  // Joining only touches white space: every other character of the rows is
  // copied, once and in order.
  lemma {:induction false} JoinKeepsInk(lines: seq<string>, wraps: seq<bool>, k: nat)
    requires |lines| == |wraps| && k <= |lines|
    ensures Ink(Joined(lines, wraps, k)) == Ink(ConcatAll(lines, k))
  {
    if k > 0 {
      JoinKeepsInk(lines, wraps, k - 1);
      var piece := PieceAt(lines, wraps, k - 1);
      var end := if Breaks(wraps, k - 1) then "\n" else "";
      PieceKeepsInk(lines[k - 1], k - 1 > 0 && wraps[k - 2], wraps[k - 1]);
      InkAppend(Joined(lines, wraps, k - 1) + piece, end);
      InkAppend(Joined(lines, wraps, k - 1), piece);
      InkAppend(ConcatAll(lines, k - 1), lines[k - 1]);
      assert Ink(end) == "";
    }
  }
}
