/**
 Finding code blocks on a terminal screen: rectangles drawn with box-drawing
 characters, and stretches of rows that share one background colour over the
 same columns.
 */
module CodeBlocks {

  import opened Wrappers

  datatype Color = Default | Rgb(red: nat, green: nat, blue: nat)

  datatype Cell = Cell(grapheme: string, bg: Color)

  datatype Screen = Screen(rows: nat, cols: nat, cells: seq<seq<Cell>>)

  // Coordinates are inclusive; a border belongs to its block.
  datatype Block = Block(top: nat, bottom: nat, left: nat, right: nat, hasBorder: bool)

  ghost predicate ValidScreen(s: Screen) {
    |s.cells| == s.rows && forall r :: 0 <= r < s.rows ==> |s.cells[r]| == s.cols
  }

  // ---------------------------------------------------------------------
  // Characters
  // ---------------------------------------------------------------------

  predicate IsBoxDrawing(c: char) {
    '\U{2500}' <= c <= '\U{257F}'
  }

  predicate IsHorizontalBorder(c: char) {
    c in {'\U{2500}', '\U{2501}', '\U{2550}'}
  }

  predicate IsVerticalBorder(c: char) {
    c in {'\U{2502}', '\U{2503}', '\U{2551}'}
  }

  predicate IsTopLeftCorner(c: char) {
    '\U{250C}' <= c <= '\U{250F}' || c == '\U{256D}' || '\U{2552}' <= c <= '\U{2554}'
  }

  predicate IsTopRightCorner(c: char) {
    '\U{2510}' <= c <= '\U{2513}' || c == '\U{256E}' || '\U{2555}' <= c <= '\U{2557}'
  }

  predicate IsBottomLeftCorner(c: char) {
    '\U{2514}' <= c <= '\U{2517}' || c == '\U{2570}' || '\U{2558}' <= c <= '\U{255A}'
  }

  predicate IsBottomRightCorner(c: char) {
    '\U{2518}' <= c <= '\U{251B}' || c == '\U{256F}' || '\U{255B}' <= c <= '\U{255D}'
  }

  // The corners are those of thin, thick, double and rounded boxes, and of the
  // mixtures of the first three.
  lemma CornerCharacters(c: char)
    ensures IsTopLeftCorner(c) <==> c in "\U{250C}\U{250D}\U{250E}\U{250F}\U{256D}\U{2552}\U{2553}\U{2554}"
    ensures IsTopRightCorner(c) <==> c in "\U{2510}\U{2511}\U{2512}\U{2513}\U{256E}\U{2555}\U{2556}\U{2557}"
    ensures IsBottomLeftCorner(c) <==> c in "\U{2514}\U{2515}\U{2516}\U{2517}\U{2570}\U{2558}\U{2559}\U{255A}"
    ensures IsBottomRightCorner(c) <==> c in "\U{2518}\U{2519}\U{251A}\U{251B}\U{256F}\U{255B}\U{255C}\U{255D}"
  {
  }

  // A cell's first character, or NUL.
  function FirstOf(c: Cell): char {
    if c.grapheme == "" then '\0' else c.grapheme[0]
  }

  function FirstChar(s: Screen, row: nat, col: nat): char
    requires ValidScreen(s)
  {
    if row >= s.rows || col >= s.cols then '\0' else FirstOf(s.cells[row][col])
  }

  predicate Box(s: Screen, row: nat, col: nat)
    requires ValidScreen(s)
  {
    IsBoxDrawing(FirstChar(s, row, col))
  }

  // ---------------------------------------------------------------------
  // Bordered blocks
  // ---------------------------------------------------------------------

  // The top border runs from the corner at `left` to the first top-right
  // corner after it.
  ghost predicate TopBorder(s: Screen, row: nat, left: nat, right: nat)
    requires ValidScreen(s)
  {
    && left < right < s.cols
    && IsTopRightCorner(FirstChar(s, row, right))
    && forall c: nat :: left < c < right ==> Box(s, row, c) && !IsTopRightCorner(FirstChar(s, row, c))
  }

  predicate CornerPair(s: Screen, row: nat, left: nat, right: nat)
    requires ValidScreen(s)
  {
    IsBottomLeftCorner(FirstChar(s, row, left)) && IsBottomRightCorner(FirstChar(s, row, right))
  }

  // The side borders run down to the first row with a pair of bottom corners.
  ghost predicate SideBorders(s: Screen, top: nat, bottom: nat, left: nat, right: nat)
    requires ValidScreen(s)
  {
    && top < bottom < s.rows
    && CornerPair(s, bottom, left, right)
    && forall r: nat :: top < r < bottom ==>
         Box(s, r, left) && Box(s, r, right) && !CornerPair(s, r, left, right)
  }

  ghost predicate BottomBorder(s: Screen, row: nat, left: nat, right: nat)
    requires ValidScreen(s)
  {
    forall c: nat :: left < c < right ==> Box(s, row, c)
  }

  // A rectangle the scan accepts.
  ghost predicate Candidate(s: Screen, b: Block)
    requires ValidScreen(s)
  {
    && b.hasBorder && b.top < s.rows && b.left < s.cols
    && IsTopLeftCorner(FirstChar(s, b.top, b.left))
    && TopBorder(s, b.top, b.left, b.right)
    && SideBorders(s, b.top, b.bottom, b.left, b.right)
    && BottomBorder(s, b.bottom, b.left, b.right)
    && b.right - b.left >= 4
    && b.bottom - b.top >= 2
  }

  lemma CandidateIsBox(s: Screen, b: Block)
    requires ValidScreen(s) && Candidate(s, b)
    ensures b.bottom < s.rows && b.right < s.cols && b.right - b.left + 1 >= 5 && b.bottom - b.top + 1 >= 3
    ensures forall r: nat, c: nat ::
              b.top <= r <= b.bottom && b.left <= c <= b.right
              && (r == b.top || r == b.bottom || c == b.left || c == b.right) ==>
              '\U{2500}' <= FirstChar(s, r, c) <= '\U{257F}'
    ensures forall r: nat :: b.top < r < b.bottom ==>
              !(IsBottomLeftCorner(FirstChar(s, r, b.left)) && IsBottomRightCorner(FirstChar(s, r, b.right)))
  {
    forall r: nat, c: nat | b.top <= r <= b.bottom && b.left <= c <= b.right
                            && (r == b.top || r == b.bottom || c == b.left || c == b.right)
      ensures '\U{2500}' <= FirstChar(s, r, c) <= '\U{257F}'
    {
      assert Box(s, r, c);
    }
    forall r: nat | b.top < r < b.bottom
      ensures !(IsBottomLeftCorner(FirstChar(s, r, b.left)) && IsBottomRightCorner(FirstChar(s, r, b.right)))
    {
      assert !CornerPair(s, r, b.left, b.right);
    }
  }

  // A box as it is seen on the screen: at least 5 by 3, a corner at each of its
  // corners, and drawn with box-drawing characters on all four sides. No other
  // top-right corner cuts its top side short, nor a pair of bottom corners its
  // height.
  ghost predicate DrawnBox(s: Screen, b: Block)
    requires ValidScreen(s)
  {
    && b.bottom < s.rows && b.right < s.cols && b.right - b.left + 1 >= 5 && b.bottom - b.top + 1 >= 3
    && IsTopLeftCorner(FirstChar(s, b.top, b.left)) && IsTopRightCorner(FirstChar(s, b.top, b.right))
    && IsBottomLeftCorner(FirstChar(s, b.bottom, b.left)) && IsBottomRightCorner(FirstChar(s, b.bottom, b.right))
    && (forall r: nat, c: nat ::
          b.top <= r <= b.bottom && b.left <= c <= b.right
          && (r == b.top || r == b.bottom || c == b.left || c == b.right) ==>
          '\U{2500}' <= FirstChar(s, r, c) <= '\U{257F}')
    && (forall c: nat :: b.left < c < b.right ==> !IsTopRightCorner(FirstChar(s, b.top, c)))
    && (forall r: nat :: b.top < r < b.bottom ==>
          !(IsBottomLeftCorner(FirstChar(s, r, b.left)) && IsBottomRightCorner(FirstChar(s, r, b.right))))
  }

  // The scan accepts exactly what looks like a box.
  lemma CandidateIffDrawn(s: Screen, b: Block)
    requires ValidScreen(s)
    ensures Candidate(s, b) <==> b.hasBorder && DrawnBox(s, b)
  {
    if b.hasBorder && DrawnBox(s, b) {
      assert forall c: nat :: b.left < c < b.right ==> Box(s, b.top, c) && Box(s, b.bottom, c);
      assert forall r: nat :: b.top < r < b.bottom ==>
          Box(s, r, b.left) && Box(s, r, b.right) && !CornerPair(s, r, b.left, b.right);
      assert TopBorder(s, b.top, b.left, b.right);
    } else if Candidate(s, b) {
      CandidateIsBox(s, b);
    }
  }

  // A screen that shows one character in each cell.
  predicate Shows(s: Screen, text: seq<string>) {
    && ValidScreenOf(s, text)
    && forall r, c :: 0 <= r < |text| && 0 <= c < |text[r]| ==> s.cells[r][c].grapheme == [text[r][c]]
  }

  predicate ValidScreenOf(s: Screen, text: seq<string>) {
    && s.rows == |text| == |s.cells|
    && forall r :: 0 <= r < s.rows ==> |text[r]| == |s.cells[r]| == s.cols
  }

  const TOP_LINE := "\U{250C}\U{2500}\U{2500}\U{2500}\U{2510}"
  const MIDDLE_LINE := "\U{2502}abc\U{2502}"
  const BOTTOM_LINE := "\U{2514}\U{2500}\U{2500}\U{2500}\U{2518}"

  lemma ShownAt(s: Screen, text: seq<string>, row: nat, line: string)
    requires Shows(s, text) && row < |text| && text[row] == line
    ensures ValidScreen(s) && |line| == s.cols
    ensures forall c: nat :: c < |line| ==> FirstChar(s, row, c) == line[c]
  {
  }

  // The smallest box there is.
  lemma SmallestBox(s: Screen)
    requires Shows(s, [TOP_LINE, MIDDLE_LINE, BOTTOM_LINE])
    ensures ValidScreen(s) && forall b :: Candidate(s, b) <==> b == Block(0, 2, 0, 4, true)
  {
    var text := [TOP_LINE, MIDDLE_LINE, BOTTOM_LINE];
    ShownAt(s, text, 0, TOP_LINE);
    ShownAt(s, text, 1, MIDDLE_LINE);
    ShownAt(s, text, 2, BOTTOM_LINE);
    CandidateIffDrawn(s, Block(0, 2, 0, 4, true));
    forall b | Candidate(s, b)
      ensures b == Block(0, 2, 0, 4, true)
    {
      CandidateIffDrawn(s, b);
    }
  }

  // Standing on its head it is none.
  lemma BoxOnItsHead(s: Screen)
    requires Shows(s, [BOTTOM_LINE, MIDDLE_LINE, TOP_LINE])
    ensures ValidScreen(s) && forall b :: !Candidate(s, b)
  {
    ShownAt(s, [BOTTOM_LINE, MIDDLE_LINE, TOP_LINE], 0, BOTTOM_LINE);
    forall b
      ensures !Candidate(s, b)
    {
      CandidateIffDrawn(s, b);
      assert FirstChar(s, 0, 0) == BOTTOM_LINE[0];
    }
  }

  // A corner starts at most one rectangle.
  lemma OneCandidatePerCorner(s: Screen, b: Block, b': Block)
    requires ValidScreen(s) && Candidate(s, b) && Candidate(s, b')
    requires b.top == b'.top && b.left == b'.left
    ensures b == b'
  {
    SameRight(s, b.top, b.left, b.right, b'.right);
    SameBottom(s, b.top, b.bottom, b'.bottom, b.left, b.right);
  }

  predicate Within(b: Block, outer: Block) {
    b.top >= outer.top && b.bottom <= outer.bottom && b.left >= outer.left && b.right <= outer.right
  }

  // A cell of the rectangle, its border included.
  predicate HasCell(b: Block, row: nat, col: nat) {
    b.top <= row <= b.bottom && b.left <= col <= b.right
  }

  lemma WithinIffAllCells(b: Block, outer: Block)
    requires b.top <= b.bottom && b.left <= b.right
    ensures Within(b, outer) <==> forall row: nat, col: nat :: HasCell(b, row, col) ==> HasCell(outer, row, col)
  {
    if forall row: nat, col: nat :: HasCell(b, row, col) ==> HasCell(outer, row, col) {
      assert HasCell(b, b.top, b.left) && HasCell(b, b.bottom, b.right);
    }
  }

  method FindRight(s: Screen, row: nat, col: nat) returns (r: Option<nat>)
    requires ValidScreen(s) && row < s.rows && col < s.cols
    ensures r.Some? ==> TopBorder(s, row, col, r.value)
    ensures r.None? ==> forall right: nat :: !TopBorder(s, row, col, right)
  {
    for rc := col + 1 to s.cols
      invariant forall c: nat :: col < c < rc ==> Box(s, row, c) && !IsTopRightCorner(FirstChar(s, row, c))
    {
      var c := FirstOf(s.cells[row][rc]);
      assert c == FirstChar(s, row, rc);
      if IsTopRightCorner(c) {
        return Some(rc);
      }
      if !IsHorizontalBorder(c) && !IsBoxDrawing(c) {
        assert !Box(s, row, rc);
        return None;
      }
    }
    r := None;
  }

  method FindBottom(s: Screen, row: nat, left: nat, right: nat) returns (r: Option<nat>)
    requires ValidScreen(s) && row < s.rows && left < right < s.cols
    ensures r.Some? ==> SideBorders(s, row, r.value, left, right) && BottomBorder(s, r.value, left, right)
    ensures r.None? ==>
              forall bottom: nat :: !(SideBorders(s, row, bottom, left, right) && BottomBorder(s, bottom, left, right))
  {
    for br := row + 1 to s.rows
      invariant forall q: nat :: row < q < br ==> Box(s, q, left) && Box(s, q, right) && !CornerPair(s, q, left, right)
    {
      var l, rc := FirstChar(s, br, left), FirstChar(s, br, right);
      if IsBottomLeftCorner(l) && IsBottomRightCorner(rc) {
        assert CornerPair(s, br, left, right);
        var valid := true;
        for bc := left + 1 to right
          invariant forall c: nat :: left < c < bc ==> Box(s, br, c)
          invariant valid
        {
          var b := FirstChar(s, br, bc);
          if !IsHorizontalBorder(b) && !IsBoxDrawing(b) {
            assert !Box(s, br, bc);
            valid := false;
            break;
          }
        }
        if valid {
          return Some(br);
        }
        return None;
      }
      if !IsVerticalBorder(l) && !IsBoxDrawing(l) {
        assert !Box(s, br, left);
        return None;
      }
      if !IsVerticalBorder(rc) && !IsBoxDrawing(rc) {
        assert !Box(s, br, right);
        return None;
      }
    }
    r := None;
  }

  // The rectangle starting at a cell, if there is one.
  method FindCandidate(s: Screen, row: nat, col: nat) returns (r: Option<Block>)
    requires ValidScreen(s) && row < s.rows && col < s.cols
    ensures r.Some? ==> Candidate(s, r.value) && r.value.top == row && r.value.left == col
    ensures r.None? ==> forall b :: Candidate(s, b) ==> b.top != row || b.left != col
    ensures r.Some? <==> exists b: Block :: b.hasBorder && DrawnBox(s, b) && b.top == row && b.left == col
    ensures forall b: Block :: b.hasBorder && DrawnBox(s, b) && b.top == row && b.left == col ==> r == Some(b)
  {
    forall b: Block
      ensures Candidate(s, b) <==> b.hasBorder && DrawnBox(s, b)
    {
      CandidateIffDrawn(s, b);
    }
    if !IsTopLeftCorner(FirstOf(s.cells[row][col])) {
      assert !IsTopLeftCorner(FirstChar(s, row, col));
      return None;
    }
    var right := FindRight(s, row, col);
    if right.None? {
      return None;
    }
    forall b | Candidate(s, b) && b.top == row && b.left == col
      ensures b.right == right.value
    {
      SameRight(s, row, col, b.right, right.value);
    }
    if right.value - col < 4 {
      return None;
    }
    var bottom := FindBottom(s, row, col, right.value);
    if bottom.None? {
      return None;
    }
    var b := Block(row, bottom.value, col, right.value, true);
    forall b' | Candidate(s, b') && b'.top == row && b'.left == col
      ensures b'.bottom == bottom.value
    {
      SameBottom(s, row, b'.bottom, bottom.value, col, right.value);
    }
    if bottom.value - row < 2 {
      return None;
    }
    r := Some(b);
  }

  lemma SameRight(s: Screen, row: nat, left: nat, right: nat, right': nat)
    requires ValidScreen(s) && TopBorder(s, row, left, right) && TopBorder(s, row, left, right')
    ensures right == right'
  {
  }

  lemma SameBottom(s: Screen, top: nat, bottom: nat, bottom': nat, left: nat, right: nat)
    requires ValidScreen(s) && SideBorders(s, top, bottom, left, right) && SideBorders(s, top, bottom', left, right)
    ensures bottom == bottom'
  {
  }

  // Cell (r, c) comes before cell (r', c') in the scan.
  predicate Earlier(r: nat, c: nat, r': nat, c': nat) {
    r < r' || (r == r' && c < c')
  }

  // The blocks found so far, having scanned all cells before (row, col).
  ghost predicate Scanned(s: Screen, blocks: seq<Block>, row: nat, col: nat)
    requires ValidScreen(s)
  {
    && (forall i :: 0 <= i < |blocks| ==> Candidate(s, blocks[i]) && Earlier(blocks[i].top, blocks[i].left, row, col))
    && (forall i, j :: 0 <= i < j < |blocks| ==> Earlier(blocks[i].top, blocks[i].left, blocks[j].top, blocks[j].left))
    && (forall i, j :: 0 <= i < |blocks| && 0 <= j < |blocks| && i != j ==> !Within(blocks[i], blocks[j]))
    && (forall b :: Candidate(s, b) && Earlier(b.top, b.left, row, col) ==> Covered(b, blocks))
  }

  ghost predicate Covered(b: Block, blocks: seq<Block>) {
    exists i :: 0 <= i < |blocks| && Within(b, blocks[i])
  }

  // Every reported block is a candidate, none contains another, every candidate
  // is reported or lies in one that is, and they come in scan order.
  method DetectBordered(s: Screen) returns (blocks: seq<Block>)
    requires ValidScreen(s)
    ensures forall i :: 0 <= i < |blocks| ==> Candidate(s, blocks[i])
    ensures forall i, j :: 0 <= i < |blocks| && 0 <= j < |blocks| && i != j ==> !Within(blocks[i], blocks[j])
    ensures forall b :: Candidate(s, b) ==> Covered(b, blocks)
    ensures forall i :: 0 <= i < |blocks| ==> blocks[i].hasBorder && DrawnBox(s, blocks[i])
    ensures forall b: Block :: b.hasBorder && DrawnBox(s, b) ==> Covered(b, blocks)
    ensures forall i, j :: 0 <= i < j < |blocks| ==>
              Earlier(blocks[i].top, blocks[i].left, blocks[j].top, blocks[j].left)
  {
    blocks := [];
    for row := 0 to s.rows
      invariant Scanned(s, blocks, row, 0)
    {
      for col := 0 to s.cols
        invariant Scanned(s, blocks, row, col)
      {
        var found := FindCandidate(s, row, col);
        if found.Some? {
          var candidate := found.value;
          var nested := IsNested(candidate, blocks);
          if !nested {
            Report(s, blocks, row, col, candidate);
            blocks := blocks + [candidate];
          } else {
            SkipNested(s, blocks, row, col, candidate);
          }
        }
      }
    }
    forall b
      ensures Candidate(s, b) <==> b.hasBorder && DrawnBox(s, b)
    {
      CandidateIffDrawn(s, b);
    }
  }

  method IsNested(b: Block, blocks: seq<Block>) returns (nested: bool)
    ensures nested <==> Covered(b, blocks)
  {
    for i := 0 to |blocks|
      invariant forall k :: 0 <= k < i ==> !Within(b, blocks[k])
    {
      if Within(b, blocks[i]) {
        return true;
      }
    }
    nested := false;
  }

  lemma Report(s: Screen, blocks: seq<Block>, row: nat, col: nat, b: Block)
    requires ValidScreen(s) && Scanned(s, blocks, row, col)
    requires Candidate(s, b) && b.top == row && b.left == col && !Covered(b, blocks)
    ensures Scanned(s, blocks + [b], row, col + 1)
  {
    forall c | Candidate(s, c) && Earlier(c.top, c.left, row, col + 1)
      ensures Covered(c, blocks + [b])
    {
      if c.top == row && c.left == col {
        OneCandidatePerCorner(s, b, c);
      }
      CoveredByMore(c, blocks, b);
    }
  }

  lemma CoveredByMore(c: Block, blocks: seq<Block>, b: Block)
    ensures Covered(c, blocks + [b]) <==> Covered(c, blocks) || Within(c, b)
  {
    var more := blocks + [b];
    if Covered(c, blocks) {
      var i :| 0 <= i < |blocks| && Within(c, blocks[i]);
      assert Within(c, more[i]);
    }
    if Within(c, b) {
      assert Within(c, more[|blocks|]);
    }
  }

  lemma SkipNested(s: Screen, blocks: seq<Block>, row: nat, col: nat, b: Block)
    requires ValidScreen(s) && Scanned(s, blocks, row, col)
    requires Candidate(s, b) && b.top == row && b.left == col && Covered(b, blocks)
    ensures Scanned(s, blocks, row, col + 1)
  {
    forall c | Candidate(s, c) && c.top == row && c.left == col
      ensures Covered(c, blocks)
    {
      OneCandidatePerCorner(s, b, c);
    }
  }

  // ---------------------------------------------------------------------
  // Stretches of one background colour
  // ---------------------------------------------------------------------

  datatype Span = Span(left: nat, right: nat, color: Color)

  // All cells from l to r have the same background, and it is not the default.
  ghost predicate Uniform(row: seq<Cell>, sp: Span) {
    && sp.left <= sp.right < |row|
    && sp.color != Default
    && forall c :: sp.left <= c <= sp.right ==> row[c].bg == sp.color
  }

  // Of two spans, the longer is preferred, and of two as long, the one further left.
  predicate AtLeast(sp: Span, other: Span) {
    || sp.right - sp.left > other.right - other.left
    || (sp.right - sp.left == other.right - other.left && sp.left <= other.left)
  }

  predicate Wide(sp: Span) {
    sp.right - sp.left >= 9
  }

  // The leftmost longest uniform span of a row, if that is at least 10 wide.
  ghost predicate Dominant(row: seq<Cell>, sp: Span) {
    Uniform(row, sp) && Wide(sp) && forall other :: Uniform(row, other) ==> AtLeast(sp, other)
  }

  // `best` is the best wide span among those that end before column `limit`.
  ghost predicate BestBefore(row: seq<Cell>, best: Option<Span>, limit: nat) {
    && (best.Some? ==> Uniform(row, best.value) && Wide(best.value) && best.value.right < limit)
    && forall other :: Uniform(row, other) && other.right < limit ==>
                         if best.Some? then AtLeast(best.value, other) else !Wide(other)
  }

  function KeepLonger(best: Option<Span>, start: nat, color: Color, len: nat): Option<Span> {
    if color != Default && len >= 10 && (best.None? || len > best.value.right - best.value.left + 1)
    then Some(Span(start, start + len - 1, color))
    else best
  }

  // The run [start, col) of `color` cannot be extended to the left.
  ghost predicate CurrentRun(row: seq<Cell>, start: nat, color: Color, len: nat, col: nat)
    requires col <= |row|
  {
    if color == Default then
      len == 0 && (col > 0 ==> row[col - 1].bg == Default)
    else
      len >= 1 && start + len == col && Uniform(row, Span(start, col - 1, color))
      && (start > 0 ==> row[start - 1].bg != color)
  }

  lemma RunEnds(row: seq<Cell>, best: Option<Span>, start: nat, color: Color, len: nat, col: nat)
    requires col <= |row| && CurrentRun(row, start, color, len, col) && color != Default
    requires BestBefore(row, best, start)
    ensures BestBefore(row, KeepLonger(best, start, color, len), col)
  {
    forall other | Uniform(row, other) && start <= other.right < col
      ensures other.left >= start
    {
      assert row[other.right].bg == color;
    }
  }

  method DominantSpan(row: seq<Cell>) returns (best: Option<Span>)
    ensures best.Some? ==> Dominant(row, best.value)
    ensures best.None? ==> forall sp :: Uniform(row, sp) ==> !Wide(sp)
  {
    best := None;
    var start, color, len := 0, Default, 0;
    for col := 0 to |row|
      invariant CurrentRun(row, start, color, len, col)
      invariant BestBefore(row, best, if color == Default then col else start)
    {
      var bg := row[col].bg;
      if bg != Default && bg == color {
        len := len + 1;
      } else {
        if color != Default {
          RunEnds(row, best, start, color, len, col);
        }
        best := KeepLonger(best, start, color, len);
        if bg != Default {
          start, color, len := col, bg, 1;
        } else {
          color, len := Default, 0;
        }
      }
    }
    if color != Default {
      RunEnds(row, best, start, color, len, |row|);
    }
    best := KeepLonger(best, start, color, len);
  }

  // A row has at most one dominant span.
  lemma OneDominant(row: seq<Cell>, sp: Span, sp': Span)
    requires Dominant(row, sp) && Dominant(row, sp')
    ensures sp == sp'
  {
    assert AtLeast(sp, sp') && AtLeast(sp', sp);
    assert row[sp.left].bg == sp.color;
  }

  method RowSpans(s: Screen) returns (spans: seq<Option<Span>>)
    requires ValidScreen(s)
    ensures |spans| == s.rows
    ensures forall r, sp :: 0 <= r < s.rows ==> (spans[r] == Some(sp) <==> Dominant(s.cells[r], sp))
  {
    spans := [];
    for row := 0 to s.rows
      invariant |spans| == row
      invariant forall r, sp :: 0 <= r < row ==> (spans[r] == Some(sp) <==> Dominant(s.cells[r], sp))
    {
      var best := DominantSpan(s.cells[row]);
      forall sp | Dominant(s.cells[row], sp)
        ensures best == Some(sp)
      {
        if best.Some? {
          OneDominant(s.cells[row], sp, best.value);
        }
      }
      spans := spans + [best];
    }
  }

  // ---------------------------------------------------------------------
  // Grouping rows
  // ---------------------------------------------------------------------

  predicate SpanAt(spans: seq<Option<Span>>, row: int, sp: Span) {
    0 <= row < |spans| && spans[row] == Some(sp)
  }

  // Rows top..bottom share one span, and neither neighbour does.
  ghost predicate Run(spans: seq<Option<Span>>, b: Block, color: Color) {
    var sp := Span(b.left, b.right, color);
    && !b.hasBorder && b.top <= b.bottom
    && (forall r: nat :: b.top <= r <= b.bottom ==> SpanAt(spans, r, sp))
    && !SpanAt(spans, b.top - 1, sp)
    && !SpanAt(spans, b.bottom + 1, sp)
  }

  ghost predicate Group(spans: seq<Option<Span>>, b: Block, color: Color) {
    Run(spans, b, color) && Wide(Span(b.left, b.right, color))
  }

  ghost predicate IsGroup(spans: seq<Option<Span>>, b: Block) {
    exists color :: Group(spans, b, color)
  }

  predicate Overlap(a: Block, b: Block) {
    a.top <= b.bottom && a.bottom >= b.top && a.left <= b.right && a.right >= b.left
  }

  lemma OverlapIffCommonCell(a: Block, b: Block)
    requires a.top <= a.bottom && a.left <= a.right && b.top <= b.bottom && b.left <= b.right
    ensures Overlap(a, b) <==> exists row: nat, col: nat :: HasCell(a, row, col) && HasCell(b, row, col)
  {
    if Overlap(a, b) {
      var row, col := if a.top < b.top then b.top else a.top, if a.left < b.left then b.left else a.left;
      assert HasCell(a, row, col) && HasCell(b, row, col);
    }
  }

  ghost predicate Hits(b: Block, blocks: seq<Block>) {
    exists i :: 0 <= i < |blocks| && Overlap(b, blocks[i])
  }

  // `blocks` is `bordered`, then the groups that end above `row` and hit no
  // bordered block, top to bottom.
  ghost predicate Grouped(spans: seq<Option<Span>>, bordered: seq<Block>, blocks: seq<Block>, row: nat) {
    && bordered <= blocks
    && (forall i :: |bordered| <= i < |blocks| ==>
          blocks[i].bottom < row && !Hits(blocks[i], bordered) && IsGroup(spans, blocks[i]))
    && (forall b :: IsGroup(spans, b) && b.bottom < row && !Hits(b, bordered) ==> b in blocks[|bordered|..])
    && (forall i, j :: |bordered| <= i < j < |blocks| ==> blocks[i].bottom < blocks[j].top)
  }

  method OverlapsAny(b: Block, blocks: seq<Block>) returns (found: bool)
    ensures found <==> Hits(b, blocks)
  {
    for i := 0 to |blocks|
      invariant forall k :: 0 <= k < i ==> !Overlap(b, blocks[k])
    {
      if Overlap(b, blocks[i]) {
        return true;
      }
    }
    found := false;
  }

  // The earlier groups lie above, so only the bordered blocks can be hit.
  lemma OnlyBordersHit(spans: seq<Option<Span>>, bordered: seq<Block>, blocks: seq<Block>, b: Block)
    requires Grouped(spans, bordered, blocks, b.top)
    ensures Hits(b, blocks) <==> Hits(b, bordered)
  {
    if Hits(b, bordered) {
      var i :| 0 <= i < |bordered| && Overlap(b, bordered[i]);
      assert Overlap(b, blocks[i]);
    }
    if Hits(b, blocks) {
      var i :| 0 <= i < |blocks| && Overlap(b, blocks[i]);
      assert i < |bordered|;
      assert Overlap(b, bordered[i]);
    }
  }

  // Runs of rows with the same span do not share rows.
  lemma NextRun(spans: seq<Option<Span>>, b: Block, color: Color, other: Block, color': Color)
    requires Run(spans, b, color) && Run(spans, other, color') && b.top <= other.bottom <= b.bottom
    ensures other == b && color == color'
  {
    var sp := Span(b.left, b.right, color);
    assert SpanAt(spans, other.bottom, sp);
    assert SpanAt(spans, other.bottom, Span(other.left, other.right, color'));
    assert other.bottom < b.bottom ==> SpanAt(spans, other.bottom + 1, sp);
    assert other.top < b.top ==> SpanAt(spans, b.top - 1, sp);
    assert b.top < other.top ==> SpanAt(spans, other.top - 1, sp);
  }

  method GroupSpans(spans: seq<Option<Span>>, bordered: seq<Block>) returns (blocks: seq<Block>)
    ensures Grouped(spans, bordered, blocks, |spans|)
  {
    blocks := bordered;
    var row := 0;
    while row < |spans|
      invariant row <= |spans|
      invariant row > 0 && row < |spans| && spans[row].Some? ==> spans[row - 1] != spans[row]
      invariant Grouped(spans, bordered, blocks, row)
    {
      if spans[row].None? {
        SkipRow(spans, bordered, blocks, row);
        row := row + 1;
        continue;
      }
      var sp := spans[row].value;
      var bottom := LastRow(spans, row, sp);
      var candidate := Block(row, bottom, sp.left, sp.right, false);
      row := bottom + 1;
      AddRun(spans, bordered, blocks, candidate, sp.color);
      if sp.right - sp.left < 9 {
        continue;
      }
      OnlyBordersHit(spans, bordered, blocks, candidate);
      var overlaps := OverlapsAny(candidate, blocks);
      if !overlaps {
        blocks := blocks + [candidate];
      }
    }
  }

  method LastRow(spans: seq<Option<Span>>, row: nat, sp: Span) returns (bottom: nat)
    requires SpanAt(spans, row, sp)
    ensures row <= bottom < |spans| && spans[bottom] == Some(sp) && !SpanAt(spans, bottom + 1, sp)
    ensures forall r: nat :: row <= r <= bottom ==> SpanAt(spans, r, sp)
  {
    bottom := row;
    while bottom + 1 < |spans| && spans[bottom + 1] == Some(sp)
      invariant row <= bottom < |spans| && spans[bottom] == Some(sp)
      invariant forall r: nat :: row <= r <= bottom ==> SpanAt(spans, r, sp)
    {
      bottom := bottom + 1;
    }
  }

  lemma SkipRow(spans: seq<Option<Span>>, bordered: seq<Block>, blocks: seq<Block>, row: nat)
    requires Grouped(spans, bordered, blocks, row) && row < |spans| && spans[row].None?
    ensures Grouped(spans, bordered, blocks, row + 1)
  {
    forall b | IsGroup(spans, b)
      ensures b.bottom != row
    {
      var color :| Group(spans, b, color);
      assert SpanAt(spans, b.bottom, Span(b.left, b.right, color));
    }
  }

  lemma AddRun(spans: seq<Option<Span>>, bordered: seq<Block>, blocks: seq<Block>, b: Block, color: Color)
    requires Grouped(spans, bordered, blocks, b.top) && Run(spans, b, color)
    ensures var reported := Wide(Span(b.left, b.right, color)) && !Hits(b, bordered);
            Grouped(spans, bordered, if reported then blocks + [b] else blocks, b.bottom + 1)
  {
    forall other, color' | Run(spans, other, color') && b.top <= other.bottom <= b.bottom
      ensures other == b && color == color'
    {
      NextRun(spans, b, color, other, color');
    }
    if Wide(Span(b.left, b.right, color)) && !Hits(b, bordered) {
      var more := blocks + [b];
      assert more[|bordered|..] == blocks[|bordered|..] + [b];
      assert Group(spans, b, color);
      assert forall i :: 0 <= i < |more| ==> more[i] == if i < |blocks| then blocks[i] else b;
    }
  }

  // ---------------------------------------------------------------------
  // Both detections
  // ---------------------------------------------------------------------

  ghost predicate DominantAt(s: Screen, row: int, sp: Span)
    requires ValidScreen(s)
  {
    0 <= row < s.rows && Dominant(s.cells[row], sp)
  }

  // A maximal run of rows with the same dominant span.
  ghost predicate ColorBlock(s: Screen, b: Block, color: Color)
    requires ValidScreen(s)
  {
    var sp := Span(b.left, b.right, color);
    && !b.hasBorder && b.top <= b.bottom
    && (forall r: nat :: b.top <= r <= b.bottom ==> DominantAt(s, r, sp))
    && !DominantAt(s, b.top - 1, sp)
    && !DominantAt(s, b.bottom + 1, sp)
  }

  ghost predicate IsColorBlock(s: Screen, b: Block)
    requires ValidScreen(s)
  {
    exists color :: ColorBlock(s, b, color)
  }

  // One stretch of colour on one row is a block if and only if it is at least ten
  // cells wide.
  lemma TenCellsMakeABlock(s: Screen, left: nat, width: nat, color: Color)
    requires ValidScreen(s) && s.rows == 1 && width > 0 && left + width <= s.cols && color != Default
    requires forall c :: 0 <= c < s.cols ==> s.cells[0][c].bg == if left <= c < left + width then color else Default
    ensures IsColorBlock(s, Block(0, 0, left, left + width - 1, false)) <==> width >= 10
  {
    var b, sp := Block(0, 0, left, left + width - 1, false), Span(left, left + width - 1, color);
    if width >= 10 {
      forall other | Uniform(s.cells[0], other)
        ensures AtLeast(sp, other)
      {
        assert s.cells[0][other.left].bg != Default && s.cells[0][other.right].bg != Default;
      }
      assert Dominant(s.cells[0], sp);
      assert ColorBlock(s, b, color);
    }
    forall other | ColorBlock(s, b, other)
      ensures width >= 10
    {
      assert DominantAt(s, 0, Span(b.left, b.right, other));
    }
  }

  lemma GroupsAreColorBlocks(s: Screen, spans: seq<Option<Span>>, b: Block)
    requires ValidScreen(s) && |spans| == s.rows
    requires forall r, sp :: 0 <= r < s.rows ==> (spans[r] == Some(sp) <==> Dominant(s.cells[r], sp))
    ensures IsGroup(spans, b) <==> IsColorBlock(s, b)
    ensures IsGroup(spans, b) ==> b.bottom < |spans|
  {
    forall color
      ensures Group(spans, b, color) <==> ColorBlock(s, b, color)
      ensures Group(spans, b, color) ==> b.bottom < |spans|
    {
      var sp := Span(b.left, b.right, color);
      assert forall r: int :: SpanAt(spans, r, sp) <==> DominantAt(s, r, sp);
      if ColorBlock(s, b, color) {
        assert DominantAt(s, b.top, sp);
      }
      assert Group(spans, b, color) ==> SpanAt(spans, b.bottom, sp);
    }
  }

  // The bordered blocks come first. A colour block overlaps no other block, and
  // every maximal run of rows is reported unless it overlaps a bordered block.
  method DetectCodeBlocks(s: Screen) returns (blocks: seq<Block>, bordered: nat)
    requires ValidScreen(s)
    ensures bordered <= |blocks|
    ensures forall i :: 0 <= i < bordered ==> Candidate(s, blocks[i])
    ensures forall i, j :: 0 <= i < bordered && 0 <= j < bordered && i != j ==> !Within(blocks[i], blocks[j])
    ensures forall b :: Candidate(s, b) ==> Covered(b, blocks[..bordered])
    ensures forall i :: 0 <= i < bordered ==> blocks[i].hasBorder && DrawnBox(s, blocks[i])
    ensures forall b: Block :: b.hasBorder && DrawnBox(s, b) ==> Covered(b, blocks[..bordered])
    ensures forall i :: bordered <= i < |blocks| ==> IsColorBlock(s, blocks[i])
    ensures forall i, j :: 0 <= i < j < |blocks| && bordered <= j ==> !Overlap(blocks[j], blocks[i])
    ensures forall i, j :: 0 <= i < j < bordered ==>
              Earlier(blocks[i].top, blocks[i].left, blocks[j].top, blocks[j].left)
    ensures forall i, j :: bordered <= i < j < |blocks| ==> blocks[i].bottom < blocks[j].top
    ensures forall b :: IsColorBlock(s, b) ==> b in blocks[bordered..] || Hits(b, blocks[..bordered])
  {
    var first := DetectBordered(s);
    bordered := |first|;
    var spans := RowSpans(s);
    blocks := GroupSpans(spans, first);
    assert blocks[..bordered] == first;
    forall b
      ensures IsGroup(spans, b) <==> IsColorBlock(s, b)
      ensures IsGroup(spans, b) ==> b.bottom < |spans|
    {
      GroupsAreColorBlocks(s, spans, b);
    }
    Separate(spans, first, blocks);
  }

  lemma Separate(spans: seq<Option<Span>>, bordered: seq<Block>, blocks: seq<Block>)
    requires Grouped(spans, bordered, blocks, |spans|)
    ensures forall i, j :: 0 <= i < j < |blocks| && |bordered| <= j ==> !Overlap(blocks[j], blocks[i])
  {
    forall i, j | 0 <= i < j < |blocks| && |bordered| <= j
      ensures !Overlap(blocks[j], blocks[i])
    {
      if i < |bordered| {
        assert !Hits(blocks[j], bordered);
        assert blocks[i] == bordered[i];
      } else {
        assert blocks[i].bottom < blocks[j].top;
      }
    }
  }
}
