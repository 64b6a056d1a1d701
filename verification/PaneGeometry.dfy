/**
 Moving focus between panes. The panes of a tab are the leaves of a tree of
 two-way splits, laid out in a rectangle with a divider handle of fixed
 thickness (possibly none) between the two halves of each split. Sizes are
 whole pixels.
 */
module PaneGeometry {

  import opened Directions
  import opened Wrappers

  datatype Rect = Rect(x: int, y: int, width: int, height: int)

  // `position` is the divider position: the size of the first half.
  datatype Layout =
    | Pane(name: string)
    | Split(axis: Axis, position: int, first: Layout, second: Layout)

  datatype Placed = Placed(name: string, bounds: Rect)

  // ---------------------------------------------------------------------
  // Rectangles along one axis
  // ---------------------------------------------------------------------

  function Lo(a: Axis, r: Rect): int {
    if a == Horizontal then r.x else r.y
  }

  function Hi(a: Axis, r: Rect): int {
    if a == Horizontal then r.x + r.width else r.y + r.height
  }

  predicate RangesOverlap(aStart: int, aEnd: int, bStart: int, bEnd: int) {
    aStart < bEnd && bStart < aEnd
  }

  predicate FaceEachOther(a: Axis, r: Rect, s: Rect) {
    RangesOverlap(Lo(Across(a), r), Hi(Across(a), r), Lo(Across(a), s), Hi(Across(a), s))
  }

  // How far `s` lies beyond `r` in direction d; negative if it is not beyond.
  function Gap(d: Direction, r: Rect, s: Rect): int {
    if Forward(d) then Lo(AxisOf(d), s) - Hi(AxisOf(d), r) else Lo(AxisOf(d), r) - Hi(AxisOf(d), s)
  }

  // `s` is a pane to which focus may move from `r`.
  predicate Eligible(d: Direction, r: Rect, s: Rect) {
    Gap(d, r, s) >= 0 && FaceEachOther(AxisOf(d), s, r)
  }

  // ---------------------------------------------------------------------
  // Laying out a tree
  // ---------------------------------------------------------------------

  function FirstHalf(a: Axis, position: int, r: Rect): Rect {
    if a == Horizontal then r.(width := position) else r.(height := position)
  }

  function SecondHalf(a: Axis, position: int, r: Rect, handle: int): Rect {
    if a == Horizontal
    then Rect(r.x + position + handle, r.y, r.width - position - handle, r.height)
    else Rect(r.x, r.y + position + handle, r.width, r.height - position - handle)
  }

  // The leaves with their rectangles, in the order the widget walk finds them.
  function Place(t: Layout, r: Rect, handle: int): (ps: seq<Placed>)
    ensures |ps| >= 1
  {
    match t
    case Pane(name) => [Placed(name, r)]
    case Split(a, position, first, second) =>
      Place(first, FirstHalf(a, position, r), handle) + Place(second, SecondHalf(a, position, r, handle), handle)
  }

  // Side by side or one above the other, with the handle between them: both
  // panes have all of the rectangle across, and together with the handle all of
  // it along.
  lemma TwoPanes(a: string, b: string, position: int, r: Rect, handle: int)
    ensures Place(Split(Horizontal, position, Pane(a), Pane(b)), r, handle) ==
            [Placed(a, Rect(r.x, r.y, position, r.height)),
             Placed(b, Rect(r.x + position + handle, r.y, r.width - position - handle, r.height))]
    ensures Place(Split(Vertical, position, Pane(a), Pane(b)), r, handle) ==
            [Placed(a, Rect(r.x, r.y, r.width, position)),
             Placed(b, Rect(r.x, r.y + position + handle, r.width, r.height - position - handle))]
    ensures Dividers(Split(Horizontal, position, Pane(a), Pane(b)), r, handle) ==
            {Divider(Horizontal, Rect(r.x + position, r.y, handle, r.height))}
    ensures Dividers(Split(Vertical, position, Pane(a), Pane(b)), r, handle) ==
            {Divider(Vertical, Rect(r.x, r.y + position, r.width, handle))}
  {
  }

  // Direction by direction: the pane lies wholly on that side, and a line across
  // meets both.
  lemma EligibleByDirection(r: Rect, s: Rect)
    ensures Eligible(Left, r, s) <==> s.x + s.width <= r.x && r.y < s.y + s.height && s.y < r.y + r.height
    ensures Eligible(Right, r, s) <==> r.x + r.width <= s.x && r.y < s.y + s.height && s.y < r.y + r.height
    ensures Eligible(Up, r, s) <==> s.y + s.height <= r.y && r.x < s.x + s.width && s.x < r.x + r.width
    ensures Eligible(Down, r, s) <==> r.y + r.height <= s.y && r.x < s.x + s.width && s.x < r.x + r.width
    ensures Gap(Left, r, s) == r.x - (s.x + s.width) && Gap(Right, r, s) == s.x - (r.x + r.width)
    ensures Gap(Up, r, s) == r.y - (s.y + s.height) && Gap(Down, r, s) == s.y - (r.y + r.height)
  {
  }

  // Every pane gets some room.
  predicate Fits(t: Layout, r: Rect, handle: int) {
    && r.width > 0 && r.height > 0
    && (t.Split? ==>
          && Fits(t.first, FirstHalf(t.axis, t.position, r), handle)
          && Fits(t.second, SecondHalf(t.axis, t.position, r, handle), handle))
  }

  // The handle between the halves of a split.
  datatype Divider = Divider(axis: Axis, bounds: Rect)

  function Between(a: Axis, position: int, r: Rect, handle: int): Rect {
    if a == Horizontal then Rect(r.x + position, r.y, handle, r.height) else Rect(r.x, r.y + position, r.width, handle)
  }

  function Dividers(t: Layout, r: Rect, handle: int): set<Divider> {
    match t
    case Pane(_) => {}
    case Split(a, position, first, second) =>
      {Divider(a, Between(a, position, r, handle))}
      + Dividers(first, FirstHalf(a, position, r), handle)
      + Dividers(second, SecondHalf(a, position, r, handle), handle)
  }

  // Across one handle from pane p, all of its side looks at the end of another
  // divider: its split runs the other way, and p is no wider than the handle.
  ghost predicate Blocked(t: Layout, r: Rect, handle: int, d: Direction, p: Rect) {
    exists h :: h in Dividers(t, r, handle) && Blocks(h, handle, d, p)
  }

  predicate Blocks(h: Divider, handle: int, d: Direction, p: Rect) {
    var across := Across(AxisOf(d));
    && h.axis == across && Gap(d, p, h.bounds) == handle
    && Lo(across, h.bounds) <= Lo(across, p) && Hi(across, p) <= Hi(across, h.bounds)
  }

  predicate OnEdge(d: Direction, p: Rect, container: Rect) {
    if Forward(d) then Hi(AxisOf(d), p) == Hi(AxisOf(d), container) else Lo(AxisOf(d), p) == Lo(AxisOf(d), container)
  }

  predicate Inside(p: Rect, r: Rect) {
    r.x <= p.x && p.x + p.width <= r.x + r.width && r.y <= p.y && p.y + p.height <= r.y + r.height
  }

  // ---------------------------------------------------------------------
  // Navigation
  // ---------------------------------------------------------------------

  ghost predicate UniqueNames(ps: seq<Placed>) {
    forall i, j :: 0 <= i < j < |ps| ==> ps[i].name != ps[j].name
  }

  // Index `b` is the first of the nearest eligible panes.
  ghost predicate Nearest(d: Direction, ps: seq<Placed>, f: nat, b: nat)
    requires f < |ps| && b < |ps|
  {
    && b != f
    && Eligible(d, ps[f].bounds, ps[b].bounds)
    && (forall k :: 0 <= k < |ps| && k != f && Eligible(d, ps[f].bounds, ps[k].bounds) ==>
          Gap(d, ps[f].bounds, ps[b].bounds) <= Gap(d, ps[f].bounds, ps[k].bounds)
          && (k < b ==> Gap(d, ps[f].bounds, ps[b].bounds) < Gap(d, ps[f].bounds, ps[k].bounds)))
  }

  ghost predicate NoneEligible(d: Direction, ps: seq<Placed>, f: nat)
    requires f < |ps|
  {
    forall k :: 0 <= k < |ps| && k != f ==> !Eligible(d, ps[f].bounds, ps[k].bounds)
  }

  // The candidate loop: the chosen pane, if any, is the nearest eligible one,
  // the earliest in walk order among equals.
  method NavigatePane(leaves: seq<Placed>, focusedName: string, d: Direction) returns (target: Option<string>)
    requires UniqueNames(leaves)
    ensures target.Some? ==>
              exists f: nat, b: nat ::
                && f < |leaves| && b < |leaves| && Nearest(d, leaves, f, b)
                && leaves[f].name == focusedName && leaves[b].name == target.value
    ensures target.None? && focusedName != "" ==>
              forall f: nat :: f < |leaves| && leaves[f].name == focusedName ==> NoneEligible(d, leaves, f)
  {
    if focusedName == "" || |leaves| < 2 {
      return None;
    }
    var focused := FindLeaf(leaves, focusedName);
    if focused.None? {
      return None;
    }
    var f := focused.value;
    var at := leaves[f].bounds;
    var best: Option<(nat, int)> := None;
    for k := 0 to |leaves|
      invariant best.None? ==>
                  forall j :: 0 <= j < k && j != f ==> !Eligible(d, at, leaves[j].bounds)
      invariant best.Some? ==>
                  var (b, distance) := best.value;
                  && b < k && b != f && distance == Gap(d, at, leaves[b].bounds)
                  && Eligible(d, at, leaves[b].bounds)
                  && forall j :: 0 <= j < k && j != f && Eligible(d, at, leaves[j].bounds) ==>
                       && distance <= Gap(d, at, leaves[j].bounds)
                       && (j < b ==> distance < Gap(d, at, leaves[j].bounds))
    {
      if leaves[k].name == leaves[f].name {
        continue;
      }
      var c := leaves[k].bounds;
      var isValid, distance := Consider(d, at, c);
      if isValid && (best.None? || distance < best.value.1) {
        best := Some((k, distance));
      }
    }
    if best.Some? {
      assert Nearest(d, leaves, f, best.value.0);
      return Some(leaves[best.value.0].name);
    }
    target := None;
  }

  method Consider(d: Direction, at: Rect, c: Rect) returns (isValid: bool, distance: int)
    ensures isValid == Eligible(d, at, c) && distance == Gap(d, at, c)
  {
    match d {
      case Left =>
        isValid := c.x + c.width <= at.x && RangesOverlap(c.y, c.y + c.height, at.y, at.y + at.height);
        distance := at.x - (c.x + c.width);
      case Right =>
        isValid := c.x >= at.x + at.width && RangesOverlap(c.y, c.y + c.height, at.y, at.y + at.height);
        distance := c.x - (at.x + at.width);
      case Up =>
        isValid := c.y + c.height <= at.y && RangesOverlap(c.x, c.x + c.width, at.x, at.x + at.width);
        distance := at.y - (c.y + c.height);
      case Down =>
        isValid := c.y >= at.y + at.height && RangesOverlap(c.x, c.x + c.width, at.x, at.x + at.width);
        distance := c.y - (at.y + at.height);
    }
  }

  method FindLeaf(leaves: seq<Placed>, name: string) returns (r: Option<nat>)
    ensures r.Some? ==> r.value < |leaves| && leaves[r.value].name == name
    ensures r.None? ==> forall k :: 0 <= k < |leaves| ==> leaves[k].name != name
  {
    for k := 0 to |leaves|
      invariant forall j :: 0 <= j < k ==> leaves[j].name != name
    {
      if leaves[k].name == name {
        return Some(k);
      }
    }
    r := None;
  }

  // ---------------------------------------------------------------------
  // Where focus lands
  // ---------------------------------------------------------------------

  lemma {:induction false} LeavesFit(t: Layout, r: Rect, handle: int, i: nat)
    requires handle >= 0 && Fits(t, r, handle) && i < |Place(t, r, handle)|
    ensures var p := Place(t, r, handle)[i].bounds;
            Inside(p, r) && p.width > 0 && p.height > 0
    decreases t
  {
    if t.Split? {
      var n := |Place(t.first, FirstHalf(t.axis, t.position, r), handle)|;
      if i < n {
        LeavesFit(t.first, FirstHalf(t.axis, t.position, r), handle, i);
      } else {
        LeavesFit(t.second, SecondHalf(t.axis, t.position, r, handle), handle, i - n);
      }
    }
  }

  // A layout fits if and only if each of its panes has some room.
  lemma {:induction false} FitsIffRoom(t: Layout, r: Rect, handle: int)
    requires handle >= 0
    ensures Fits(t, r, handle) <==> forall p :: p in Place(t, r, handle) ==> p.bounds.width > 0 && p.bounds.height > 0
    decreases t
  {
    if t.Split? {
      var r1, r2 := FirstHalf(t.axis, t.position, r), SecondHalf(t.axis, t.position, r, handle);
      FitsIffRoom(t.first, r1, handle);
      FitsIffRoom(t.second, r2, handle);
      var first, second := Place(t.first, r1, handle), Place(t.second, r2, handle);
      assert forall p :: p in first + second <==> p in first || p in second;
    } else {
      assert Placed(t.name, r) in Place(t, r, handle);
    }
  }

  // Between two panes of which one lies beyond the other there is at least a
  // handle.
  lemma {:induction false} EligibleAreApart(t: Layout, r: Rect, handle: int, d: Direction, i: nat, j: nat)
    requires handle >= 0 && Fits(t, r, handle)
    requires i < |Place(t, r, handle)| && j < |Place(t, r, handle)| && i != j
    requires Eligible(d, Place(t, r, handle)[i].bounds, Place(t, r, handle)[j].bounds)
    ensures Gap(d, Place(t, r, handle)[i].bounds, Place(t, r, handle)[j].bounds) >= handle
    decreases t
  {
    if t.Split? {
      var r1, r2 := FirstHalf(t.axis, t.position, r), SecondHalf(t.axis, t.position, r, handle);
      var n := |Place(t.first, r1, handle)|;
      if i < n && j < n {
        EligibleAreApart(t.first, r1, handle, d, i, j);
      } else if i >= n && j >= n {
        EligibleAreApart(t.second, r2, handle, d, i - n, j - n);
      } else if i < n {
        LeavesFit(t.first, r1, handle, i);
        LeavesFit(t.second, r2, handle, j - n);
      } else {
        LeavesFit(t.first, r1, handle, j);
        LeavesFit(t.second, r2, handle, i - n);
      }
    }
  }

  // The side of a rectangle that is entered when moving in direction d.
  predicate OnEntrySide(d: Direction, q: Rect, r: Rect) {
    Entry(d, q) == Entry(d, r)
  }

  function Entry(d: Direction, r: Rect): int {
    if Forward(d) then Lo(AxisOf(d), r) else Hi(AxisOf(d), r)
  }

  // Leaf c meets the stretch along the side entered when moving in direction d, or
  // the stretch lies within the end of divider h.
  predicate MetOrCut(t: Layout, r: Rect, handle: int, d: Direction, lo: int, hi: int, c: Option<nat>, h: Divider) {
    var across := Across(AxisOf(d));
    var met := c.Some? && c.value < |Place(t, r, handle)| &&
               var p := Place(t, r, handle)[c.value].bounds;
               RangesOverlap(Lo(across, p), Hi(across, p), lo, hi) && OnEntrySide(d, p, r);
    var cut := h in Dividers(t, r, handle) && h.axis == across && OnEntrySide(d, h.bounds, r)
               && Lo(across, h.bounds) <= lo && hi <= Hi(across, h.bounds);
    if c.Some? then met else cut
  }

  // A stretch of one side of a layout meets a leaf along that side, unless it
  // lies within the end of one divider. The side is the one entered when moving
  // in direction d.
  lemma {:induction false} SideIsCovered(t: Layout, r: Rect, handle: int, d: Direction, lo: int, hi: int)
    returns (c: Option<nat>, h: Divider)
    requires handle >= 0 && Fits(t, r, handle)
    requires lo < hi && RangesOverlap(Lo(Across(AxisOf(d)), r), Hi(Across(AxisOf(d)), r), lo, hi)
    ensures MetOrCut(t, r, handle, d, lo, hi, c, h)
    decreases t, 1
  {
    match t
    case Pane(_) => c, h := Some(0), Divider(Horizontal, r);
    case Split(a, _, _, _) =>
      if a == AxisOf(d) {
        c, h := SideOfNearerHalf(t, r, handle, d, lo, hi);
      } else {
        c, h := SideOfBothHalves(t, r, handle, d, lo, hi);
      }
  }

  lemma {:induction false} SideOfNearerHalf(t: Layout, r: Rect, handle: int, d: Direction, lo: int, hi: int)
    returns (c: Option<nat>, h: Divider)
    requires t.Split? && t.axis == AxisOf(d) && handle >= 0 && Fits(t, r, handle)
    requires lo < hi && RangesOverlap(Lo(Across(AxisOf(d)), r), Hi(Across(AxisOf(d)), r), lo, hi)
    ensures MetOrCut(t, r, handle, d, lo, hi, c, h)
    decreases t, 0
  {
    var r1, r2 := FirstHalf(t.axis, t.position, r), SecondHalf(t.axis, t.position, r, handle);
    if Forward(d) {
      c, h := SideIsCovered(t.first, r1, handle, d, lo, hi);
    } else {
      c, h := SideIsCovered(t.second, r2, handle, d, lo, hi);
      c := if c.Some? then Some(|Place(t.first, r1, handle)| + c.value) else None;
    }
  }

  lemma {:induction false} SideOfBothHalves(t: Layout, r: Rect, handle: int, d: Direction, lo: int, hi: int)
    returns (c: Option<nat>, h: Divider)
    requires t.Split? && t.axis != AxisOf(d) && handle >= 0 && Fits(t, r, handle)
    requires lo < hi && RangesOverlap(Lo(Across(AxisOf(d)), r), Hi(Across(AxisOf(d)), r), lo, hi)
    ensures MetOrCut(t, r, handle, d, lo, hi, c, h)
    decreases t, 0
  {
    var r1, r2 := FirstHalf(t.axis, t.position, r), SecondHalf(t.axis, t.position, r, handle);
    if RangesOverlap(Lo(t.axis, r1), Hi(t.axis, r1), lo, hi) {
      c, h := SideIsCovered(t.first, r1, handle, d, lo, hi);
    } else if RangesOverlap(Lo(t.axis, r2), Hi(t.axis, r2), lo, hi) {
      c, h := SideIsCovered(t.second, r2, handle, d, lo, hi);
      c := if c.Some? then Some(|Place(t.first, r1, handle)| + c.value) else None;
    } else {
      c, h := None, Divider(t.axis, Between(t.axis, t.position, r, handle));
    }
  }

  // The two face each other across nothing but one handle.
  predicate IsNeighbour(d: Direction, r: Rect, s: Rect, handle: int) {
    Gap(d, r, s) == handle && FaceEachOther(AxisOf(d), s, r)
  }

  // A pane at the edge of one half but not of the whole has the divider before it,
  // and behind that the other half.
  lemma OverTheDivider(a: Axis, position: int, r: Rect, handle: int, d: Direction, p: Rect, inFirst: bool)
    requires var r1, r2 := FirstHalf(a, position, r), SecondHalf(a, position, r, handle);
             var own := if inFirst then r1 else r2;
             OnEdge(d, p, own) && Inside(p, own) && p.width > 0 && p.height > 0
    requires !OnEdge(d, p, r)
    ensures var other := if inFirst then SecondHalf(a, position, r, handle) else FirstHalf(a, position, r);
            && FaceEachOther(AxisOf(d), other, p)
            && forall q :: OnEntrySide(d, q, other) ==> Gap(d, p, q) == handle
  {
  }

  // Leaf c is a neighbour of pane p, or divider h blocks it.
  predicate NextOrBlocked(t: Layout, r: Rect, handle: int, d: Direction, p: Rect, c: Option<nat>, h: Divider) {
    var next := c.Some? && c.value < |Place(t, r, handle)| && IsNeighbour(d, p, Place(t, r, handle)[c.value].bounds, handle);
    var blocked := h in Dividers(t, r, handle) && Blocks(h, handle, d, p);
    if c.Some? then next else blocked
  }

  // From a pane at the edge of one half, the other half is entered.
  lemma OtherHalf(t: Layout, r: Rect, handle: int, d: Direction, p: Rect, inFirst: bool) returns (c: Option<nat>, h: Divider)
    requires t.Split? && handle >= 0 && Fits(t, r, handle)
    requires var own := if inFirst then FirstHalf(t.axis, t.position, r) else SecondHalf(t.axis, t.position, r, handle);
             OnEdge(d, p, own) && Inside(p, own) && p.width > 0 && p.height > 0
    requires !OnEdge(d, p, r)
    ensures NextOrBlocked(t, r, handle, d, p, c, h)
    ensures c.Some? ==> (c.value < |Place(t.first, FirstHalf(t.axis, t.position, r), handle)| <==> !inFirst)
  {
    var r1, r2 := FirstHalf(t.axis, t.position, r), SecondHalf(t.axis, t.position, r, handle);
    var lo, hi := Lo(Across(AxisOf(d)), p), Hi(Across(AxisOf(d)), p);
    OverTheDivider(t.axis, t.position, r, handle, d, p, inFirst);
    if inFirst {
      c, h := SideIsCovered(t.second, r2, handle, d, lo, hi);
      c := if c.Some? then Some(|Place(t.first, r1, handle)| + c.value) else None;
    } else {
      c, h := SideIsCovered(t.first, r1, handle, d, lo, hi);
    }
  }

  // A pane not on the container's edge has a neighbour unless it is blocked.
  lemma {:induction false} NeighbourOrBlocked(t: Layout, r: Rect, handle: int, d: Direction, f: nat)
    returns (c: Option<nat>, h: Divider)
    requires handle >= 0 && Fits(t, r, handle) && f < |Place(t, r, handle)|
    requires !OnEdge(d, Place(t, r, handle)[f].bounds, r)
    ensures NextOrBlocked(t, r, handle, d, Place(t, r, handle)[f].bounds, c, h) && c != Some(f)
    decreases t
  {
    match t
    case Split(a, position, first, second) =>
      var r1, r2 := FirstHalf(a, position, r), SecondHalf(a, position, r, handle);
      var n := |Place(first, r1, handle)|;
      var p := Place(t, r, handle)[f].bounds;
      if f < n {
        LeavesFit(first, r1, handle, f);
        if OnEdge(d, p, r1) {
          c, h := OtherHalf(t, r, handle, d, p, true);
        } else {
          c, h := NeighbourOrBlocked(first, r1, handle, d, f);
        }
      } else {
        LeavesFit(second, r2, handle, f - n);
        if OnEdge(d, p, r2) {
          c, h := OtherHalf(t, r, handle, d, p, false);
        } else {
          c, h := NeighbourOrBlocked(second, r2, handle, d, f - n);
          c := if c.Some? then Some(n + c.value) else None;
        }
      }
  }

  lemma {:induction false} DividersInside(t: Layout, r: Rect, handle: int, h: Divider)
    requires handle >= 0 && Fits(t, r, handle) && h in Dividers(t, r, handle)
    ensures Inside(h.bounds, r) && (if h.axis == Horizontal then h.bounds.height > 0 else h.bounds.width > 0)
    decreases t
  {
    var r1, r2 := FirstHalf(t.axis, t.position, r), SecondHalf(t.axis, t.position, r, handle);
    if h in Dividers(t.first, r1, handle) {
      DividersInside(t.first, r1, handle, h);
    } else if h in Dividers(t.second, r2, handle) {
      DividersInside(t.second, r2, handle, h);
    }
  }

  predicate Overlap(p: Rect, q: Rect) {
    FaceEachOther(Horizontal, p, q) && FaceEachOther(Vertical, p, q)
  }

  // No pane lies over a divider.
  lemma {:induction false} PanesClearDividers(t: Layout, r: Rect, handle: int, i: nat, h: Divider)
    requires handle >= 0 && Fits(t, r, handle) && i < |Place(t, r, handle)| && h in Dividers(t, r, handle)
    ensures !Overlap(Place(t, r, handle)[i].bounds, h.bounds)
    decreases t
  {
    var r1, r2 := FirstHalf(t.axis, t.position, r), SecondHalf(t.axis, t.position, r, handle);
    var n := |Place(t.first, r1, handle)|;
    if i < n {
      LeavesFit(t.first, r1, handle, i);
      if h in Dividers(t.first, r1, handle) {
        PanesClearDividers(t.first, r1, handle, i, h);
      } else if h in Dividers(t.second, r2, handle) {
        DividersInside(t.second, r2, handle, h);
      }
    } else {
      LeavesFit(t.second, r2, handle, i - n);
      if h in Dividers(t.second, r2, handle) {
        PanesClearDividers(t.second, r2, handle, i - n, h);
      } else if h in Dividers(t.first, r1, handle) {
        DividersInside(t.first, r1, handle, h);
      }
    }
  }

  lemma BlockedHasNoNeighbour(t: Layout, r: Rect, handle: int, d: Direction, p: Rect, c: nat, h: Divider)
    requires handle >= 0 && Fits(t, r, handle) && c < |Place(t, r, handle)|
    requires h in Dividers(t, r, handle) && Blocks(h, handle, d, p)
    ensures !IsNeighbour(d, p, Place(t, r, handle)[c].bounds, handle)
  {
    LeavesFit(t, r, handle, c);
    DividersInside(t, r, handle, h);
    PanesClearDividers(t, r, handle, c, h);
  }

  // On the container's edge focus stays put. Elsewhere it lands on a pane that
  // faces it across nothing but one handle if and only if the pane is not
  // blocked; with handles of no thickness, the two share a stretch of border.
  lemma NavigationLandsOnNeighbour(t: Layout, r: Rect, handle: int, d: Direction, f: nat)
    requires handle >= 0 && Fits(t, r, handle) && f < |Place(t, r, handle)|
    ensures var ps, p := Place(t, r, handle), Place(t, r, handle)[f].bounds;
            && (OnEdge(d, p, r) ==> NoneEligible(d, ps, f))
            && (NoneEligible(d, ps, f) ==> OnEdge(d, p, r) || Blocked(t, r, handle, d, p))
            && forall b: nat :: b < |ps| && Nearest(d, ps, f, b) ==>
                 (IsNeighbour(d, p, ps[b].bounds, handle) <==> !Blocked(t, r, handle, d, p))
  {
    var ps := Place(t, r, handle);
    var p := ps[f].bounds;
    if OnEdge(d, p, r) {
      NothingBeyondEdge(t, r, handle, d, f);
    } else {
      var c, h := NeighbourOrBlocked(t, r, handle, d, f);
      forall b: nat | b < |ps| && Nearest(d, ps, f, b)
        ensures IsNeighbour(d, p, ps[b].bounds, handle) <==> !Blocked(t, r, handle, d, p)
      {
        NearestNeighbourIff(t, r, handle, d, f, b, c, h);
      }
    }
  }

  lemma NothingBeyondEdge(t: Layout, r: Rect, handle: int, d: Direction, f: nat)
    requires handle >= 0 && Fits(t, r, handle) && f < |Place(t, r, handle)|
    requires OnEdge(d, Place(t, r, handle)[f].bounds, r)
    ensures NoneEligible(d, Place(t, r, handle), f)
  {
    var ps := Place(t, r, handle);
    forall k | 0 <= k < |ps| && k != f
      ensures !Eligible(d, ps[f].bounds, ps[k].bounds)
    {
      LeavesFit(t, r, handle, k);
    }
  }

  lemma NearestNeighbourIff(t: Layout, r: Rect, handle: int, d: Direction, f: nat, b: nat, c: Option<nat>, h: Divider)
    requires handle >= 0 && Fits(t, r, handle) && f < |Place(t, r, handle)| && b < |Place(t, r, handle)|
    requires Nearest(d, Place(t, r, handle), f, b)
    requires NextOrBlocked(t, r, handle, d, Place(t, r, handle)[f].bounds, c, h) && c != Some(f)
    ensures var ps, p := Place(t, r, handle), Place(t, r, handle)[f].bounds;
            IsNeighbour(d, p, ps[b].bounds, handle) <==> !Blocked(t, r, handle, d, p)
  {
    var ps := Place(t, r, handle);
    var p := ps[f].bounds;
    if Blocked(t, r, handle, d, p) {
      var k :| k in Dividers(t, r, handle) && Blocks(k, handle, d, p);
      BlockedHasNoNeighbour(t, r, handle, d, p, b, k);
    } else {
      EligibleAreApart(t, r, handle, d, f, b);
      assert Eligible(d, p, ps[c.value].bounds);
    }
  }

  // Wider than a handle is wide enough.
  lemma WidePanesAreNotBlocked(t: Layout, r: Rect, handle: int, d: Direction, p: Rect)
    requires handle >= 0 && Fits(t, r, handle)
    requires Hi(Across(AxisOf(d)), p) - Lo(Across(AxisOf(d)), p) > handle
    ensures !Blocked(t, r, handle, d, p)
  {
    forall h | h in Dividers(t, r, handle)
      ensures !Blocks(h, handle, d, p)
    {
      DividerIsThin(t, r, handle, h);
    }
  }

  lemma {:induction false} DividerIsThin(t: Layout, r: Rect, handle: int, h: Divider)
    requires h in Dividers(t, r, handle)
    ensures Hi(h.axis, h.bounds) - Lo(h.axis, h.bounds) == handle
    decreases t
  {
    var r1, r2 := FirstHalf(t.axis, t.position, r), SecondHalf(t.axis, t.position, r, handle);
    if h in Dividers(t.first, r1, handle) {
      DividerIsThin(t.first, r1, handle, h);
    } else if h in Dividers(t.second, r2, handle) {
      DividerIsThin(t.second, r2, handle, h);
    }
  }

  const LEFT_COLUMN := Split(Vertical, 4, Pane("a"), Split(Vertical, 2, Pane("b"), Pane("c")))
  const MIDDLE_COLUMN := Split(Vertical, 6, Pane("d"), Pane("e"))
  const TWO_COLUMNS := Split(Horizontal, 4, LEFT_COLUMN, MIDDLE_COLUMN)
  const THREE_COLUMNS := Split(Horizontal, 4, LEFT_COLUMN, Split(Horizontal, 4, MIDDLE_COLUMN, Pane("f")))

  function PlacedLeft(): seq<Placed> {
    [Placed("a", Rect(0, 0, 4, 4)), Placed("b", Rect(0, 6, 4, 2)), Placed("c", Rect(0, 10, 4, 10))]
  }

  function PlacedMiddle(): seq<Placed> {
    [Placed("d", Rect(6, 0, 4, 6)), Placed("e", Rect(6, 8, 4, 12))]
  }

  lemma ColumnsArePlaced()
    ensures Place(TWO_COLUMNS, Rect(0, 0, 10, 20), 2) == PlacedLeft() + PlacedMiddle()
    ensures Place(THREE_COLUMNS, Rect(0, 0, 20, 20), 2) == PlacedLeft() + (PlacedMiddle() + [Placed("f", Rect(12, 0, 8, 20))])
  {
    assert Place(LEFT_COLUMN, Rect(0, 0, 4, 20), 2) == PlacedLeft() by {
      assert Place(LEFT_COLUMN.second, Rect(0, 6, 4, 14), 2) == PlacedLeft()[1..];
    }
    assert Place(MIDDLE_COLUMN, Rect(6, 0, 4, 20), 2) == PlacedMiddle();
    assert Place(THREE_COLUMNS.second, Rect(6, 0, 14, 20), 2) == PlacedMiddle() + [Placed("f", Rect(12, 0, 8, 20))];
  }

  lemma DividersOfSplit(t: Layout, r: Rect, handle: int, h: Divider)
    requires t.Split?
    ensures h == Divider(t.axis, Between(t.axis, t.position, r, handle)) ==> h in Dividers(t, r, handle)
    ensures h in Dividers(t.first, FirstHalf(t.axis, t.position, r), handle) ==> h in Dividers(t, r, handle)
    ensures h in Dividers(t.second, SecondHalf(t.axis, t.position, r, handle), handle) ==> h in Dividers(t, r, handle)
  {
  }

  lemma ColumnsFit()
    ensures Fits(TWO_COLUMNS, Rect(0, 0, 10, 20), 2) && Fits(THREE_COLUMNS, Rect(0, 0, 20, 20), 2)
  {
  }

  lemma ThinPaneIsBlocked()
    ensures Blocked(TWO_COLUMNS, Rect(0, 0, 10, 20), 2, Right, Rect(0, 6, 4, 2))
    ensures Blocked(THREE_COLUMNS, Rect(0, 0, 20, 20), 2, Right, Rect(0, 6, 4, 2))
  {
    var h := Divider(Vertical, Rect(6, 6, 4, 2));
    DividersOfSplit(MIDDLE_COLUMN, Rect(6, 0, 4, 20), 2, h);
    DividersOfSplit(TWO_COLUMNS, Rect(0, 0, 10, 20), 2, h);
    DividersOfSplit(THREE_COLUMNS.second, Rect(6, 0, 14, 20), 2, h);
    DividersOfSplit(THREE_COLUMNS, Rect(0, 0, 20, 20), 2, h);
    assert Blocks(h, 2, Right, Rect(0, 6, 4, 2));
  }

  lemma ThinPaneHasNoNext()
    ensures NoneEligible(Right, Place(TWO_COLUMNS, Rect(0, 0, 10, 20), 2), 1)
    ensures Nearest(Right, Place(THREE_COLUMNS, Rect(0, 0, 20, 20), 2), 1, 5)
  {
    ColumnsArePlaced();
  }

  lemma ThinPaneStands()
    ensures var ps := Place(TWO_COLUMNS, Rect(0, 0, 10, 20), 2);
            |ps| == 5 && ps[1] == Placed("b", Rect(0, 6, 4, 2))
    ensures var ps := Place(THREE_COLUMNS, Rect(0, 0, 20, 20), 2);
            |ps| == 6 && ps[1] == Placed("b", Rect(0, 6, 4, 2)) && ps[5].name == "f"
  {
    ColumnsArePlaced();
  }

  // Three columns with handles of two pixels. The middle pane of the first is as
  // high as the handle that divides the second: from there focus jumps over the
  // second column, and without the third it would stay put.
  lemma ThinPaneSkipsItsNeighbours(two: Layout, three: Layout, r2: Rect, r3: Rect)
    requires two == TWO_COLUMNS && three == THREE_COLUMNS && r2 == Rect(0, 0, 10, 20) && r3 == Rect(0, 0, 20, 20)
    ensures var ps := Place(two, r2, 2);
            && Fits(two, r2, 2) && |ps| == 5 && ps[1] == Placed("b", Rect(0, 6, 4, 2))
            && Blocked(two, r2, 2, Right, ps[1].bounds) && NoneEligible(Right, ps, 1)
    ensures var ps := Place(three, r3, 2);
            && Fits(three, r3, 2) && |ps| == 6 && ps[1] == Placed("b", Rect(0, 6, 4, 2)) && ps[5].name == "f"
            && Blocked(three, r3, 2, Right, ps[1].bounds) && Nearest(Right, ps, 1, 5)
  {
    ColumnsFit();
    ThinPaneStands();
    ThinPaneIsBlocked();
    ThinPaneHasNoNext();
  }

  // The method and the geometry together.
  method NavigateInLayout(t: Layout, r: Rect, handle: int, focusedName: string, d: Direction) returns (target: Option<string>)
    requires handle >= 0 && Fits(t, r, handle) && UniqueNames(Place(t, r, handle)) && focusedName != ""
    ensures var ps := Place(t, r, handle);
            forall f: nat :: f < |ps| && ps[f].name == focusedName ==>
              var p := ps[f].bounds;
              && (OnEdge(d, p, r) ==> target.None?)
              && (target.None? ==> OnEdge(d, p, r) || Blocked(t, r, handle, d, p))
              && (target.Some? ==>
                    exists b: nat ::
                      && b < |ps| && ps[b].name == target.value
                      && (IsNeighbour(d, p, ps[b].bounds, handle) <==> !Blocked(t, r, handle, d, p)))
  {
    target := NavigatePane(Place(t, r, handle), focusedName, d);
    forall f: nat | f < |Place(t, r, handle)| && Place(t, r, handle)[f].name == focusedName {
      NavigationLandsOnNeighbour(t, r, handle, d, f);
    }
  }
}
