/**
 The widget tree of one tab: panes at the leaves, two-slot paned containers
 inside, parent pointers upwards. Splitting, closing and resizing rewire and
 adjust it in place.
 */
module PanedTree {

  import opened Directions
  import opened Numbers
  import opened Wrappers

  // What the tree means, without the widgets.
  datatype Tree =
    | Pane(name: string)
    | Split(orientation: Axis, first: Tree, second: Tree)

  function Present(a: Widget?, b: Widget?): set<Widget> {
    (if a == null then {} else {a}) + (if b == null then {} else {b})
  }

  class Widget {
    const isPaned: bool
    const name: string              // of a pane
    const orientation: Axis  // of a paned
    const extent: nat               // of a paned: its size along its orientation
    var parent: Widget?             // the paned it sits in; null at the top of the tab
    var start: Widget?
    var end: Widget?
    var position: int               // of a paned: where its divider is

    constructor Pane(name: string)
      ensures !isPaned && this.name == name && parent == null && start == null && end == null
    {
      isPaned, this.name, orientation, extent := false, name, Horizontal, 0;
      parent, start, end, position := null, null, null, 0;
    }

    constructor Paned(orientation: Axis, extent: nat)
      ensures isPaned && this.orientation == orientation && this.extent == extent
      ensures parent == null && start == null && end == null
    {
      isPaned, name, this.orientation, this.extent := true, "", orientation, extent;
      parent, start, end, position := null, null, null, 0;
    }

    // The toolkit's slot setter: the old occupant loses its parent, the new
    // one, which must have none, gets this one.
    method SetStartChild(child: Widget?)
      requires isPaned && (child != null ==> child.parent == null && child != this && child != start)
      requires start != this
      modifies this`start, Present(start, child)`parent
      ensures start == child
      ensures child != null ==> child.parent == this
      ensures old(start) != null ==> old(start).parent == null
    {
      if start != null {
        start.parent := null;
      }
      start := child;
      if child != null {
        child.parent := this;
      }
    }

    method SetEndChild(child: Widget?)
      requires isPaned && (child != null ==> child.parent == null && child != this && child != end)
      requires end != this
      modifies this`end, Present(end, child)`parent
      ensures end == child
      ensures child != null ==> child.parent == this
      ensures old(end) != null ==> old(end).parent == null
    {
      if end != null {
        end.parent := null;
      }
      end := child;
      if child != null {
        child.parent := this;
      }
    }
  }

  // ---------------------------------------------------------------------
  // Shapes: which widgets a tree is made of
  // ---------------------------------------------------------------------

  datatype Shape = Leaf(pane: Widget) | Node(paned: Widget, first: Shape, second: Shape)

  function Root(s: Shape): Widget {
    if s.Leaf? then s.pane else s.paned
  }

  function Widgets(s: Shape): set<Widget> {
    match s
    case Leaf(w) => {w}
    case Node(p, a, b) => {p} + Widgets(a) + Widgets(b)
  }

  function Panes(s: Shape): seq<Widget> {
    match s
    case Leaf(w) => [w]
    case Node(_, a, b) => Panes(a) + Panes(b)
  }

  // The wiring of some widgets at one moment.
  datatype Links = Links(parent: Widget?, start: Widget?, end: Widget?)

  type Wiring = map<Widget, Links>

  ghost function WiringOf(ws: set<Widget>): Wiring
    reads ws
  {
    map w | w in ws :: Links(w.parent, w.start, w.end)
  }

  // The widgets are wired as the shape says: both slots of every paned are
  // filled, every widget's parent is the paned it sits in, and no widget is in
  // two places.
  predicate Linked(s: Shape, parent: Widget?, m: Wiring) {
    match s
    case Leaf(w) => w in m && !w.isPaned && m[w] == Links(parent, null, null)
    case Node(p, a, b) =>
      && p in m && p.isPaned && m[p].parent == parent
      && m[p].start == Root(a) && m[p].end == Root(b)
      && p !in Widgets(a) && p !in Widgets(b) && Widgets(a) !! Widgets(b)
      && Linked(a, p, m) && Linked(b, p, m)
  }

  // A whole tab's tree.
  predicate WellWired(s: Shape, m: Wiring) {
    var linked := Linked(s, null, m);
    linked
  }

  function Meaning(s: Shape): Tree {
    match s
    case Leaf(w) => Pane(w.name)
    case Node(p, a, b) => Split(p.orientation, Meaning(a), Meaning(b))
  }

  // ---------------------------------------------------------------------
  // What splitting and closing do
  // ---------------------------------------------------------------------

  function Names(t: Tree): set<string> {
    match t
    case Pane(n) => {n}
    case Split(_, a, b) => Names(a) + Names(b)
  }

  predicate DistinctNames(t: Tree) {
    t.Split? ==> DistinctNames(t.first) && DistinctNames(t.second) && Names(t.first) !! Names(t.second)
  }

  function FirstName(t: Tree): string {
    match t
    case Pane(n) => n
    case Split(_, a, _) => FirstName(a)
  }

  function SplitTree(t: Tree, name: string, newName: string, o: Axis, before: bool): Tree {
    match t
    case Pane(n) =>
      if n != name then t
      else if before then Split(o, Pane(newName), t) else Split(o, t, Pane(newName))
    case Split(q, a, b) => Split(q, SplitTree(a, name, newName, o, before), SplitTree(b, name, newName, o, before))
  }

  // The pane's sibling takes the place of their split.
  function CloseTree(t: Tree, name: string): Tree {
    match t
    case Pane(_) => t
    case Split(o, a, b) =>
      if a == Pane(name) then b
      else if b == Pane(name) then a
      else Split(o, CloseTree(a, name), CloseTree(b, name))
  }

  // What is left next to a pane when its split is undone.
  function SiblingTree(t: Tree, name: string): Tree {
    match t
    case Pane(_) => t
    case Split(_, a, b) =>
      if a == Pane(name) then b
      else if b == Pane(name) then a
      else if name in Names(a) then SiblingTree(a, name)
      else SiblingTree(b, name)
  }

  lemma {:induction false} SplitTreeNames(t: Tree, name: string, newName: string, o: Axis, before: bool)
    requires DistinctNames(t) && newName !in Names(t)
    ensures DistinctNames(SplitTree(t, name, newName, o, before))
    ensures Names(SplitTree(t, name, newName, o, before)) == Names(t) + if name in Names(t) then {newName} else {}
    ensures name !in Names(t) ==> SplitTree(t, name, newName, o, before) == t
  {
    if t.Split? {
      SplitTreeNames(t.first, name, newName, o, before);
      SplitTreeNames(t.second, name, newName, o, before);
    }
  }

  lemma {:induction false} CloseTreeNames(t: Tree, name: string)
    requires DistinctNames(t) && t != Pane(name)
    ensures DistinctNames(CloseTree(t, name)) && Names(CloseTree(t, name)) == Names(t) - {name}
    ensures name !in Names(t) ==> CloseTree(t, name) == t
  {
    if t.Split? && t.first != Pane(name) && t.second != Pane(name) {
      CloseTreeNames(t.first, name);
      CloseTreeNames(t.second, name);
    }
  }

  // Closing the pane just made by a split gives back the tree there was.
  lemma {:induction false} CloseUndoesSplit(t: Tree, name: string, newName: string, o: Axis, before: bool)
    requires DistinctNames(t) && name in Names(t) && newName !in Names(t)
    ensures CloseTree(SplitTree(t, name, newName, o, before), newName) == t
  {
    if t.Split? {
      SplitTreeNames(t.first, name, newName, o, before);
      SplitTreeNames(t.second, name, newName, o, before);
      if name in Names(t.first) {
        CloseUndoesSplit(t.first, name, newName, o, before);
        CloseTreeNames(t.second, newName);
      } else {
        CloseUndoesSplit(t.second, name, newName, o, before);
        CloseTreeNames(t.first, newName);
      }
    }
  }

  // The subtree at a position: `false` leads to the first half of a split.
  function At(t: Tree, position: seq<bool>): Option<Tree>
    decreases t
  {
    if position == [] then Some(t)
    else
      match t
      case Pane(_) => None
      case Split(_, a, b) => At(if position[0] then b else a, position[1..])
  }

  lemma {:induction false} NamesAt(t: Tree, p: seq<bool>)
    requires At(t, p).Some?
    ensures Names(At(t, p).value) <= Names(t)
    ensures DistinctNames(t) ==> DistinctNames(At(t, p).value)
    decreases t
  {
    if p != [] {
      NamesAt(if p[0] then t.second else t.first, p[1..]);
    }
  }

  // The pane makes way for a split that has it on one side and the new pane on
  // the side asked for. Subtrees without it stay, and so do the splits around it.
  lemma {:induction false} SplitAt(t: Tree, name: string, newName: string, o: Axis, before: bool, p: seq<bool>)
    requires At(t, p).Some?
    ensures var was, now := At(t, p).value, At(SplitTree(t, name, newName, o, before), p);
            && now.Some?
            && (was == Pane(name) ==>
                  now.value == if before then Split(o, Pane(newName), Pane(name)) else Split(o, Pane(name), Pane(newName)))
            && (name !in Names(was) ==> now.value == was)
            && (was.Split? ==> now.value.Split? && now.value.orientation == was.orientation)
    decreases t
  {
    if p != [] {
      SplitAt(if p[0] then t.second else t.first, name, newName, o, before, p[1..]);
    } else if t.Split? {
      forall part | part in {t.first, t.second} && name !in Names(part)
        ensures SplitTree(part, name, newName, o, before) == part
      {
        SplitLeaves(part, name, newName, o, before);
      }
    }
  }

  lemma {:induction false} SplitLeaves(t: Tree, name: string, newName: string, o: Axis, before: bool)
    requires name !in Names(t)
    ensures SplitTree(t, name, newName, o, before) == t
  {
    if t.Split? {
      SplitLeaves(t.first, name, newName, o, before);
      SplitLeaves(t.second, name, newName, o, before);
    }
  }

  // Closing the pane on one side of a split puts what is on the other side in the
  // place of the split.
  lemma {:induction false} CloseAt(t: Tree, name: string, p: seq<bool>, side: bool)
    requires DistinctNames(t) && At(t, p + [side]) == Some(Pane(name))
    ensures At(t, p + [!side]).Some?
    ensures At(CloseTree(t, name), p) == At(t, p + [!side])
    ensures SiblingTree(t, name) == At(t, p + [!side]).value
    decreases t
  {
    if p == [] {
      assert [side][1..] == [] && [!side][1..] == [];
    } else {
      var part := if p[0] then t.second else t.first;
      assert (p + [side])[1..] == p[1..] + [side] && (p + [!side])[1..] == p[1..] + [!side];
      CloseAt(part, name, p[1..], side);
      NamesAt(part, p[1..] + [side]);
      assert part != Pane(name);
    }
  }

  // A subtree to which neither the pane nor its split belongs stays where it is.
  lemma {:induction false} CloseElsewhereAt(t: Tree, name: string, p: seq<bool>, side: bool, q: seq<bool>)
    requires DistinctNames(t) && At(t, p + [side]) == Some(Pane(name))
    requires At(t, q).Some? && name !in Names(At(t, q).value) && !(p <= q)
    ensures At(CloseTree(t, name), q) == At(t, q)
    decreases t
  {
    var part := if p[0] then t.second else t.first;
    assert (p + [side])[1..] == p[1..] + [side];
    NamesAt(part, p[1..] + [side]);
    if q != [] && q[0] == p[0] {
      assert p[1..] <= q[1..] ==> p <= q;
      CloseElsewhereAt(part, name, p[1..], side, q[1..]);
    } else {
      NamesAt(t, p + [side]);
      var other := if p[0] then t.first else t.second;
      CloseTreeNames(other, name);
    }
  }

  // The pane that gets the focus is the one reached by going to first halves.
  lemma {:induction false} FirstNameAt(t: Tree, p: seq<bool>)
    requires At(t, p).Some? && At(t, p).value.Pane? && forall k :: 0 <= k < |p| ==> !p[k]
    ensures FirstName(t) == At(t, p).value.name
    decreases t
  {
    if p != [] {
      FirstNameAt(t.first, p[1..]);
    }
  }

  // The same on shapes.
  function SplitShape(s: Shape, f: Widget, paned: Widget, pane: Widget, before: bool): Shape {
    match s
    case Leaf(w) =>
      if w != f then s
      else if before then Node(paned, Leaf(pane), s) else Node(paned, s, Leaf(pane))
    case Node(p, a, b) => Node(p, SplitShape(a, f, paned, pane, before), SplitShape(b, f, paned, pane, before))
  }

  function CloseShape(s: Shape, t: Widget): Shape {
    match s
    case Leaf(_) => s
    case Node(p, a, b) =>
      if a == Leaf(t) then b
      else if b == Leaf(t) then a
      else Node(p, CloseShape(a, t), CloseShape(b, t))
  }

  lemma {:induction false} SplitShapeMeaning(s: Shape, f: Widget, paned: Widget, pane: Widget, before: bool)
    requires DistinctNames(Meaning(s)) && pane !in Widgets(s) && paned !in Widgets(s)
    requires forall w :: w in Panes(s) && w != f ==> w.name != f.name
    ensures Meaning(SplitShape(s, f, paned, pane, before))
            == SplitTree(Meaning(s), f.name, pane.name, paned.orientation, before)
  {
    if s.Node? {
      assert forall w :: w in Panes(s.first) || w in Panes(s.second) ==> w in Panes(s);
      SplitShapeMeaning(s.first, f, paned, pane, before);
      SplitShapeMeaning(s.second, f, paned, pane, before);
    }
  }

  // ---------------------------------------------------------------------
  // Facts about wiring
  // ---------------------------------------------------------------------

  lemma {:induction false} RootInShape(s: Shape)
    ensures Root(s) in Widgets(s)
    ensures forall w :: w in Panes(s) ==> w in Widgets(s)
  {
    if s.Node? {
      RootInShape(s.first);
      RootInShape(s.second);
    }
  }

  // A widget below the root sits in a paned of the shape, in exactly one slot.
  lemma {:induction false} ParentHolds(s: Shape, parent: Widget?, m: Wiring, w: Widget)
    requires Linked(s, parent, m) && w in Widgets(s)
    ensures w in m
    ensures !w.isPaned ==> m[w].start == null && m[w].end == null
    ensures w == Root(s) ==> m[w].parent == parent
    ensures w != Root(s) ==>
              var p := m[w].parent;
              p != null && p in Widgets(s) && p in m && p.isPaned && (m[p].start == w) != (m[p].end == w)
  {
    if s.Node? && w != s.paned {
      RootInShape(s.first);
      RootInShape(s.second);
      if w in Widgets(s.first) {
        ParentHolds(s.first, s.paned, m, w);
      } else {
        ParentHolds(s.second, s.paned, m, w);
      }
    }
  }

  // A slot of a paned holds a widget of the shape whose parent is that paned.
  lemma {:induction false} SlotsHold(s: Shape, parent: Widget?, m: Wiring, p: Widget)
    requires Linked(s, parent, m) && p in Widgets(s) && p.isPaned
    ensures p in m
    ensures m[p].start != null && m[p].start in Widgets(s) && m[p].start in m && m[m[p].start].parent == p
    ensures m[p].end != null && m[p].end in Widgets(s) && m[p].end in m && m[m[p].end].parent == p
    ensures m[p].start != p && m[p].end != p && m[p].start != m[p].end
  {
    RootInShape(s.first);
    RootInShape(s.second);
    ParentHolds(s.first, s.paned, m, Root(s.first));
    ParentHolds(s.second, s.paned, m, Root(s.second));
    if p in Widgets(s.first) {
      SlotsHold(s.first, s.paned, m, p);
    } else if p in Widgets(s.second) {
      SlotsHold(s.second, s.paned, m, p);
    }
  }

  // A widget sits in one slot of its parent, if it has one, and in no other slot.
  lemma SlotsOfParent(s: Shape, m: Wiring, f: Widget)
    requires WellWired(s, m) && f in Widgets(s)
    ensures f in m && (!f.isPaned ==> m[f].start == null && m[f].end == null)
    ensures var p := m[f].parent;
            p != null ==>
              && p in Widgets(s) && p in m && p.isPaned
              && (m[p].start == f) != (m[p].end == f) && m[p].start != p && m[p].end != p
              && m[p].start != null && m[p].start in Widgets(s) && m[p].end != null && m[p].end in Widgets(s)
    ensures forall w :: w in Widgets(s) ==> w in m && (f == m[w].start || f == m[w].end ==> f in m && m[f].parent == w)
  {
    forall w | w in Widgets(s)
      ensures w in m && (f == m[w].start || f == m[w].end ==> f in m && m[f].parent == w)
    {
      ParentHolds(s, null, m, w);
      if w.isPaned {
        SlotsHold(s, null, m, w);
      }
    }
    ParentHolds(s, null, m, f);
    if m[f].parent != null {
      SlotsHold(s, null, m, m[f].parent);
    }
  }

  // ---------------------------------------------------------------------
  // Rewiring
  // ---------------------------------------------------------------------

  // From m to m' every widget of the shape keeps its wiring, except that `f`
  // now sits in `paned` and a slot that held `f` holds `paned`.
  predicate SplitWiring(s: Shape, m: Wiring, m': Wiring, f: Widget, paned: Widget) {
    forall w :: w in Widgets(s) ==>
      && w in m && w in m'
      && m'[w] == Links(if w == f then paned else m[w].parent,
                        if m[w].start == f then paned else m[w].start,
                        if m[w].end == f then paned else m[w].end)
  }

  // The pane has made room for the new paned, which holds it and the new pane.
  predicate Swapped(s: Shape, m: Wiring, m': Wiring, f: Widget, paned: Widget, pane: Widget, before: bool) {
    var othersKept := SplitWiring(s, m, m', f, paned);
    && othersKept && f in m
    && paned in m' && m'[paned] == Links(m[f].parent, if before then pane else f, if before then f else pane)
    && pane in m' && m'[pane] == Links(paned, null, null)
  }

  // Putting the paned in the place of `f` touches `f` and its parent only, and
  // no other slot held `f`.
  lemma PutInPlaceSwaps(s: Shape, m: Wiring, m': Wiring, f: Widget, paned: Widget, pane: Widget, before: bool)
    requires WellWired(s, m) && f in Widgets(s) && f in m && Widgets(s) <= m'.Keys
    requires forall w :: w in Widgets(s) && w in m && w != f && w != m[f].parent ==> m'[w] == m[w]
    requires m'[f] == Links(paned, m[f].start, m[f].end)
    requires var p := m[f].parent;
             p != null && p in m && p in m' ==>
               m'[p] == Links(m[p].parent, if m[p].start == f then paned else m[p].start, if m[p].end == f then paned else m[p].end)
    requires paned in m' && m'[paned] == Links(m[f].parent, if before then pane else f, if before then f else pane)
    requires pane in m' && m'[pane] == Links(paned, null, null)
    ensures Swapped(s, m, m', f, paned, pane, before)
  {
    SlotsOfParent(s, m, f);
  }

  lemma SplitKeepsWiring(s: Shape, m: Wiring, m': Wiring, f: Widget, paned: Widget, pane: Widget, before: bool)
    requires WellWired(s, m) && f in Panes(s)
    requires Swapped(s, m, m', f, paned, pane, before)
    requires paned.isPaned && !pane.isPaned && paned !in Widgets(s) && pane !in Widgets(s)
    ensures var s' := SplitShape(s, f, paned, pane, before);
            && WellWired(s', m')
            && Widgets(s') == Widgets(s) + {paned, pane}
            && Root(s') == if Root(s) == f then paned else Root(s)
  {
    LinkedAfterSplit(s, null, m, m', f, paned, pane, before);
    SplitShapeWidgets(s, f, paned, pane, before);
    RootInShape(s);
    if Root(s) == f && s.Node? {
      PanesAreLeaves(s, null, m, f);
    }
  }

  lemma {:induction false} PanesAreLeaves(s: Shape, parent: Widget?, m: Wiring, w: Widget)
    requires Linked(s, parent, m) && w in Panes(s)
    ensures !w.isPaned
  {
    if s.Node? {
      if w in Panes(s.first) {
        PanesAreLeaves(s.first, s.paned, m, w);
      } else {
        PanesAreLeaves(s.second, s.paned, m, w);
      }
    }
  }

  lemma {:induction false} SplitShapeWidgets(s: Shape, f: Widget, paned: Widget, pane: Widget, before: bool)
    ensures Widgets(SplitShape(s, f, paned, pane, before)) == Widgets(s) + if f in Panes(s) then {paned, pane} else {}
  {
    if s.Node? {
      SplitShapeWidgets(s.first, f, paned, pane, before);
      SplitShapeWidgets(s.second, f, paned, pane, before);
    }
  }

  lemma {:induction false} LinkedAfterSplit(s: Shape, parent: Widget?, m: Wiring, m': Wiring,
                                            f: Widget, paned: Widget, pane: Widget, before: bool)
    requires Linked(s, parent, m) && f in Panes(s) && f in m
    requires SplitWiring(s, m, m', f, paned)
    requires paned.isPaned && !pane.isPaned && paned !in Widgets(s) && pane !in Widgets(s)
    requires paned in m' && m'[paned] == Links(m[f].parent, if before then pane else f, if before then f else pane)
    requires pane in m' && m'[pane] == Links(paned, null, null)
    ensures Linked(SplitShape(s, f, paned, pane, before), parent, m')
  {
    if s.Node? {
      RootInShape(s.first);
      RootInShape(s.second);
      SplitShapeWidgets(s.first, f, paned, pane, before);
      SplitShapeWidgets(s.second, f, paned, pane, before);
      if f in Panes(s.first) {
        SplitLeavesOther(s.second, s.paned, m, m', f, paned, pane, before);
        LinkedAfterSplit(s.first, s.paned, m, m', f, paned, pane, before);
      } else {
        SplitLeavesOther(s.first, s.paned, m, m', f, paned, pane, before);
        LinkedAfterSplit(s.second, s.paned, m, m', f, paned, pane, before);
      }
    }
  }

  lemma {:induction false} SplitLeavesOther(s: Shape, parent: Widget?, m: Wiring, m': Wiring,
                                            f: Widget, paned: Widget, pane: Widget, before: bool)
    requires Linked(s, parent, m) && f !in Widgets(s)
    requires SplitWiring(s, m, m', f, paned)
    ensures Linked(s, parent, m') && SplitShape(s, f, paned, pane, before) == s
  {
    RootInShape(s);
    if s.Node? {
      RootInShape(s.first);
      RootInShape(s.second);
      SplitLeavesOther(s.first, s.paned, m, m', f, paned, pane, before);
      SplitLeavesOther(s.second, s.paned, m, m', f, paned, pane, before);
    }
  }

  // The paned right above a pane, and what is in that paned's other slot.
  function ParentOf(s: Shape, t: Widget): Widget {
    match s
    case Leaf(w) => w
    case Node(p, a, b) =>
      if a == Leaf(t) || b == Leaf(t) then p
      else if t in Panes(a) then ParentOf(a, t) else ParentOf(b, t)
  }

  function SiblingOf(s: Shape, t: Widget): Shape {
    match s
    case Leaf(w) => s
    case Node(p, a, b) =>
      if a == Leaf(t) then b else if b == Leaf(t) then a
      else if t in Panes(a) then SiblingOf(a, t) else SiblingOf(b, t)
  }

  lemma {:induction false} ParentOfHolds(s: Shape, parent: Widget?, m: Wiring, t: Widget)
    requires Linked(s, parent, m) && s.Node? && t in Panes(s)
    ensures t in m && !t.isPaned
    ensures var p, sibling := ParentOf(s, t), SiblingOf(s, t);
            && p in Widgets(s) && p in m && p.isPaned && m[t].parent == p
            && Root(sibling) == (if m[p].start == t then m[p].end else m[p].start)
            && (if m[p].start == t then m[p].end != t else m[p].end == t)
            && Linked(sibling, p, m) && Widgets(sibling) <= Widgets(s)
            && t !in Widgets(sibling) && p !in Widgets(sibling)
            && (p == Root(s) ==> sibling == CloseShape(s, t))
  {
    RootInShape(s.first);
    RootInShape(s.second);
    if s.first != Leaf(t) && s.second != Leaf(t) {
      if t in Panes(s.first) {
        ParentOfHolds(s.first, s.paned, m, t);
      } else {
        ParentOfHolds(s.second, s.paned, m, t);
      }
    }
  }

  // Apart from `t` and the paned `p` above it, every widget keeps its wiring,
  // except that the sibling now sits where `p` sat.
  predicate CloseWiring(s: Shape, m: Wiring, m': Wiring, t: Widget, p: Widget, sibling: Widget) {
    && p in m
    && forall w :: w in Widgets(s) && w != t && w != p ==>
         && w in m && w in m'
         && m'[w] == Links(if w == sibling then m[p].parent else m[w].parent,
                           if m[w].start == p then sibling else m[w].start,
                           if m[w].end == p then sibling else m[w].end)
  }

  lemma {:induction false} LinkedAfterClose(s: Shape, parent: Widget?, m: Wiring, m': Wiring, t: Widget)
    requires Linked(s, parent, m) && s.Node? && t in Panes(s)
    requires CloseWiring(s, m, m', t, ParentOf(s, t), Root(SiblingOf(s, t)))
    ensures Linked(CloseShape(s, t), parent, m')
    ensures Root(CloseShape(s, t)) == if ParentOf(s, t) == Root(s) then Root(SiblingOf(s, t)) else Root(s)
  {
    var p, sibling := ParentOf(s, t), Root(SiblingOf(s, t));
    ParentOfHolds(s, parent, m, t);
    RootInShape(s.first);
    RootInShape(s.second);
    RootInShape(SiblingOf(s, t));
    if s.first == Leaf(t) {
      CloseLeavesOther(s.second, s.paned, m, m', t, p, sibling);
    } else if s.second == Leaf(t) {
      CloseLeavesOther(s.first, s.paned, m, m', t, p, sibling);
    } else if t in Panes(s.first) {
      ParentOfHolds(s.first, s.paned, m, t);
      CloseShapeWidgets(s.first, s.paned, m, t);
      LinkedAfterClose(s.first, s.paned, m, m', t);
      CloseLeavesOther(s.second, s.paned, m, m', t, p, sibling);
    } else {
      ParentOfHolds(s.second, s.paned, m, t);
      CloseShapeWidgets(s.second, s.paned, m, t);
      LinkedAfterClose(s.second, s.paned, m, m', t);
      CloseLeavesOther(s.first, s.paned, m, m', t, p, sibling);
    }
  }

  lemma {:induction false} CloseShapeWidgets(s: Shape, parent: Widget?, m: Wiring, t: Widget)
    requires Linked(s, parent, m) && s.Node? && t in Panes(s)
    ensures Widgets(CloseShape(s, t)) == Widgets(s) - {t, ParentOf(s, t)}
  {
    RootInShape(s.first);
    RootInShape(s.second);
    if s.first != Leaf(t) && s.second != Leaf(t) {
      if t in Panes(s.first) {
        ParentOfHolds(s.first, s.paned, m, t);
        CloseShapeWidgets(s.first, s.paned, m, t);
        CloseElsewhere(s.second, t);
      } else {
        ParentOfHolds(s.second, s.paned, m, t);
        CloseShapeWidgets(s.second, s.paned, m, t);
        CloseElsewhere(s.first, t);
      }
    }
  }

  lemma {:induction false} CloseElsewhere(s: Shape, t: Widget)
    requires t !in Widgets(s)
    ensures CloseShape(s, t) == s
  {
    RootInShape(s);
    if s.Node? {
      CloseElsewhere(s.first, t);
      CloseElsewhere(s.second, t);
    }
  }

  lemma {:induction false} CloseLeavesOther(s: Shape, parent: Widget?, m: Wiring, m': Wiring, t: Widget, p: Widget, sibling: Widget)
    requires Linked(s, parent, m) && t !in Widgets(s) && p !in Widgets(s)
    requires sibling in Widgets(s) ==> sibling == Root(s)
    requires CloseWiring(s, m, m', t, p, sibling)
    ensures Linked(s, if sibling == Root(s) then m[p].parent else parent, m')
    ensures CloseShape(s, t) == s
  {
    RootInShape(s);
    if s.Node? {
      RootInShape(s.first);
      RootInShape(s.second);
      CloseLeavesOther(s.first, s.paned, m, m', t, p, sibling);
      CloseLeavesOther(s.second, s.paned, m, m', t, p, sibling);
    }
  }

  lemma {:induction false} NamesArePanes(s: Shape)
    ensures forall w :: w in Panes(s) ==> w.name in Names(Meaning(s))
    ensures forall n :: n in Names(Meaning(s)) ==> exists w :: w in Panes(s) && w.name == n
  {
    if s.Node? {
      NamesArePanes(s.first);
      NamesArePanes(s.second);
      forall n | n in Names(Meaning(s))
        ensures exists w :: w in Panes(s) && w.name == n
      {
        if n in Names(Meaning(s.first)) {
          var w :| w in Panes(s.first) && w.name == n;
          assert w in Panes(s);
        } else {
          var w :| w in Panes(s.second) && w.name == n;
          assert w in Panes(s);
        }
      }
    }
  }

  // Two panes of one tab never share a name.
  lemma {:induction false} NamesAreUnique(s: Shape, v: Widget, w: Widget)
    requires DistinctNames(Meaning(s)) && v in Panes(s) && w in Panes(s) && v.name == w.name
    ensures v == w
  {
    if s.Node? {
      NamesArePanes(s.first);
      NamesArePanes(s.second);
      if v in Panes(s.first) && w in Panes(s.first) {
        NamesAreUnique(s.first, v, w);
      } else if v in Panes(s.second) && w in Panes(s.second) {
        NamesAreUnique(s.second, v, w);
      }
    }
  }

  lemma {:induction false} CloseShapeMeaning(s: Shape, t: Widget)
    requires DistinctNames(Meaning(s)) && forall w :: w in Panes(s) && w != t ==> w.name != t.name
    ensures Meaning(CloseShape(s, t)) == CloseTree(Meaning(s), t.name)
  {
    if s.Node? {
      assert forall w :: w in Panes(s.first) || w in Panes(s.second) ==> w in Panes(s);
      CloseShapeMeaning(s.first, t);
      CloseShapeMeaning(s.second, t);
      assert s.first.Leaf? ==> s.first.pane in Panes(s);
      assert s.second.Leaf? ==> s.second.pane in Panes(s);
    }
  }

  lemma {:induction false} SiblingShapeMeaning(s: Shape, t: Widget)
    requires DistinctNames(Meaning(s)) && t in Panes(s) && forall w :: w in Panes(s) && w != t ==> w.name != t.name
    ensures Meaning(SiblingOf(s, t)) == SiblingTree(Meaning(s), t.name)
  {
    if s.Node? {
      assert forall w :: w in Panes(s.first) || w in Panes(s.second) ==> w in Panes(s);
      assert s.first.Leaf? ==> s.first.pane in Panes(s);
      assert s.second.Leaf? ==> s.second.pane in Panes(s);
      NamesArePanes(s.first);
      NamesArePanes(s.second);
      if t in Panes(s.first) {
        SiblingShapeMeaning(s.first, t);
      } else {
        SiblingShapeMeaning(s.second, t);
      }
    }
  }

  lemma {:induction false} FirstPaneName(s: Shape)
    ensures |Panes(s)| >= 1 && Panes(s)[0].name == FirstName(Meaning(s))
    ensures |Panes(s)| == 1 <==> s.Leaf?
  {
    if s.Node? {
      FirstPaneName(s.first);
      FirstPaneName(s.second);
    }
  }

  // ---------------------------------------------------------------------
  // Which divider a resize moves
  // ---------------------------------------------------------------------

  // Seen from the root: the deepest paned above the pane with the right
  // orientation that has the pane in the wanted slot, or in either slot.
  function Deepest(s: Shape, f: Widget, o: Axis, wanted: Option<bool>): Option<Widget> {
    match s
    case Leaf(_) => None
    case Node(p, a, b) =>
      var inStart := f in Panes(a);
      var below := Deepest(if inStart then a else b, f, o, wanted);
      if below.Some? then below
      else if p.orientation == o && (wanted.None? || wanted.value == inStart) then Some(p)
      else None
  }

  const STEP := 20

  function ResizeTarget(s: Shape, f: Widget, o: Axis, wantStart: bool): Option<Widget> {
    var slotted := Deepest(s, f, o, Some(wantStart));
    if slotted.Some? then slotted else Deepest(s, f, o, None)
  }

  // Seen from the pane: the paneds above it, nearest first, each with whether
  // the pane is in its start slot.
  function Chain(s: Shape, f: Widget): seq<(Widget, bool)> {
    match s
    case Leaf(_) => []
    case Node(p, a, b) => Chain(if f in Panes(a) then a else b, f) + [(p, f in Panes(a))]
  }

  predicate Fits(link: (Widget, bool), o: Axis, wanted: Option<bool>) {
    link.0.orientation == o && (wanted.None? || wanted.value == link.1)
  }

  predicate NoneFits(c: seq<(Widget, bool)>, i: nat, o: Axis, wanted: Option<bool>)
    requires i <= |c|
  {
    forall k :: 0 <= k < i ==> !Fits(c[k], o, wanted)
  }

  // The nearest fitting paned of a chain is the deepest one seen from the root.
  lemma {:induction false} NearestIsDeepest(s: Shape, f: Widget, o: Axis, wanted: Option<bool>, k: nat)
    requires k <= |Chain(s, f)| && NoneFits(Chain(s, f), k, o, wanted)
    ensures k == |Chain(s, f)| ==> Deepest(s, f, o, wanted).None?
    ensures k < |Chain(s, f)| && Fits(Chain(s, f)[k], o, wanted) ==> Deepest(s, f, o, wanted) == Some(Chain(s, f)[k].0)
  {
    if s.Node? {
      var part := if f in Panes(s.first) then s.first else s.second;
      var c := Chain(part, f);
      assert forall j :: 0 <= j < |c| ==> Chain(s, f)[j] == c[j];
      if k <= |c| {
        NearestIsDeepest(part, f, o, wanted, k);
      } else {
        NearestIsDeepest(part, f, o, wanted, |c|);
        assert !Fits(Chain(s, f)[|c|], o, wanted);
      }
    }
  }

  // The first paned of the chain, seen from the pane, that fits.
  predicate FirstFit(c: seq<(Widget, bool)>, i: nat, o: Axis, wanted: Option<bool>) {
    i < |c| && Fits(c[i], o, wanted) && NoneFits(c, i, o, wanted)
  }

  // The paned to be moved: the first of the right orientation that has the pane
  // in its start slot to grow right or down, in its end slot to grow left or up;
  // if there is none, the first of that orientation.
  predicate Chosen(c: seq<(Widget, bool)>, k: nat, d: Direction) {
    var axis := if d == Left || d == Right then Horizontal else Vertical;
    var slot := Some(d == Right || d == Down);
    FirstFit(c, k, axis, slot) || (NoneFits(c, |c|, axis, slot) && FirstFit(c, k, axis, None))
  }

  lemma {:induction false} SomeFirstFit(c: seq<(Widget, bool)>, i: nat, o: Axis, wanted: Option<bool>) returns (k: nat)
    requires i <= |c| && NoneFits(c, i, o, wanted)
    ensures NoneFits(c, |c|, o, wanted) || FirstFit(c, k, o, wanted)
    decreases |c| - i
  {
    k := i;
    if i < |c| && !Fits(c[i], o, wanted) {
      k := SomeFirstFit(c, i + 1, o, wanted);
    }
  }

  lemma ChosenIsTarget(s: Shape, f: Widget, d: Direction) returns (chosen: Option<nat>)
    ensures var target := ResizeTarget(s, f, AxisOf(d), Forward(d));
            match chosen
            case Some(k) => Chosen(Chain(s, f), k, d) && target == Some(Chain(s, f)[k].0)
            case None => target == None
    ensures forall k: nat :: Chosen(Chain(s, f), k, d) ==> chosen == Some(k)
  {
    var c, o, slot := Chain(s, f), AxisOf(d), Some(Forward(d));
    var wanted := SomeFirstFit(c, 0, o, slot);
    var nearest := SomeFirstFit(c, 0, o, None);
    NearestIsDeepest(s, f, o, slot, if FirstFit(c, wanted, o, slot) then wanted else |c|);
    NearestIsDeepest(s, f, o, None, if FirstFit(c, nearest, o, None) then nearest else |c|);
    chosen :=
      if FirstFit(c, wanted, o, slot) then Some(wanted)
      else if FirstFit(c, nearest, o, None) then Some(nearest)
      else None;
  }

  function Rung(s: Shape, f: Widget, i: nat): Widget
    requires i <= |Chain(s, f)|
  {
    if i == 0 then f else Chain(s, f)[i - 1].0
  }

  lemma Climb(s: Shape, m: Wiring, f: Widget, i: nat)
    requires WellWired(s, m) && f in Panes(s) && i <= |Chain(s, f)|
    ensures Rung(s, f, i) in Widgets(s) && Rung(s, f, i) in m
    ensures m[Rung(s, f, i)].parent == if i == |Chain(s, f)| then null else Rung(s, f, i + 1)
    ensures i < |Chain(s, f)| ==>
              var p := Rung(s, f, i + 1);
              p in Widgets(s) && p in m && p.isPaned && (m[p].start == Rung(s, f, i) <==> Chain(s, f)[i].1)
  {
    ClimbChain(s, null, m, f, i);
  }

  // Parent pointers climb the chain.
  lemma {:induction false} ClimbChain(s: Shape, parent: Widget?, m: Wiring, f: Widget, i: nat)
    requires Linked(s, parent, m) && f in Panes(s) && i <= |Chain(s, f)|
    ensures Rung(s, f, i) in Widgets(s) && Rung(s, f, i) in m
    ensures Rung(s, f, |Chain(s, f)|) == Root(s)
    ensures m[Rung(s, f, i)].parent == if i == |Chain(s, f)| then parent else Rung(s, f, i + 1)
    ensures i < |Chain(s, f)| ==>
              var p := Rung(s, f, i + 1);
              p in Widgets(s) && p in m && p.isPaned && (m[p].start == Rung(s, f, i) <==> Chain(s, f)[i].1)
  {
    RootInShape(s);
    if s.Node? {
      RootInShape(s.first);
      RootInShape(s.second);
      var part := if f in Panes(s.first) then s.first else s.second;
      var n := |Chain(part, f)|;
      if i <= n {
        ClimbChain(part, s.paned, m, f, i);
        assert Rung(s, f, i) == Rung(part, f, i);
        assert i < n ==> Rung(s, f, i + 1) == Rung(part, f, i + 1) && Chain(s, f)[i] == Chain(part, f)[i];
      }
      ClimbChain(part, s.paned, m, f, n);
    }
  }

  // ---------------------------------------------------------------------
  // One tab
  // ---------------------------------------------------------------------

  // The panes of a widget subtree, first slot first.
  method CollectLeaves(w: Widget, ghost s: Shape, ghost parent: Widget?) returns (leaves: seq<Widget>)
    requires Linked(s, parent, WiringOf(Widgets(s))) && w == Root(s)
    ensures leaves == Panes(s)
    decreases s
  {
    if !w.isPaned {
      return [w];
    }
    LinkedInPart(s.first, w, WiringOf(Widgets(s)), WiringOf(Widgets(s.first)));
    LinkedInPart(s.second, w, WiringOf(Widgets(s)), WiringOf(Widgets(s.second)));
    var first := CollectLeaves(w.start, s.first, w);
    var second := CollectLeaves(w.end, s.second, w);
    leaves := first + second;
  }

  lemma {:induction false} LinkedInPart(s: Shape, parent: Widget?, m: Wiring, m': Wiring)
    requires Linked(s, parent, m)
    requires forall w :: w in Widgets(s) && w in m ==> w in m' && m'[w] == m[w]
    ensures Linked(s, parent, m')
  {
    RootInShape(s);
    if s.Node? {
      LinkedInPart(s.first, s.paned, m, m');
      LinkedInPart(s.second, s.paned, m, m');
    }
  }

  method FindByName(leaves: seq<Widget>, name: string) returns (r: Widget?)
    ensures r != null ==> r in leaves && r.name == name
    ensures r == null ==> forall w :: w in leaves ==> w.name != name
  {
    for i := 0 to |leaves|
      invariant forall k :: 0 <= k < i ==> leaves[k].name != name
    {
      if leaves[i].name == name {
        return leaves[i];
      }
    }
    r := null;
  }

  datatype Closing = Ignored | PaneClosed | TabClosed

  class Tab {
    var content: Widget
    var registry: set<string>
    var focused: string
    ghost var shape: Shape
    ghost var widgets: set<Widget>

    // The widgets are wired as the shape says.
    ghost predicate Wired()
      reads `shape, `widgets, `content, widgets
    {
      WellWired(shape, WiringOf(widgets)) && widgets == Widgets(shape) && content == Root(shape)
    }

    // The widgets are wired as a proper tree whose pane names are distinct and
    // are exactly the registry's keys.
    ghost predicate Valid()
      reads this, widgets
    {
      && Wired()
      && DistinctNames(Meaning(shape))
      && registry == Names(Meaning(shape))
    }

    constructor (name: string)
      ensures Valid() && fresh(widgets) && Meaning(shape) == Pane(name) && focused == name
    {
      var w := new Widget.Pane(name);
      content, registry, focused, shape, widgets := w, {name}, name, Leaf(w), {w};
    }

    method PaneNamed(name: string) returns (f: Widget?)
      requires Valid()
      ensures f == null <==> name !in registry
      ensures f != null ==> f in Panes(shape) && f in widgets && f.name == name
      ensures f != null ==> forall w :: w in Panes(shape) && w != f ==> w.name != f.name
    {
      NamesArePanes(shape);
      var leaves := CollectLeaves(content, shape, null);
      f := FindByName(leaves, name);
      if f != null {
        NamedOnce(shape, f);
      }
    }

    // `created` says whether the daemon and the terminal came up.
    method SplitPane(newName: string, o: Axis, before: bool, extent: nat, created: bool)
      requires Valid() && newName !in registry
      modifies this, widgets
      ensures Valid() && fresh(widgets - old(widgets))
      ensures var done := created && old(focused) in old(registry) && old(focused) != "";
              && Meaning(shape) ==
                 (if done then SplitTree(old(Meaning(shape)), old(focused), newName, o, before) else old(Meaning(shape)))
              && focused == if done then newName else old(focused)
    {
      if focused == "" {
        return;
      }
      var f := PaneNamed(focused);
      if f == null || !created {
        return;
      }
      AddBeside(f, newName, o, before, extent);
    }

    method AddBeside(f: Widget, newName: string, o: Axis, before: bool, extent: nat)
      requires Valid() && newName !in registry && focused in registry
      requires f in Panes(shape) && f in widgets && f.name == focused
      requires forall w :: w in Panes(shape) && w != f ==> w.name != f.name
      modifies this, widgets
      ensures Valid() && fresh(widgets - old(widgets))
      ensures Meaning(shape) == SplitTree(old(Meaning(shape)), old(focused), newName, o, before) && focused == newName
    {
      var pane := new Widget.Pane(newName);
      var paned := new Widget.Paned(o, extent);
      SplitTreeNames(Meaning(shape), focused, newName, o, before);
      SplitShapeMeaning(shape, f, paned, pane, before);
      RewireForSplit(f, paned, pane, before);
      registry := registry + {newName};
      focused := newName;
    }

    // The new paned, holding the pane and the new pane, takes the pane's place.
    method RewireForSplit(f: Widget, paned: Widget, pane: Widget, before: bool)
      requires Wired() && f in Panes(shape) && f in widgets
      requires IsSpare(paned) && paned.isPaned && paned !in widgets
      requires IsSpare(pane) && !pane.isPaned && pane !in widgets
      modifies this`content, this`shape, this`widgets, widgets, paned, pane
      ensures shape == SplitShape(old(shape), f, paned, pane, before)
      ensures widgets == old(widgets) + {paned, pane}
      ensures paned.start == (if before then pane else f) && paned.end == (if before then f else pane)
      ensures Wired()
    {
      ghost var s, m := shape, WiringOf(widgets);
      SwapForPaned(f, paned, pane, before);
      ghost var m' := WiringOf(widgets + {paned, pane});
      SplitKeepsWiring(s, m, m', f, paned, pane, before);
      shape, widgets := SplitShape(s, f, paned, pane, before), widgets + {paned, pane};
    }

    ghost predicate IsFocused(f: Widget)
      reads this
    {
      f in Panes(shape) && f.name == focused && focused != ""
    }

    ghost predicate IsSpare(w: Widget)
      reads w
    {
      w.parent == null && w.start == null && w.end == null
    }

    method SwapForPaned(f: Widget, paned: Widget, pane: Widget, before: bool)
      requires Wired() && f in Panes(shape) && f in widgets
      requires IsSpare(paned) && paned.isPaned && paned !in widgets
      requires IsSpare(pane) && !pane.isPaned && pane !in widgets
      modifies this`content, widgets, paned, pane
      ensures Swapped(shape, old(WiringOf(widgets)), WiringOf(widgets + {paned, pane}), f, paned, pane, before)
      ensures content == if old(content) == f then paned else old(content)
    {
      ghost var m := WiringOf(widgets);
      RootInShape(shape);
      SlotsOfParent(shape, m, f);
      var parent := f.parent;
      PutInPlace(parent, f, paned, pane, before);
      if content == f {
        content := paned;
      }
      PutInPlaceSwaps(shape, m, WiringOf(widgets + {paned, pane}), f, paned, pane, before);
    }

    method PutInPlace(parent: Widget?, f: Widget, paned: Widget, pane: Widget, before: bool)
      requires paned.isPaned && paned.parent == null && paned.start == null && paned.end == null
      requires f.parent == parent && pane.parent == null
      requires f != pane && paned != f && paned != pane
      requires parent != null ==>
                 parent.isPaned && (parent.start == f) != (parent.end == f)
                 && parent != f && parent != paned && parent != pane && parent.start != parent && parent.end != parent
                 && parent.start != paned && parent.end != paned
      modifies Present(parent, null)`start, Present(parent, null)`end, paned, f`parent, pane`parent
      ensures f.parent == paned && pane.parent == paned && paned.parent == parent
      ensures paned.start == (if before then pane else f) && paned.end == (if before then f else pane)
      ensures parent != null ==>
                && parent.start == (if old(parent.start) == f then paned else old(parent.start))
                && parent.end == (if old(parent.end) == f then paned else old(parent.end))
    {
      if parent == null {
        f.parent := null;
        Fill(paned, f, pane, before);
      } else if parent.start == f {
        parent.SetStartChild(null);
        Fill(paned, f, pane, before);
        parent.SetStartChild(paned);
      } else {
        parent.SetEndChild(null);
        Fill(paned, f, pane, before);
        parent.SetEndChild(paned);
      }
    }

    // Closing a pane: its sibling takes the place of the paned above both, and
    // the first pane of what is left there gets the focus. The only pane of
    // the tab takes the tab with it.
    method ClosePaneByName(name: string) returns (outcome: Closing)
      requires Valid()
      modifies this, widgets
      ensures outcome == Ignored <==> name !in old(registry)
      ensures outcome == TabClosed <==> old(Meaning(shape)) == Pane(name)
      ensures outcome == Ignored ==> Valid() && Meaning(shape) == old(Meaning(shape)) && focused == old(focused)
      ensures outcome == TabClosed ==> registry == {}
      ensures outcome == PaneClosed ==>
                && Valid() && widgets <= old(widgets)
                && Meaning(shape) == CloseTree(old(Meaning(shape)), name)
                && focused == FirstName(SiblingTree(old(Meaning(shape)), name))
    {
      if name !in registry {
        return Ignored;
      }
      var t := PaneNamed(name);
      var leaves := CollectLeaves(content, shape, null);
      FirstPaneName(shape);
      if |leaves| <= 1 {
        registry := registry - {name};
        return TabClosed;
      }
      CloseTreeNames(Meaning(shape), name);
      CloseShapeMeaning(shape, t);
      SiblingShapeMeaning(shape, t);
      CloseInSplit(t);
      registry := registry - {name};
      outcome := PaneClosed;
    }

    method CloseInSplit(t: Widget)
      requires Wired() && shape.Node? && t in Panes(shape) && t in widgets
      modifies this`content, this`shape, this`widgets, this`focused, widgets
      ensures Wired() && shape == CloseShape(old(shape), t) && widgets <= old(widgets)
      ensures focused == FirstName(Meaning(SiblingOf(old(shape), t)))
    {
      ghost var s, p := shape, ParentOf(shape, t);
      ParentOfHolds(shape, null, WiringOf(widgets), t);
      ghost var parent := p.parent;
      var sibling := PromoteOver(t);
      var surviving := CollectLeaves(sibling, SiblingOf(s, t), parent);
      FirstPaneName(SiblingOf(s, t));
      focused := surviving[0].name;
    }

    method PromoteOver(t: Widget) returns (sibling: Widget)
      requires Wired() && shape.Node? && t in Panes(shape) && t in widgets
      requires ParentOf(shape, t) in widgets
      modifies this`content, this`shape, this`widgets, widgets
      ensures Wired() && shape == CloseShape(old(shape), t) && widgets <= old(widgets)
      ensures var s := SiblingOf(old(shape), t);
              sibling == Root(s) && Linked(s, old(ParentOf(shape, t).parent), WiringOf(Widgets(s)))
    {
      ghost var m, s, p := WiringOf(widgets), shape, ParentOf(shape, t);
      sibling := UnlinkPane(t);
      ghost var m' := WiringOf(widgets);
      LinkedAfterClose(s, null, m, m', t);
      CloseShapeWidgets(s, null, m, t);
      SiblingStands(s, m, m', t);
      shape := CloseShape(s, t);
      widgets := widgets - {t, p};
      LinkedInPart(shape, null, m', WiringOf(widgets));
      LinkedInPart(SiblingOf(s, t), m[p].parent, m', WiringOf(Widgets(SiblingOf(s, t))));
    }

    method UnlinkPane(t: Widget) returns (sibling: Widget)
      requires Wired() && shape.Node? && t in Panes(shape) && t in widgets
      modifies this`content, widgets
      ensures sibling == Root(SiblingOf(shape, t))
      ensures CloseWiring(shape, old(WiringOf(widgets)), WiringOf(widgets), t, ParentOf(shape, t), sibling)
      ensures content == if old(content) == ParentOf(shape, t) then sibling else old(content)
    {
      ghost var m := WiringOf(widgets);
      ParentOfHolds(shape, null, m, t);
      var p := t.parent;
      ParentHolds(shape, null, m, p);
      SlotsHold(shape, null, m, p);
      if p.parent != null {
        SlotsHold(shape, null, m, p.parent);
      }
      sibling := if p.start == t then p.end else p.start;
      PromoteSibling(p, sibling);
      if content == p {
        content := sibling;
      }
      forall w | w in widgets && w != t && w != p
        ensures Links(w.parent, w.start, w.end) == Links(if w == sibling then m[p].parent else m[w].parent,
                                                         if m[w].start == p then sibling else m[w].start,
                                                         if m[w].end == p then sibling else m[w].end)
      {
        ParentHolds(shape, null, m, w);
        if w.isPaned {
          SlotsHold(shape, null, m, w);
        }
      }
    }

    // Empties the paned p and puts the sibling where p was.
    method PromoteSibling(p: Widget, sibling: Widget)
      requires p.isPaned && p.start != null && p.end != null && p.start != p.end && p.start != p && p.end != p
      requires sibling == p.start || sibling == p.end
      requires var gp := p.parent;
               gp != null ==>
                 && gp.isPaned && (gp.start == p) != (gp.end == p)
                 && gp != p && gp != p.start && gp != p.end && gp.start != gp && gp.end != gp
                 && gp.start != sibling && gp.end != sibling
      modifies p, p.start`parent, p.end`parent, Present(p.parent, null)`start, Present(p.parent, null)`end
      ensures sibling.parent == old(p.parent)
      ensures var gp := old(p.parent);
              gp != null ==>
                && gp.start == (if old(gp.start) == p then sibling else old(gp.start))
                && gp.end == (if old(gp.end) == p then sibling else old(gp.end))
    {
      var gp := p.parent;
      p.SetStartChild(null);
      p.SetEndChild(null);
      if gp != null {
        if gp.start == p {
          gp.SetStartChild(sibling);
        } else {
          gp.SetEndChild(sibling);
        }
      }
    }

    // Climbs from the pane: the nearest paned of the orientation with the pane
    // in the wanted slot, failing that the nearest of the orientation.
    method FindDivider(f: Widget, o: Axis, wantStart: bool) returns (target: Widget?)
      requires Wired() && f in Panes(shape) && f in widgets
      ensures target == match ResizeTarget(shape, f, o, wantStart) case Some(p) => p case None => null
      ensures target != null ==> target in widgets
    {
      ghost var c, m, i := Chain(shape, f), WiringOf(widgets), 0;
      var nearest: Widget? := null;
      var widget := f;
      Climb(shape, m, f, 0);
      while widget.parent != null
        invariant i <= |c| && widget == Rung(shape, f, i) && widget in widgets
        invariant NoneFits(c, i, o, Some(wantStart))
        invariant nearest == null ==> NoneFits(c, i, o, None)
        invariant nearest != null ==> nearest in widgets && Deepest(shape, f, o, None) == Some(nearest)
        invariant widget.parent == null <==> i == |c|
        decreases |c| - i
      {
        Climb(shape, m, f, i);
        var paned := widget.parent;
        if paned.orientation == o {
          if nearest == null {
            NearestIsDeepest(shape, f, o, None, i);
            nearest := paned;
          }
          var inStart := paned.start == widget;
          if inStart == wantStart {
            NearestIsDeepest(shape, f, o, Some(wantStart), i);
            return paned;
          }
        }
        widget := paned;
        i := i + 1;
        Climb(shape, m, f, i);
      }
      NearestIsDeepest(shape, f, o, Some(wantStart), i);
      if nearest == null {
        NearestIsDeepest(shape, f, o, None, i);
      }
      target := nearest;
    }

    // Moves the chosen divider by one step, kept within its paned; no other
    // divider moves. Where the pane is on the side of the divider from which it
    // can grow in the direction, its half of the paned does grow: the start side
    // takes `position` of the extent, the end side the rest.
    method ResizePane(d: Direction)
      requires Valid()
      modifies widgets`position
      ensures Valid()
      ensures focused !in registry ==> forall w :: w in widgets ==> w.position == old(w.position)
      ensures forall f, k: nat :: IsFocused(f) && Chosen(Chain(shape, f), k, d) ==>
                forall w :: w in widgets ==>
                  w.position == if w != Chain(shape, f)[k].0 then old(w.position)
                                else Clamp(old(w.position) + if d == Right || d == Down then 20 else -20, w.extent)
      ensures forall f, k: nat, w ::
                (&& IsFocused(f) && Chosen(Chain(shape, f), k, d) && w in widgets && w == Chain(shape, f)[k].0
                 && Chain(shape, f)[k].1 == (d == Right || d == Down) && 0 <= old(w.position) <= w.extent) ==>
                if d == Right || d == Down
                then old(w.position) <= w.position && (old(w.position) < w.extent ==> old(w.position) < w.position)
                else w.position <= old(w.position) && (old(w.position) > 0 ==> w.position < old(w.position))
      ensures forall f :: IsFocused(f) && (forall k: nat :: !Chosen(Chain(shape, f), k, d)) ==>
                forall w :: w in widgets ==> w.position == old(w.position)
    {
      if focused == "" {
        return;
      }
      var f := PaneNamed(focused);
      if f == null {
        NamesArePanes(shape);
        return;
      }
      var target := FindDivider(f, AxisOf(d), Forward(d));
      if target != null {
        var delta := if Forward(d) then STEP else -STEP;
        target.position := Clamp(target.position + delta, target.extent);
        assert WiringOf(widgets) == old(WiringOf(widgets));
      }
      ghost var chosen := ChosenIsTarget(shape, f, d);
    }

    method Fill(paned: Widget, f: Widget, pane: Widget, before: bool)
      requires paned.isPaned && paned.start == null && paned.end == null && f != pane && paned != f && paned != pane
      requires f.parent == null && pane.parent == null
      modifies paned`start, paned`end, f`parent, pane`parent
      ensures paned.start == (if before then pane else f) && paned.end == (if before then f else pane)
      ensures f.parent == paned && pane.parent == paned
    {
      if before {
        paned.SetStartChild(pane);
        paned.SetEndChild(f);
      } else {
        paned.SetStartChild(f);
        paned.SetEndChild(pane);
      }
    }
  }

  // The sibling's subtree is intact after the close, under its new parent.
  lemma SiblingStands(s: Shape, m: Wiring, m': Wiring, t: Widget)
    requires Linked(s, null, m) && s.Node? && t in Panes(s)
    requires CloseWiring(s, m, m', t, ParentOf(s, t), Root(SiblingOf(s, t)))
    ensures Linked(SiblingOf(s, t), m[ParentOf(s, t)].parent, m')
    ensures Widgets(SiblingOf(s, t)) <= Widgets(s) - {t, ParentOf(s, t)}
  {
    var p, sibling := ParentOf(s, t), SiblingOf(s, t);
    ParentOfHolds(s, null, m, t);
    RootInShape(sibling);
    CloseLeavesOther(sibling, p, m, m', t, p, Root(sibling));
  }

  // No other pane has this one's name.
  lemma NamedOnce(s: Shape, f: Widget)
    requires DistinctNames(Meaning(s)) && f in Panes(s)
    ensures forall w :: w in Panes(s) && w != f ==> w.name != f.name
    ensures f in Widgets(s)
  {
    RootInShape(s);
    forall w | w in Panes(s) && w.name == f.name
      ensures w == f
    {
      NamesAreUnique(s, w, f);
    }
  }
}
