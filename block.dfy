/**
 * The retained block tree of Block.go.
 *
 * This module holds the values: a block's state as a `Node`, the whole tree as a map from
 * `BlockId` to `Node`, the shape invariant `Tree`, and the specification functions of the
 * walks over the tree, with the lemmas about them. The objects that change live in
 * module BlockForest.
 *
 * Termination of the walks up the parent chain and of the recursion down the children rests on
 * a ghost ranking: a parent always has a smaller rank than its child, and every rank is below a
 * bound.
 */
module BlockTree {
  import opened Wrappers
  import opened Geometry

  type BlockId = nat

  type WindowId = nat

  /** The fields of one block. `hasLayout` says whether a layout strategy is installed. */
  datatype Node = Node(
    bounds: Rect,
    parent: Option<BlockId>,
    children: seq<BlockId>,
    window: Option<WindowId>,
    hasLayout: bool,
    needLayout: bool,
    focused: bool,
    disabled: bool)

  /** A block as `NewBlock` creates it: empty bounds, no parent, no children, no window. */
  const NewNode: Node := Node(Rect(0.0, 0.0, 0.0, 0.0), None, [], None, false, false, false, false)

  /** Observable effects: a layout run, a repaint request reaching a window, a paint callback. */
  datatype Effect =
    | LayoutRan(block: BlockId)
    | WindowRepaint(window: WindowId, area: Rect)
    | Painted(block: BlockId, area: Rect)

  type Nodes = map<BlockId, Node>

  const DefaultMinSize: Size := Size(0.0, 0.0)

  const DefaultPrefSize: Size := Size(0.0, 0.0)

  /** Ghost ranks that order every parent before its children. */
  datatype Ranking = Ranking(rank: map<BlockId, nat>, bound: nat)

  ghost predicate Ranked(n: Nodes, g: Ranking)
  {
    && n.Keys <= g.rank.Keys
    && (forall x | x in n :: g.rank[x] < g.bound)
    && (forall x {:trigger n[x].parent} | x in n && n[x].parent.Some? ::
          n[x].parent.value in n && g.rank[n[x].parent.value] < g.rank[x])
  }

  /** Every block that names a parent is listed among that parent's children. */
  ghost predicate ParentsList(n: Nodes)
  {
    forall x {:trigger n[x].parent} | x in n && n[x].parent.Some? ::
      n[x].parent.value in n && x in n[n[x].parent.value].children
  }

  /** Every listed child exists and names the block listing it. */
  ghost predicate ChildrenPoint(n: Nodes)
  {
    forall p, i | p in n && 0 <= i < |n[p].children| ::
      n[p].children[i] in n && n[n[p].children[i]].parent == Some(p)
  }

  ghost predicate ChildrenUnique(n: Nodes)
  {
    forall p | p in n :: NoDuplicates(n[p].children)
  }

  /** A child is listed by its parent exactly when it names that parent, and never twice. */
  ghost predicate Linked(n: Nodes)
  {
    ParentsList(n) && ChildrenPoint(n) && ChildrenUnique(n)
  }

  ghost predicate Tree(n: Nodes, g: Ranking)
  {
    Ranked(n, g) && Linked(n)
  }

  /** Two states that agree on every block's parent and children. */
  ghost predicate SameLinks(n1: Nodes, n2: Nodes)
  {
    n1.Keys == n2.Keys
    && forall x | x in n1 :: n1[x].parent == n2[x].parent && n1[x].children == n2[x].children
  }

  /** `x`, its parent, its parent's parent, ..., up to the block without a parent. */
  ghost function Chain(n: Nodes, g: Ranking, x: BlockId): (c: seq<BlockId>)
    requires Ranked(n, g) && x in n
    ensures |c| > 0 && c[0] == x
    ensures forall i | 0 <= i < |c| :: c[i] in n && g.rank[c[i]] <= g.rank[x]
    decreases g.rank[x]
  {
    match n[x].parent
    case None => [x]
    case Some(p) => [x] + Chain(n, g, p)
  }

  /** `x` and all of its descendants. */
  ghost function Subtree(n: Nodes, g: Ranking, x: BlockId): set<BlockId>
    requires Ranked(n, g) && x in n
  {
    set y | y in n && x in Chain(n, g, y)
  }

  /** What ToWindow adds: the origins of `x` and of every ancestor. */
  ghost function Offset(n: Nodes, g: Ranking, x: BlockId): Point
    requires Ranked(n, g) && x in n
    decreases g.rank[x]
  {
    match n[x].parent
    case None => n[x].bounds.Origin()
    case Some(p) => Add(n[x].bounds.Origin(), Offset(n, g, p))
  }

  /** The offset still to be added once the walk has reached `p`. */
  ghost function OffsetFrom(n: Nodes, g: Ranking, p: Option<BlockId>): Point
    requires Ranked(n, g) && (p.Some? ==> p.value in n)
  {
    if p.Some? then Offset(n, g, p.value) else Zero
  }

  /** What a repaint request adds on its way up: the origins of `x` and its ancestors, except the root's. */
  ghost function ClipOffset(n: Nodes, g: Ranking, x: BlockId): Point
    requires Ranked(n, g) && x in n
    decreases g.rank[x]
  {
    match n[x].parent
    case None => Zero
    case Some(p) => Add(n[x].bounds.Origin(), ClipOffset(n, g, p))
  }

  /**
   * The requests that reach a window when `r` (in `x`'s local space) is repainted: `r` is
   * clipped to the local bounds, dropped when empty, moved into the parent's space and passed
   * on; at a block without a parent it goes to the window, if any.
   */
  ghost function Repainted(n: Nodes, g: Ranking, x: BlockId, r: Rect): (e: seq<Effect>)
    requires Ranked(n, g) && x in n
    ensures |e| <= 1
    ensures IsEmpty(Intersect(r, ZeroLocation(n[x].bounds))) ==> e == []
    ensures forall k | 0 <= k < |e| :: e[k].WindowRepaint? && !IsEmpty(e[k].area)
    decreases g.rank[x]
  {
    var q := Intersect(r, ZeroLocation(n[x].bounds));
    if IsEmpty(q) then []
    else
      match n[x].parent
      case Some(p) => Repainted(n, g, p, Translate(q, n[x].bounds.Origin()))
      case None => if n[x].window.Some? then [WindowRepaint(n[x].window.value, q)] else []
  }

  /** The state after RemoveFromParent on `x`. */
  ghost function Detach(n: Nodes, x: BlockId): (m: Nodes)
    requires x in n
    ensures m.Keys == n.Keys
    ensures m[x].parent.None?
  {
    map y | y in n ::
      if y == x then n[x].(parent := None)
      else if n[x].parent == Some(y) then n[y].(children := Without(n[y].children, x), needLayout := true)
      else n[y]
  }

  /** The state after appending the parentless `x` to `p`'s children. */
  function Attach(n: Nodes, p: BlockId, x: BlockId): (m: Nodes)
    requires p in n && x in n
    ensures m.Keys == n.Keys
  {
    map y | y in n ::
      if y == x then n[x].(parent := Some(p))
      else if y == p then n[p].(children := n[p].children + [x], needLayout := true)
      else n[y]
  }

  /** The ranking after attaching `c` under `b`: `c`'s subtree moves below `b`. */
  ghost function Reranked(n: Nodes, g: Ranking, b: BlockId, c: BlockId): Ranking
    requires Ranked(n, g) && b in n && c in n
  {
    var s := Subtree(n, g, c);
    var k := g.rank[b] + 1;
    Ranking(map x | x in g.rank :: if x in s then g.rank[x] + k else g.rank[x], g.bound + k)
  }

  /** Effects of painting `dirty` (in `x`'s local space) into `x` and its descendants. */
  ghost function PaintEffects(n: Nodes, g: Ranking, x: BlockId, dirty: Rect): seq<Effect>
    requires Tree(n, g) && x in n
    decreases g.bound - g.rank[x], 1, 0
  {
    var d := Intersect(dirty, ZeroLocation(n[x].bounds));
    if IsEmpty(d) then [] else [Painted(x, d)] + ChildPaintEffects(n, g, x, n[x].children, d)
  }

  ghost function ChildPaintEffects(n: Nodes, g: Ranking, p: BlockId, cs: seq<BlockId>, d: Rect): seq<Effect>
    requires Tree(n, g) && p in n
    requires forall c | c in cs :: c in n && n[c].parent == Some(p)
    decreases g.bound - g.rank[p], 0, |cs|
  {
    if cs == [] then []
    else
      var c := cs[|cs| - 1];
      var a := Intersect(d, n[c].bounds);
      ChildPaintEffects(n, g, p, cs[..|cs| - 1], d)
      + (if IsEmpty(a) then [] else PaintEffects(n, g, c, Translate(a, Sub(Zero, n[c].bounds.Origin()))))
  }

  /** One more child of the paint loop. */
  lemma ChildPaintStep(n: Nodes, g: Ranking, p: BlockId, cs: seq<BlockId>, i: nat, d: Rect)
    requires Tree(n, g) && p in n && i < |cs|
    requires forall c | c in cs :: c in n && n[c].parent == Some(p)
    ensures var c := cs[i];
      var a := Intersect(d, n[c].bounds);
      ChildPaintEffects(n, g, p, cs[..i + 1], d)
      == ChildPaintEffects(n, g, p, cs[..i], d)
         + (if IsEmpty(a) then [] else PaintEffects(n, g, c, Translate(a, Sub(Zero, n[c].bounds.Origin()))))
  {
    assert cs[..i + 1][..i] == cs[..i];
  }

  /** The position of the first block of `cs` whose bounds contain `pt`, or |cs| when none does. */
  ghost function FirstHit(n: Nodes, cs: seq<BlockId>, pt: Point): (i: nat)
    requires forall c | c in cs :: c in n
    ensures i <= |cs|
    ensures i < |cs| ==> Contains(n[cs[i]].bounds, pt)
    ensures forall j | 0 <= j < i :: !Contains(n[cs[j]].bounds, pt)
  {
    if cs == [] then 0
    else if Contains(n[cs[0]].bounds, pt) then 0
    else 1 + FirstHit(n, cs[1..], pt)
  }

  /** FirstHit is the first position whose bounds contain the point, and |cs| when there is none. */
  lemma {:induction false} FirstHitAt(n: Nodes, cs: seq<BlockId>, pt: Point, i: nat)
    requires forall c | c in cs :: c in n
    requires i <= |cs| && forall j | 0 <= j < i :: !Contains(n[cs[j]].bounds, pt)
    requires i < |cs| ==> Contains(n[cs[i]].bounds, pt)
    ensures FirstHit(n, cs, pt) == i
  {
    if i > 0 {
      assert !Contains(n[cs[0]].bounds, pt);
      assert forall j | 0 <= j < i - 1 :: cs[1..][j] == cs[j + 1];
      FirstHitAt(n, cs[1..], pt, i - 1);
    }
  }

  /** BlockAt: descend into the first child containing the point, or stop at `x`. */
  ghost function HitTest(n: Nodes, g: Ranking, x: BlockId, pt: Point): (r: BlockId)
    requires Tree(n, g) && x in n
    ensures r in Subtree(n, g, x)
    decreases g.bound - g.rank[x]
  {
    var cs := n[x].children;
    var i := FirstHit(n, cs, pt);
    if i == |cs| then x
    else
      var c := cs[i];
      var r := HitTest(n, g, c, Sub(pt, n[c].bounds.Origin()));
      ChainSuffix(n, g, r, c);
      r
  }

  /** Block.Window: the window set on the nearest of `x` and its ancestors, or none if no block on the chain has one. */
  ghost function WindowOf(n: Nodes, g: Ranking, x: BlockId): (w: Option<WindowId>)
    requires Ranked(n, g) && x in n
    ensures w.Some? ==> exists i | 0 <= i < |Chain(n, g, x)| ::
              n[Chain(n, g, x)[i]].window == w && forall j | 0 <= j < i :: n[Chain(n, g, x)[j]].window.None?
    ensures w.None? <==> forall i | 0 <= i < |Chain(n, g, x)| :: n[Chain(n, g, x)[i]].window.None?
    decreases g.rank[x]
  {
    var c := Chain(n, g, x);
    if n[x].window.Some? then
      assert Chain(n, g, x)[0] == x && n[Chain(n, g, x)[0]].window.Some?;
      n[x].window
    else if n[x].parent.Some? then
      var p := n[x].parent.value;
      var w := WindowOf(n, g, p);
      assert c == [x] + Chain(n, g, p);
      assert forall i | 1 <= i < |c| :: c[i] == Chain(n, g, p)[i - 1];
      if w.Some? then
        var i :| 0 <= i < |Chain(n, g, p)| && n[Chain(n, g, p)[i]].window == w
                 && forall j | 0 <= j < i :: n[Chain(n, g, p)[j]].window.None?;
        assert n[c[i + 1]].window == w;
        w
      else w
    else None
  }

  /**
   * Block.ComputeSizes: the layout's answer when a layout is installed, else the Sizes
   * callback's, else zero minimum and preferred sizes with the layout package's default maximum.
   */
  function ComputeSizes(b: Node, layoutSizes: Size -> Sizes, sizes: Option<Size -> Sizes>,
                        defaultMax: Size -> Size, hint: Size): (r: Sizes)
    ensures b.hasLayout ==> r == layoutSizes(hint)
    ensures !b.hasLayout && sizes.Some? ==> r == sizes.value(hint)
    ensures !b.hasLayout && sizes.None? ==>
              r.min == Size(0.0, 0.0) && r.pref == Size(0.0, 0.0) && r.max == defaultMax(Size(0.0, 0.0))
  {
    if b.hasLayout then layoutSizes(hint)
    else if sizes.Some? then sizes.value(hint)
    else Sizes(DefaultMinSize, DefaultPrefSize, defaultMax(DefaultPrefSize))
  }

  /** Block.Focused: a disabled block never reports the keyboard focus. */
  function Focused(b: Node): (r: bool)
    ensures r ==> !b.disabled
    ensures r <==> b.focused && !b.disabled
  {
    b.focused && !b.disabled
  }

  // ---------------------------------------------------------------------------------------
  // Lemmas about chains and subtrees

  /** Everything above an ancestor `c` of `y` is also above `y`. */
  lemma {:induction false} ChainSuffix(n: Nodes, g: Ranking, y: BlockId, c: BlockId)
    requires Ranked(n, g) && y in n && c in Chain(n, g, y)
    ensures c in n && forall z | z in Chain(n, g, c) :: z in Chain(n, g, y)
    decreases g.rank[y]
  {
    if c != y {
      ChainSuffix(n, g, n[y].parent.value, c);
    }
  }

  /** Two different children of one parent never lie on the same chain: sibling subtrees are disjoint. */
  lemma {:induction false} SiblingsDisjoint(n: Nodes, g: Ranking, c1: BlockId, c2: BlockId, y: BlockId)
    requires Ranked(n, g) && y in n && c1 in n && c2 in n && c1 != c2
    requires n[c1].parent.Some? && n[c1].parent == n[c2].parent
    ensures c1 !in Chain(n, g, y) || c2 !in Chain(n, g, y)
    decreases g.rank[y]
  {
    if c1 in Chain(n, g, y) && c2 in Chain(n, g, y) && y != c1 && y != c2 {
      SiblingsDisjoint(n, g, c1, c2, n[y].parent.value);
    }
  }

  /** A proper descendant of `b` lies in the subtree of one of `b`'s children. */
  lemma {:induction false} SubtreeCover(n: Nodes, g: Ranking, b: BlockId, y: BlockId)
    requires Tree(n, g) && y in n && b in n && b in Chain(n, g, y) && y != b
    ensures exists j | 0 <= j < |n[b].children| :: n[b].children[j] in Chain(n, g, y)
    decreases g.rank[y]
  {
    var p := n[y].parent.value;
    assert Chain(n, g, y) == [y] + Chain(n, g, p);
    if p == b {
      var j :| 0 <= j < |n[b].children| && n[b].children[j] == y;
    } else {
      SubtreeCover(n, g, b, p);
      var j :| 0 <= j < |n[b].children| && n[b].children[j] in Chain(n, g, p);
      assert n[b].children[j] in Chain(n, g, y);
    }
  }

  /** The subtree of a child lies in the subtree of its parent. */
  lemma ChildSubtree(n: Nodes, g: Ranking, p: BlockId, c: BlockId)
    requires Ranked(n, g) && p in n && c in n && n[c].parent == Some(p)
    ensures Subtree(n, g, c) <= Subtree(n, g, p)
    ensures p !in Subtree(n, g, c)
  {
    forall y | y in Subtree(n, g, c) ensures y in Subtree(n, g, p) {
      ChainSuffix(n, g, y, c);
      assert Chain(n, g, c) == [c] + Chain(n, g, p);
    }
  }

  /** States with the same links have the same chains. */
  lemma {:induction false} ChainSameLinks(n1: Nodes, n2: Nodes, g: Ranking, x: BlockId)
    requires Ranked(n1, g) && Ranked(n2, g) && SameLinks(n1, n2) && x in n1
    ensures Chain(n1, g, x) == Chain(n2, g, x)
    decreases g.rank[x]
  {
    if n1[x].parent.Some? {
      ChainSameLinks(n1, n2, g, n1[x].parent.value);
    }
  }

  lemma SubtreeSameLinks(n1: Nodes, n2: Nodes, g: Ranking, x: BlockId)
    requires Ranked(n1, g) && Ranked(n2, g) && SameLinks(n1, n2) && x in n1
    ensures Subtree(n1, g, x) == Subtree(n2, g, x)
  {
    forall y | y in n1 ensures Chain(n1, g, y) == Chain(n2, g, y) {
      ChainSameLinks(n1, n2, g, y);
    }
  }

  /** A chain that never meets a changed parent link is unchanged. */
  lemma {:induction false} ChainFrame(n1: Nodes, n2: Nodes, g: Ranking, y: BlockId)
    requires Ranked(n1, g) && Ranked(n2, g) && y in n1
    requires forall z | z in Chain(n1, g, y) :: z in n2 && n2[z].parent == n1[z].parent
    ensures Chain(n2, g, y) == Chain(n1, g, y)
    decreases g.rank[y]
  {
    if n1[y].parent.Some? {
      var p := n1[y].parent.value;
      assert Chain(n1, g, y) == [y] + Chain(n1, g, p);
      ChainFrame(n1, n2, g, p);
    }
  }

  /** Changing anything but the links keeps the tree invariant. */
  lemma SameLinksTree(n1: Nodes, n2: Nodes, g: Ranking)
    requires Tree(n1, g) && SameLinks(n1, n2)
    ensures Tree(n2, g)
  {
    assert Linked(n2) by {
      forall p, i | p in n2 && 0 <= i < |n2[p].children|
        ensures n2[p].children[i] in n2 && n2[n2[p].children[i]].parent == Some(p)
      {
        assert n1[p].children[i] == n2[p].children[i];
      }
    }
  }

  // ---------------------------------------------------------------------------------------
  // Lemmas about the operations

  /**
   * RemoveFromParent keeps the tree invariant; afterwards `x` has no parent and its former
   * parent lists every other child, in the same order, and needs layout.
   */
  lemma DetachKeepsTree(n: Nodes, g: Ranking, x: BlockId)
    requires Tree(n, g) && x in n
    ensures Tree(Detach(n, x), g)
    ensures Detach(n, x)[x].parent.None?
    ensures forall y | y in n && y != x :: Detach(n, x)[y].parent == n[y].parent
    ensures n[x].parent.Some? ==>
              var p := n[x].parent.value;
              p != x && Detach(n, x)[p].children == Without(n[p].children, x) && Detach(n, x)[p].needLayout
              && x !in Detach(n, x)[p].children
  {
    DetachParentsList(n, g, x);
    DetachChildrenPoint(n, g, x);
    DetachRest(n, g, x);
  }

  lemma DetachRest(n: Nodes, g: Ranking, x: BlockId)
    requires Tree(n, g) && x in n
    ensures Ranked(Detach(n, x), g) && ChildrenUnique(Detach(n, x))
  {
    var m := Detach(n, x);
    forall y | y in m ensures NoDuplicates(m[y].children) {
      assert NoDuplicates(n[y].children);
    }
  }

  lemma DetachParentsList(n: Nodes, g: Ranking, x: BlockId)
    requires Tree(n, g) && x in n
    ensures ParentsList(Detach(n, x))
  {
    var m := Detach(n, x);
    forall y | y in m && m[y].parent.Some?
      ensures m[y].parent.value in m && y in m[m[y].parent.value].children
    {
      var q := n[y].parent.value;
      assert y != x && m[y].parent == n[y].parent;
      if n[x].parent == Some(q) {
        var i :| 0 <= i < |n[q].children| && n[q].children[i] == y;
        assert y in Without(n[q].children, x);
      }
    }
  }

  lemma DetachChildrenPoint(n: Nodes, g: Ranking, x: BlockId)
    requires Tree(n, g) && x in n
    ensures ChildrenPoint(Detach(n, x))
  {
    var m := Detach(n, x);
    forall q, i | q in m && 0 <= i < |m[q].children|
      ensures m[q].children[i] in m && m[m[q].children[i]].parent == Some(q)
    {
      var d := m[q].children[i];
      if n[x].parent == Some(q) {
        assert d in n[q].children && d != x;
        var j :| 0 <= j < |n[q].children| && n[q].children[j] == d;
      } else {
        assert d == n[q].children[i];
      }
    }
  }

  /** Removing the child at its index, as RemoveFromParent does, is Detach. */
  lemma DetachBySlice(n: Nodes, g: Ranking, x: BlockId, i: nat)
    requires Tree(n, g) && x in n && n[x].parent.Some?
    requires var p := n[x].parent.value; i < |n[p].children| && n[p].children[i] == x
    ensures var p := n[x].parent.value;
      var cs := n[p].children;
      n[p := n[p].(children := cs[..i] + cs[i + 1..], needLayout := true)][x := n[x].(parent := None)]
      == Detach(n, x)
  {
    var p := n[x].parent.value;
    var cs := n[p].children;
    assert NoDuplicates(cs);
    WithoutAt(cs, i);
    var m := n[p := n[p].(children := cs[..i] + cs[i + 1..], needLayout := true)][x := n[x].(parent := None)];
    var d := Detach(n, x);
    assert m.Keys == d.Keys;
    forall y | y in m ensures m[y] == d[y] {
    }
  }

  /** Appending and linking, as AddChild does, is Attach. */
  lemma AttachByUpdate(n: Nodes, b: BlockId, c: BlockId)
    requires b in n && c in n && b != c
    ensures n[b := n[b].(children := n[b].children + [c], needLayout := true)][c := n[c].(parent := Some(b))]
            == Attach(n, b, c)
  {
    var m := n[b := n[b].(children := n[b].children + [c], needLayout := true)][c := n[c].(parent := Some(b))];
    var a := Attach(n, b, c);
    assert m.Keys == a.Keys;
    forall y | y in m ensures m[y] == a[y] {
    }
  }

  /** Attaching a parentless block that is not an ancestor of `b` keeps the tree invariant. */
  lemma AttachKeepsTree(n: Nodes, g: Ranking, b: BlockId, c: BlockId)
    requires Tree(n, g) && b in n && c in n && n[c].parent.None?
    requires c !in Chain(n, g, b)
    ensures b != c
    ensures Tree(Attach(n, b, c), Reranked(n, g, b, c))
  {
    AttachRanked(n, g, b, c);
    AttachChildrenPoint(n, g, b, c);
    AttachRest(n, g, b, c);
  }

  lemma AttachRest(n: Nodes, g: Ranking, b: BlockId, c: BlockId)
    requires Tree(n, g) && b in n && c in n && n[c].parent.None? && b != c
    ensures ParentsList(Attach(n, b, c)) && ChildrenUnique(Attach(n, b, c))
  {
    var m := Attach(n, b, c);
    assert c !in n[b].children;
    forall y | y in m ensures NoDuplicates(m[y].children) {
      assert NoDuplicates(n[y].children);
    }
    forall y | y in m && m[y].parent.Some?
      ensures m[y].parent.value in m && y in m[m[y].parent.value].children
    {
      if y != c {
        assert n[y].parent == m[y].parent;
      }
    }
  }

  lemma AttachRanked(n: Nodes, g: Ranking, b: BlockId, c: BlockId)
    requires Tree(n, g) && b in n && c in n && n[c].parent.None?
    requires c !in Chain(n, g, b)
    ensures b != c
    ensures Ranked(Attach(n, b, c), Reranked(n, g, b, c))
  {
    var s := Subtree(n, g, c);
    var g2 := Reranked(n, g, b, c);
    var m := Attach(n, b, c);
    assert c in s;
    assert b !in s;
    forall x | x in m && m[x].parent.Some?
      ensures m[x].parent.value in m && g2.rank[m[x].parent.value] < g2.rank[x]
    {
      var q := m[x].parent.value;
      if x != c {
        assert n[x].parent == Some(q);
        assert Chain(n, g, x) == [x] + Chain(n, g, q);
        assert x in s <==> q in s;
      }
    }
  }

  lemma AttachChildrenPoint(n: Nodes, g: Ranking, b: BlockId, c: BlockId)
    requires Tree(n, g) && b in n && c in n && n[c].parent.None? && b != c
    ensures ChildrenPoint(Attach(n, b, c))
  {
    var m := Attach(n, b, c);
    forall q, i | q in m && 0 <= i < |m[q].children|
      ensures m[q].children[i] in m && m[m[q].children[i]].parent == Some(q)
    {
      if q != b || i < |n[b].children| {
        assert m[q].children[i] == n[q].children[i];
      }
    }
  }

  /** What AddChild promises: `c` is now `b`'s last child, listed once, and gone from its former parent. */
  lemma AddChildOutcome(n: Nodes, g: Ranking, b: BlockId, c: BlockId)
    requires Tree(n, g) && b in n && c in n && c !in Chain(n, g, b)
    ensures b != c
    ensures var m := Attach(Detach(n, c), b, c);
      && m.Keys == n.Keys
      && m[c].parent == Some(b)
      && m[b].needLayout
      && |m[b].children| > 0 && m[b].children[|m[b].children| - 1] == c
      && (forall i | 0 <= i < |m[b].children| - 1 :: m[b].children[i] != c)
      && (n[c].parent.Some? && n[c].parent.value != b ==> c !in m[n[c].parent.value].children)
  {
    DetachKeepsTree(n, g, c);
    var n1 := Detach(n, c);
    assert c !in n1[b].children;
  }

  /** The chain above `b` survives detaching a block that is not on it. */
  lemma DetachKeepsChain(n: Nodes, g: Ranking, b: BlockId, c: BlockId)
    requires Tree(n, g) && b in n && c in n && c !in Chain(n, g, b)
    ensures Tree(Detach(n, c), g) && Chain(Detach(n, c), g, b) == Chain(n, g, b)
  {
    DetachKeepsTree(n, g, c);
    ChainFrame(n, Detach(n, c), g, b);
  }

  /** Every window request lies inside the clipped request, moved by the non-root origins. */
  lemma {:induction false} RepaintClipped(n: Nodes, g: Ranking, x: BlockId, r: Rect)
    requires Ranked(n, g) && x in n
    ensures forall k | 0 <= k < |Repainted(n, g, x, r)| ::
              Inside(Repainted(n, g, x, r)[k].area,
                     Translate(Intersect(r, ZeroLocation(n[x].bounds)), ClipOffset(n, g, x)))
    decreases g.rank[x]
  {
    var q := Intersect(r, ZeroLocation(n[x].bounds));
    if !IsEmpty(q) && n[x].parent.Some? {
      var p := n[x].parent.value;
      var o := n[x].bounds.Origin();
      var q2 := Translate(q, o);
      RepaintClipped(n, g, p, q2);
      var e := Repainted(n, g, p, q2);
      if |e| > 0 {
        var q3 := Intersect(q2, ZeroLocation(n[p].bounds));
        InsideTranslate(q3, q2, ClipOffset(n, g, p));
        InsideTransitive(e[0].area, Translate(q3, ClipOffset(n, g, p)), Translate(q2, ClipOffset(n, g, p)));
      }
    }
  }

  /** A request reaching a window always comes from a block whose root has that window. */
  lemma {:induction false} RepaintTarget(n: Nodes, g: Ranking, x: BlockId, r: Rect)
    requires Ranked(n, g) && x in n
    ensures forall k | 0 <= k < |Repainted(n, g, x, r)| ::
              var c := Chain(n, g, x);
              n[c[|c| - 1]].window == Some(Repainted(n, g, x, r)[k].window)
    decreases g.rank[x]
  {
    var q := Intersect(r, ZeroLocation(n[x].bounds));
    if !IsEmpty(q) && n[x].parent.Some? {
      var p := n[x].parent.value;
      RepaintTarget(n, g, p, Translate(q, n[x].bounds.Origin()));
      assert Chain(n, g, x) == [x] + Chain(n, g, p);
    }
  }

  /** The blocks of the subtrees of `cs`. */
  ghost function Below(n: Nodes, g: Ranking, cs: seq<BlockId>): (r: set<BlockId>)
    requires Ranked(n, g) && forall c | c in cs :: c in n
    ensures r <= n.Keys
  {
    if cs == [] then {} else Below(n, g, cs[..|cs| - 1]) + Subtree(n, g, cs[|cs| - 1])
  }

  lemma {:induction false} BelowMember(n: Nodes, g: Ranking, cs: seq<BlockId>, y: BlockId)
    requires Ranked(n, g) && forall c | c in cs :: c in n
    ensures y in Below(n, g, cs) <==> exists c | c in cs :: y in Subtree(n, g, c)
  {
    if cs != [] {
      BelowMember(n, g, cs[..|cs| - 1], y);
      assert forall c :: c in cs <==> c in cs[..|cs| - 1] || c == cs[|cs| - 1];
    }
  }

  /** A child's subtree is disjoint from the subtrees of its other siblings. */
  lemma {:induction false} BelowDisjoint(n: Nodes, g: Ranking, p: BlockId, cs: seq<BlockId>, c: BlockId)
    requires Ranked(n, g) && p in n && c in n && n[c].parent == Some(p) && c !in cs
    requires forall c' | c' in cs :: c' in n && n[c'].parent == Some(p)
    ensures Subtree(n, g, c) !! Below(n, g, cs)
  {
    if cs != [] {
      var d := cs[|cs| - 1];
      BelowDisjoint(n, g, p, cs[..|cs| - 1], c);
      forall y | y in Subtree(n, g, c) && y in Subtree(n, g, d) ensures false {
        SiblingsDisjoint(n, g, c, d, y);
      }
    }
  }

  /** The subtrees of `b`'s children are exactly `b`'s proper descendants. */
  lemma BelowChildren(n: Nodes, g: Ranking, b: BlockId)
    requires Tree(n, g) && b in n
    ensures Below(n, g, n[b].children) == Subtree(n, g, b) - {b}
  {
    var cs := n[b].children;
    forall y | y in Subtree(n, g, b) && y != b ensures y in Below(n, g, cs) {
      SubtreeCover(n, g, b, y);
      var j :| 0 <= j < |cs| && cs[j] in Chain(n, g, y);
      assert y in Subtree(n, g, cs[j]);
      BelowMember(n, g, cs, y);
    }
    forall y | y in Below(n, g, cs) ensures y in Subtree(n, g, b) && y != b {
      BelowMember(n, g, cs, y);
      var c :| c in cs && y in Subtree(n, g, c);
      ChildSubtree(n, g, b, c);
    }
  }

  /** Every paint callback gets a non-empty area inside its own block's local bounds. */
  lemma {:induction false} PaintClipped(n: Nodes, g: Ranking, x: BlockId, dirty: Rect)
    requires Tree(n, g) && x in n
    ensures forall e | e in PaintEffects(n, g, x, dirty) ::
              e.Painted? && e.block in Subtree(n, g, x) && !IsEmpty(e.area)
              && Inside(e.area, ZeroLocation(n[e.block].bounds))
    decreases g.bound - g.rank[x], 1, 0
  {
    var d := Intersect(dirty, ZeroLocation(n[x].bounds));
    assert x in Subtree(n, g, x);
    if !IsEmpty(d) {
      BelowChildren(n, g, x);
      ChildPaintClipped(n, g, x, n[x].children, d);
    }
  }

  lemma {:induction false} ChildPaintClipped(n: Nodes, g: Ranking, p: BlockId, cs: seq<BlockId>, d: Rect)
    requires Tree(n, g) && p in n
    requires forall c | c in cs :: c in n && n[c].parent == Some(p)
    ensures forall e | e in ChildPaintEffects(n, g, p, cs, d) ::
              e.Painted? && e.block in Below(n, g, cs) && !IsEmpty(e.area)
              && Inside(e.area, ZeroLocation(n[e.block].bounds))
    decreases g.bound - g.rank[p], 0, |cs|
  {
    if cs != [] {
      var c := cs[|cs| - 1];
      var a := Intersect(d, n[c].bounds);
      ChildPaintClipped(n, g, p, cs[..|cs| - 1], d);
      if !IsEmpty(a) {
        PaintClipped(n, g, c, Translate(a, Sub(Zero, n[c].bounds.Origin())));
      }
    }
  }

  /** Converting to window coordinates and back gives the original point, and vice versa. */
  lemma WindowRoundTrip(n: Nodes, g: Ranking, x: BlockId, p: Point)
    requires Ranked(n, g) && x in n
    ensures Sub(Add(p, Offset(n, g, x)), Offset(n, g, x)) == p
    ensures Add(Sub(p, Offset(n, g, x)), Offset(n, g, x)) == p
  {
  }

  /** Every identifier in `ids` was handed out before `next`. */
  ghost predicate Issued(ids: set<BlockId>, next: nat)
  {
    forall x | x in ids :: x < next
  }
}
