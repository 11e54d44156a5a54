/**
 * Layout validation of Block.go: ValidateLayout and the SetBounds calls a layout makes.
 *
 * A layout strategy is code the tree calls back. Here it is a `Placement`: given the state and
 * the block being laid out, the bounds the strategy gives that block's children, in order.
 * The strategy applies them with SetBounds, so a child it moves or resizes is repainted, and
 * a child it resizes needs layout itself. The walk reaches that child afterwards, with the
 * flag set.
 *
 * Each walk is a function from a state to a `Pass`: the state it leaves and the effects it
 * logs on the way, in order.
 */
module BlockLayout {
  import opened Wrappers
  import opened Geometry
  import opened BlockTree

  /** A layout strategy's placement: the new bounds of the block's children, first child first. */
  type Placement = (Nodes, BlockId) -> seq<Rect>

  /**
   * A state together with the effects produced on the way to it. The state's type is a
   * parameter, which keeps the verifier from relating every block of a state to the pass.
   */
  datatype Walk<S> = Pass(nodes: S, effects: seq<Effect>)

  /** A pass over a block tree. */
  type Pass = Walk<Nodes>

  /** Two blocks that agree in every field but the bounds and the NeedLayout flag. */
  predicate SameButPlacement(a: Node, b: Node)
  {
    && a.parent == b.parent && a.children == b.children && a.window == b.window
    && a.hasLayout == b.hasLayout && a.focused == b.focused && a.disabled == b.disabled
  }

  /** Two states that differ at most in the bounds and NeedLayout flags of their blocks. */
  ghost predicate OnlyPlaced(n1: Nodes, n2: Nodes)
  {
    n1.Keys == n2.Keys && forall x | x in n1 :: SameButPlacement(n1[x], n2[x])
  }

  /** Whether the width or the height differs, which is what makes SetBounds raise NeedLayout. */
  predicate Resized(o: Rect, r: Rect)
  {
    o.width != r.width || o.height != r.height
  }

  /** How many children a placement reaches: the shorter of the two lists. */
  function Paired(cs: seq<BlockId>, rs: seq<Rect>): (k: nat)
    ensures k <= |cs| && k <= |rs|
    ensures k == |cs| || k == |rs|
  {
    if |cs| <= |rs| then |cs| else |rs|
  }

  lemma OnlyPlacedTree(n1: Nodes, n2: Nodes, g: Ranking)
    requires Tree(n1, g) && OnlyPlaced(n1, n2)
    ensures SameLinks(n1, n2) && Tree(n2, g)
    ensures forall x | x in n1 :: n2[x].hasLayout == n1[x].hasLayout && n2[x].window == n1[x].window
  {
    SameLinksTree(n1, n2, g);
  }

  lemma OnlyPlacedRanked(n1: Nodes, n2: Nodes, g: Ranking)
    requires Ranked(n1, g) && OnlyPlaced(n1, n2)
    ensures Ranked(n2, g)
  {
  }

  lemma OnlyPlacedTrans(n1: Nodes, n2: Nodes, n3: Nodes)
    requires OnlyPlaced(n1, n2) && OnlyPlaced(n2, n3)
    ensures OnlyPlaced(n1, n3)
  {
  }

  /** States with the same links have the same subtrees below a list of children. */
  lemma {:induction false} BelowSameLinks(n1: Nodes, n2: Nodes, g: Ranking, cs: seq<BlockId>)
    requires Ranked(n1, g) && Ranked(n2, g) && SameLinks(n1, n2) && forall c | c in cs :: c in n1
    ensures Below(n1, g, cs) == Below(n2, g, cs)
  {
    if cs != [] {
      BelowSameLinks(n1, n2, g, cs[..|cs| - 1]);
      SubtreeSameLinks(n1, n2, g, cs[|cs| - 1]);
    }
  }

  /**
   * SetBounds on `x`: equal bounds change nothing; otherwise the old footprint is repainted,
   * the bounds are replaced, NeedLayout is raised when the size changed, and the new
   * footprint is repainted.
   */
  ghost function BoundsSet(n: Nodes, g: Ranking, x: BlockId, r: Rect): (p: Pass)
    requires Ranked(n, g) && x in n
    ensures OnlyPlaced(n, p.nodes)
    ensures forall y | y in n && y != x :: p.nodes[y] == n[y]
    ensures p.nodes[x].bounds == r
    ensures p.nodes[x].needLayout == (n[x].needLayout || Resized(n[x].bounds, r))
    ensures forall e | e in p.effects :: e.WindowRepaint?
  {
    var o := n[x].bounds;
    if o == r then Pass(n, [])
    else
      var m := n[x := n[x].(bounds := r, needLayout := n[x].needLayout || Resized(o, r))];
      OnlyPlacedRanked(n, m, g);
      Pass(m, Repainted(n, g, x, ZeroLocation(o)) + Repainted(m, g, x, ZeroLocation(r)))
  }

  /** The SetBounds calls of a layout: the first `k` blocks of `cs` get the first `k` rects, in order. */
  ghost function Arranged(n: Nodes, g: Ranking, cs: seq<BlockId>, rs: seq<Rect>, k: nat): (p: Pass)
    requires Ranked(n, g) && k <= |cs| && k <= |rs| && forall c | c in cs :: c in n
    ensures OnlyPlaced(n, p.nodes)
    ensures forall e | e in p.effects :: e.WindowRepaint?
    decreases k
  {
    if k == 0 then Pass(n, [])
    else
      var a := Arranged(n, g, cs, rs, k - 1);
      OnlyPlacedRanked(n, a.nodes, g);
      var s := BoundsSet(a.nodes, g, cs[k - 1], rs[k - 1]);
      OnlyPlacedTrans(n, a.nodes, s.nodes);
      Pass(s.nodes, a.effects + s.effects)
  }

  /** A run of `x`'s layout: the layout places the children, then `x` is repainted. */
  ghost function LayoutRun(n: Nodes, g: Ranking, place: Placement, x: BlockId): (p: Pass)
    requires Ranked(n, g) && x in n && forall c | c in n[x].children :: c in n
    ensures OnlyPlaced(n, p.nodes)
    ensures |p.effects| > 0 && p.effects[0] == LayoutRan(x)
    ensures forall e | e in p.effects[1..] :: e.WindowRepaint?
  {
    var cs := n[x].children;
    var rs := place(n, x);
    var a := Arranged(n, g, cs, rs, Paired(cs, rs));
    OnlyPlacedRanked(n, a.nodes, g);
    var rest := a.effects + Repainted(a.nodes, g, x, ZeroLocation(a.nodes[x].bounds));
    assert ([LayoutRan(x)] + rest)[1..] == rest;
    Pass(a.nodes, [LayoutRan(x)] + rest)
  }

  /**
   * ValidateLayout's own step on `x`: when NeedLayout is set, the layout runs if one is
   * installed, and the flag is cleared.
   */
  ghost function OwnValidated(n: Nodes, g: Ranking, place: Placement, x: BlockId): (p: Pass)
    requires Tree(n, g) && x in n
    ensures OnlyPlaced(n, p.nodes)
  {
    if !n[x].needLayout then Pass(n, [])
    else
      assert forall c | c in n[x].children :: c in n;
      var run := if n[x].hasLayout then LayoutRun(n, g, place, x) else Pass(n, []);
      var m := run.nodes;
      OnlyPlacedTrans(n, m, m[x := m[x].(needLayout := false)]);
      Pass(m[x := m[x].(needLayout := false)], run.effects)
  }

  /** ValidateLayout on `x`: its own step, then every child's subtree in order. */
  ghost function Validated(n: Nodes, g: Ranking, place: Placement, x: BlockId): (p: Pass)
    requires Tree(n, g) && x in n
    ensures OnlyPlaced(n, p.nodes)
    decreases g.bound - g.rank[x], 1, 0
  {
    var own := OwnValidated(n, g, place, x);
    OnlyPlacedTree(n, own.nodes, g);
    var rest := ChildrenValidated(own.nodes, g, place, x, n[x].children);
    OnlyPlacedTrans(n, own.nodes, rest.nodes);
    Pass(rest.nodes, own.effects + rest.effects)
  }

  /** The loop of ValidateLayout over the children `cs` of `p`, started in state `n`. */
  ghost function ChildrenValidated(n: Nodes, g: Ranking, place: Placement, p: BlockId, cs: seq<BlockId>): (r: Pass)
    requires Tree(n, g) && p in n
    requires forall c | c in cs :: c in n && n[c].parent == Some(p)
    ensures OnlyPlaced(n, r.nodes)
    decreases g.bound - g.rank[p], 0, |cs|
  {
    if cs == [] then Pass(n, [])
    else
      var before := ChildrenValidated(n, g, place, p, cs[..|cs| - 1]);
      OnlyPlacedTree(n, before.nodes, g);
      var last := Validated(before.nodes, g, place, cs[|cs| - 1]);
      OnlyPlacedTrans(n, before.nodes, last.nodes);
      Pass(last.nodes, before.effects + last.effects)
  }

  /** The NeedLayout flag `y` has at the moment ValidateLayout, started at `x`, reaches it. */
  ghost function FlagAtVisit(n: Nodes, g: Ranking, place: Placement, x: BlockId, y: BlockId): bool
    requires Tree(n, g) && x in n
    decreases g.bound - g.rank[x], 1, 0
  {
    if y == x then n[x].needLayout
    else
      var own := OwnValidated(n, g, place, x);
      OnlyPlacedTree(n, own.nodes, g);
      ChildFlagAtVisit(own.nodes, g, place, x, n[x].children, y)
  }

  /** The same, for the loop over the children `cs` of `p`, started in state `n`. */
  ghost function ChildFlagAtVisit(n: Nodes, g: Ranking, place: Placement, p: BlockId, cs: seq<BlockId>, y: BlockId): bool
    requires Tree(n, g) && p in n
    requires forall c | c in cs :: c in n && n[c].parent == Some(p)
    decreases g.bound - g.rank[p], 0, |cs|
  {
    if cs == [] then false
    else
      var c := cs[|cs| - 1];
      var before := ChildrenValidated(n, g, place, p, cs[..|cs| - 1]);
      OnlyPlacedTree(n, before.nodes, g);
      if y in Subtree(n, g, c) then FlagAtVisit(before.nodes, g, place, c, y)
      else ChildFlagAtVisit(n, g, place, p, cs[..|cs| - 1], y)
  }

  // ---------------------------------------------------------------------------------------
  // The layout's SetBounds calls

  /** One more SetBounds call: placing `k + 1` children places the first `k`, then the next one. */
  lemma ArrangedNext(n: Nodes, g: Ranking, cs: seq<BlockId>, rs: seq<Rect>, k: nat, a: Pass)
    requires Ranked(n, g) && k < |cs| && k < |rs| && forall c | c in cs :: c in n
    requires a == Arranged(n, g, cs, rs, k)
    ensures Ranked(a.nodes, g) && cs[k] in a.nodes
    ensures Arranged(n, g, cs, rs, k + 1)
            == Pass(BoundsSet(a.nodes, g, cs[k], rs[k]).nodes, a.effects + BoundsSet(a.nodes, g, cs[k], rs[k]).effects)
  {
    OnlyPlacedRanked(n, a.nodes, g);
  }

  /** The SetBounds calls change only the placed blocks, and raise NeedLayout flags but never clear one. */
  lemma {:induction false} ArrangedFrame(n: Nodes, g: Ranking, cs: seq<BlockId>, rs: seq<Rect>, k: nat, y: BlockId)
    requires Ranked(n, g) && k <= |cs| && k <= |rs| && forall c | c in cs :: c in n
    requires y in n
    ensures y !in cs[..k] ==> Arranged(n, g, cs, rs, k).nodes[y] == n[y]
    ensures n[y].needLayout ==> Arranged(n, g, cs, rs, k).nodes[y].needLayout
    decreases k
  {
    if k > 0 {
      ArrangedFrame(n, g, cs, rs, k - 1, y);
      OnlyPlacedRanked(n, Arranged(n, g, cs, rs, k - 1).nodes, g);
      assert y !in cs[..k] ==> y !in cs[..k - 1] && y != cs[k - 1];
    }
  }

  /** The `i`-th placed child ends with the `i`-th rect, and NeedLayout raised when that resizes it. */
  lemma {:induction false} ArrangedChild(n: Nodes, g: Ranking, cs: seq<BlockId>, rs: seq<Rect>, k: nat, i: nat)
    requires Ranked(n, g) && k <= |cs| && k <= |rs| && forall c | c in cs :: c in n
    requires NoDuplicates(cs) && i < k
    ensures Arranged(n, g, cs, rs, k).nodes[cs[i]]
            == n[cs[i]].(bounds := rs[i], needLayout := n[cs[i]].needLayout || Resized(n[cs[i]].bounds, rs[i]))
    decreases k
  {
    var c := cs[i];
    var a := Arranged(n, g, cs, rs, k - 1);
    OnlyPlacedRanked(n, a.nodes, g);
    var s := BoundsSet(a.nodes, g, cs[k - 1], rs[k - 1]);
    assert Arranged(n, g, cs, rs, k).nodes == s.nodes;
    if i == k - 1 {
      NotInFront(cs, i);
      ArrangedFrame(n, g, cs, rs, k - 1, c);
      assert a.nodes[c] == n[c];
      assert SameButPlacement(n[c], s.nodes[c]);
    } else {
      ArrangedChild(n, g, cs, rs, k - 1, i);
      assert c != cs[k - 1];
      assert s.nodes[c] == a.nodes[c];
    }
  }

  /** The own step leaves every block but `x` and its children alone, and clears `x`'s flag. */
  lemma OwnFrame(n: Nodes, g: Ranking, place: Placement, x: BlockId)
    requires Tree(n, g) && x in n
    ensures !OwnValidated(n, g, place, x).nodes[x].needLayout
    ensures forall y | y in n && y != x && y !in n[x].children :: OwnValidated(n, g, place, x).nodes[y] == n[y]
    ensures forall y | y in n && y != x && n[y].needLayout :: OwnValidated(n, g, place, x).nodes[y].needLayout
    ensures forall y | y in n && y != x && OwnValidated(n, g, place, x).nodes[y] != n[y] ::
              n[x].needLayout && n[x].hasLayout && y in n[x].children
  {
    var m := OwnValidated(n, g, place, x).nodes;
    if n[x].needLayout {
      assert forall c | c in n[x].children :: c in n;
      var run := if n[x].hasLayout then LayoutRun(n, g, place, x) else Pass(n, []);
      assert m == run.nodes[x := run.nodes[x].(needLayout := false)];
      if n[x].hasLayout {
        var cs := n[x].children;
        var rs := place(n, x);
        var k := Paired(cs, rs);
        assert run.nodes == Arranged(n, g, cs, rs, k).nodes;
        forall y | y in n && y != x
          ensures y !in cs ==> m[y] == n[y]
          ensures n[y].needLayout ==> m[y].needLayout
          ensures m[y] != n[y] ==> y in cs
        {
          ArrangedFrame(n, g, cs, rs, k, y);
          assert y in cs[..k] ==> y in cs;
        }
      }
    }
  }

  /** A layout run logs exactly one run, its own. */
  lemma LayoutRunOnce(n: Nodes, g: Ranking, place: Placement, x: BlockId, y: BlockId)
    requires Ranked(n, g) && x in n && forall c | c in n[x].children :: c in n
    ensures multiset(LayoutRun(n, g, place, x).effects)[LayoutRan(y)] == if y == x then 1 else 0
  {
    var e := LayoutRun(n, g, place, x).effects;
    assert e == [e[0]] + e[1..];
    assert LayoutRan(y) !in e[1..];
    assert multiset([e[0]] + e[1..])[LayoutRan(y)] == multiset([e[0]])[LayoutRan(y)] + multiset(e[1..])[LayoutRan(y)];
  }

  /** The own step logs one run of the layout, for `x` exactly when both its flags are set. */
  lemma OwnRanOnce(n: Nodes, g: Ranking, place: Placement, x: BlockId, y: BlockId)
    requires Tree(n, g) && x in n
    ensures multiset(OwnValidated(n, g, place, x).effects)[LayoutRan(y)]
            == if y == x && n[x].needLayout && n[x].hasLayout then 1 else 0
  {
    if n[x].needLayout && n[x].hasLayout {
      assert forall c | c in n[x].children :: c in n;
      assert OwnValidated(n, g, place, x).effects == LayoutRun(n, g, place, x).effects;
      LayoutRunOnce(n, g, place, x, y);
    }
  }

  // ---------------------------------------------------------------------------------------
  // What a validation changes

  /** Validation changes no block outside the subtree. */
  lemma {:induction false} ValidatedFrame(n: Nodes, g: Ranking, place: Placement, x: BlockId)
    requires Tree(n, g) && x in n
    ensures forall y | y in n && y !in Subtree(n, g, x) :: Validated(n, g, place, x).nodes[y] == n[y]
    decreases g.bound - g.rank[x], 1, 0
  {
    var own := OwnValidated(n, g, place, x);
    var cs := n[x].children;
    OwnFrame(n, g, place, x);
    OnlyPlacedTree(n, own.nodes, g);
    ChildrenValidatedFrame(own.nodes, g, place, x, cs);
    BelowSameLinks(n, own.nodes, g, cs);
    BelowChildren(n, g, x);
    forall c | c in cs ensures c in Subtree(n, g, x) {
      ChildSubtree(n, g, x, c);
    }
  }

  lemma {:induction false} ChildrenValidatedFrame(n: Nodes, g: Ranking, place: Placement, p: BlockId, cs: seq<BlockId>)
    requires Tree(n, g) && p in n
    requires forall c | c in cs :: c in n && n[c].parent == Some(p)
    ensures forall y | y in n && y !in Below(n, g, cs) :: ChildrenValidated(n, g, place, p, cs).nodes[y] == n[y]
    decreases g.bound - g.rank[p], 0, |cs|
  {
    if cs != [] {
      var c := cs[|cs| - 1];
      var before := ChildrenValidated(n, g, place, p, cs[..|cs| - 1]);
      ChildrenValidatedFrame(n, g, place, p, cs[..|cs| - 1]);
      OnlyPlacedTree(n, before.nodes, g);
      ValidatedFrame(before.nodes, g, place, c);
      SubtreeSameLinks(n, before.nodes, g, c);
    }
  }

  /** After validation no block of the subtree needs layout. */
  lemma {:induction false} ValidatedClears(n: Nodes, g: Ranking, place: Placement, x: BlockId)
    requires Tree(n, g) && x in n
    ensures forall y | y in Subtree(n, g, x) :: !Validated(n, g, place, x).nodes[y].needLayout
    decreases g.bound - g.rank[x], 1, 0
  {
    var own := OwnValidated(n, g, place, x);
    var cs := n[x].children;
    OwnFrame(n, g, place, x);
    OnlyPlacedTree(n, own.nodes, g);
    ChildrenValidatedFrame(own.nodes, g, place, x, cs);
    ChildrenValidatedClears(own.nodes, g, place, x, cs);
    BelowSameLinks(n, own.nodes, g, cs);
    BelowChildren(n, g, x);
  }

  lemma {:induction false} ChildrenValidatedClears(n: Nodes, g: Ranking, place: Placement, p: BlockId, cs: seq<BlockId>)
    requires Tree(n, g) && p in n
    requires forall c | c in cs :: c in n && n[c].parent == Some(p)
    ensures forall y | y in Below(n, g, cs) :: !ChildrenValidated(n, g, place, p, cs).nodes[y].needLayout
    decreases g.bound - g.rank[p], 0, |cs|
  {
    if cs != [] {
      var c := cs[|cs| - 1];
      var before := ChildrenValidated(n, g, place, p, cs[..|cs| - 1]);
      ChildrenValidatedClears(n, g, place, p, cs[..|cs| - 1]);
      OnlyPlacedTree(n, before.nodes, g);
      ValidatedFrame(before.nodes, g, place, c);
      ValidatedClears(before.nodes, g, place, c);
      SubtreeSameLinks(n, before.nodes, g, c);
    }
  }

  // ---------------------------------------------------------------------------------------
  // How often the layout runs

  /**
   * Layout runs exactly once for every block of the subtree that has a layout and whose
   * NeedLayout flag is set when the walk reaches it, and never for any other block.
   */
  lemma {:induction false} LayoutRanExactly(n: Nodes, g: Ranking, place: Placement, x: BlockId, y: BlockId)
    requires Tree(n, g) && x in n
    ensures multiset(Validated(n, g, place, x).effects)[LayoutRan(y)]
            == if y in Subtree(n, g, x) && n[y].hasLayout && FlagAtVisit(n, g, place, x, y) then 1 else 0
    decreases g.bound - g.rank[x], 1, 0
  {
    var m := OwnValidated(n, g, place, x).nodes;
    var cs := n[x].children;
    OwnStep(n, g, place, x, m, y);
    OwnUnfold(n, g, place, x, m, y);
    ChildLayoutRanExactly(m, g, place, x, cs, y);
  }

  /** The state the own step leaves has the same links, and the children's subtrees cover the rest of the subtree. */
  lemma OwnStep(n: Nodes, g: Ranking, place: Placement, x: BlockId, m: Nodes, y: BlockId)
    requires Tree(n, g) && x in n && m == OwnValidated(n, g, place, x).nodes
    ensures Tree(m, g) && SameLinks(n, m) && x in m
    ensures NoDuplicates(n[x].children)
    ensures forall c | c in n[x].children :: c in m && m[c].parent == Some(x)
    ensures y in Below(m, g, n[x].children) <==> y != x && y in Subtree(n, g, x)
    ensures y in Subtree(n, g, x) ==> y in n && m[y].hasLayout == n[y].hasLayout
  {
    var cs := n[x].children;
    OnlyPlacedTree(n, m, g);
    BelowSameLinks(n, m, g, cs);
    BelowChildren(n, g, x);
  }

  /** The runs of a walk are its own step's, then the children's; every flag but `x`'s is read by the children's loop. */
  lemma OwnUnfold(n: Nodes, g: Ranking, place: Placement, x: BlockId, m: Nodes, y: BlockId)
    requires Tree(n, g) && x in n && m == OwnValidated(n, g, place, x).nodes
    requires Tree(m, g) && forall c | c in n[x].children :: c in m && m[c].parent == Some(x)
    ensures multiset(Validated(n, g, place, x).effects)[LayoutRan(y)]
            == (if y == x && n[x].needLayout && n[x].hasLayout then 1 else 0)
               + multiset(ChildrenValidated(m, g, place, x, n[x].children).effects)[LayoutRan(y)]
    ensures FlagAtVisit(n, g, place, x, y)
            == if y == x then n[x].needLayout else ChildFlagAtVisit(m, g, place, x, n[x].children, y)
  {
    var own := OwnValidated(n, g, place, x);
    var rest := ChildrenValidated(m, g, place, x, n[x].children);
    OwnRanOnce(n, g, place, x, y);
    assert multiset(own.effects + rest.effects)[LayoutRan(y)]
           == multiset(own.effects)[LayoutRan(y)] + multiset(rest.effects)[LayoutRan(y)];
  }

  lemma {:induction false} ChildLayoutRanExactly(n: Nodes, g: Ranking, place: Placement, p: BlockId, cs: seq<BlockId>, y: BlockId)
    requires Tree(n, g) && p in n && NoDuplicates(cs)
    requires forall c | c in cs :: c in n && n[c].parent == Some(p)
    ensures multiset(ChildrenValidated(n, g, place, p, cs).effects)[LayoutRan(y)]
            == if y in Below(n, g, cs) && n[y].hasLayout && ChildFlagAtVisit(n, g, place, p, cs, y) then 1 else 0
    decreases g.bound - g.rank[p], 0, |cs|
  {
    if cs != [] {
      var c := cs[|cs| - 1];
      var pre := cs[..|cs| - 1];
      var before := ChildrenValidated(n, g, place, p, pre);
      var b := before.nodes;
      ChildStep(n, g, p, cs);
      ChildUnfold(n, g, place, p, cs, b, y);
      ChildLayoutRanExactly(n, g, place, p, pre, y);
      LayoutRanExactly(b, g, place, c, y);
      if y in Subtree(n, g, c) {
        assert y in n && y !in Below(n, g, pre);
        assert b[y].hasLayout == n[y].hasLayout;
      }
    }
  }

  /**
   * One more child of the loop: the state its walk starts from has the same links, its runs
   * are added to those before it, and it decides the flags in its subtree.
   */
  lemma ChildUnfold(n: Nodes, g: Ranking, place: Placement, p: BlockId, cs: seq<BlockId>, b: Nodes, y: BlockId)
    requires Tree(n, g) && p in n && cs != []
    requires forall c | c in cs :: c in n && n[c].parent == Some(p)
    requires b == ChildrenValidated(n, g, place, p, cs[..|cs| - 1]).nodes
    ensures Tree(b, g) && SameLinks(n, b) && cs[|cs| - 1] in b
    ensures Subtree(b, g, cs[|cs| - 1]) == Subtree(n, g, cs[|cs| - 1])
    ensures y in n ==> b[y].hasLayout == n[y].hasLayout
    ensures multiset(ChildrenValidated(n, g, place, p, cs).effects)[LayoutRan(y)]
            == multiset(ChildrenValidated(n, g, place, p, cs[..|cs| - 1]).effects)[LayoutRan(y)]
               + multiset(Validated(b, g, place, cs[|cs| - 1]).effects)[LayoutRan(y)]
    ensures ChildFlagAtVisit(n, g, place, p, cs, y)
            == if y in Subtree(n, g, cs[|cs| - 1]) then FlagAtVisit(b, g, place, cs[|cs| - 1], y)
               else ChildFlagAtVisit(n, g, place, p, cs[..|cs| - 1], y)
  {
    var c := cs[|cs| - 1];
    var before := ChildrenValidated(n, g, place, p, cs[..|cs| - 1]);
    OnlyPlacedTree(n, b, g);
    SubtreeSameLinks(n, b, g, c);
    var last := Validated(b, g, place, c);
    assert multiset(before.effects + last.effects)[LayoutRan(y)]
           == multiset(before.effects)[LayoutRan(y)] + multiset(last.effects)[LayoutRan(y)];
  }

  /** The last child of a duplicate-free list: its subtree is disjoint from those of the children before it. */
  lemma ChildStep(n: Nodes, g: Ranking, p: BlockId, cs: seq<BlockId>)
    requires Tree(n, g) && p in n && NoDuplicates(cs) && cs != []
    requires forall c | c in cs :: c in n && n[c].parent == Some(p)
    ensures NoDuplicates(cs[..|cs| - 1])
    ensures forall c' | c' in cs[..|cs| - 1] :: c' in n && n[c'].parent == Some(p)
    ensures Below(n, g, cs) == Below(n, g, cs[..|cs| - 1]) + Subtree(n, g, cs[|cs| - 1])
    ensures Subtree(n, g, cs[|cs| - 1]) !! Below(n, g, cs[..|cs| - 1])
  {
    var pre := cs[..|cs| - 1];
    var c := cs[|cs| - 1];
    PrefixNoDuplicates(cs, |cs| - 1);
    forall j | 0 <= j < |pre| ensures pre[j] != c {
      assert pre[j] == cs[j];
    }
    BelowDisjoint(n, g, p, pre, c);
  }

  /** One more round of the loop: validating `i + 1` children validates the first `i`, then the next one. */
  lemma ChildrenValidatedNext(n: Nodes, g: Ranking, place: Placement, p: BlockId, cs: seq<BlockId>, i: nat, b: Pass)
    requires Tree(n, g) && p in n && i < |cs|
    requires forall c | c in cs :: c in n && n[c].parent == Some(p)
    requires b == ChildrenValidated(n, g, place, p, cs[..i])
    ensures Tree(b.nodes, g) && cs[i] in b.nodes && b.nodes[cs[i]].parent == Some(p)
    ensures ChildrenValidated(n, g, place, p, cs[..i + 1])
            == Pass(Validated(b.nodes, g, place, cs[i]).nodes, b.effects + Validated(b.nodes, g, place, cs[i]).effects)
  {
    OnlyPlacedTree(n, b.nodes, g);
    assert cs[..i + 1][..i] == cs[..i];
  }

  // ---------------------------------------------------------------------------------------
  // When a flag is set at the visit

  /** A flag set before validation is still set when the walk reaches its block. */
  lemma {:induction false} FlagKept(n: Nodes, g: Ranking, place: Placement, x: BlockId, y: BlockId)
    requires Tree(n, g) && x in n && y in Subtree(n, g, x) && n[y].needLayout
    ensures FlagAtVisit(n, g, place, x, y)
    decreases g.bound - g.rank[x], 1, 0
  {
    if y != x {
      var own := OwnValidated(n, g, place, x);
      var cs := n[x].children;
      OwnFrame(n, g, place, x);
      OnlyPlacedTree(n, own.nodes, g);
      BelowSameLinks(n, own.nodes, g, cs);
      BelowChildren(n, g, x);
      ChildFlagKept(own.nodes, g, place, x, cs, y);
    }
  }

  lemma {:induction false} ChildFlagKept(n: Nodes, g: Ranking, place: Placement, p: BlockId, cs: seq<BlockId>, y: BlockId)
    requires Tree(n, g) && p in n && NoDuplicates(cs)
    requires forall c | c in cs :: c in n && n[c].parent == Some(p)
    requires y in Below(n, g, cs) && n[y].needLayout
    ensures ChildFlagAtVisit(n, g, place, p, cs, y)
    decreases g.bound - g.rank[p], 0, |cs|
  {
    var c := cs[|cs| - 1];
    var pre := cs[..|cs| - 1];
    var before := ChildrenValidated(n, g, place, p, pre);
    PrefixNoDuplicates(cs, |cs| - 1);
    OnlyPlacedTree(n, before.nodes, g);
    if y in Subtree(n, g, c) {
      BelowDisjoint(n, g, p, pre, c);
      ChildrenValidatedFrame(n, g, place, p, pre);
      SubtreeSameLinks(n, before.nodes, g, c);
      FlagKept(before.nodes, g, place, c, y);
    } else {
      ChildFlagKept(n, g, place, p, pre, y);
    }
  }

  /**
   * In the loop, the flag at the visit of a block below the child that follows the children
   * `pre` is the one that child's own walk sees.
   */
  lemma {:induction false} ChildFlagAt(n: Nodes, g: Ranking, place: Placement, p: BlockId, pre: seq<BlockId>, cs: seq<BlockId>, y: BlockId)
    requires Tree(n, g) && p in n && NoDuplicates(cs)
    requires forall c | c in cs :: c in n && n[c].parent == Some(p)
    requires |pre| < |cs| && cs[..|pre|] == pre && y in Subtree(n, g, cs[|pre|])
    ensures ChildFlagAtVisit(n, g, place, p, cs, y)
            == FlagAtVisit(ChildrenValidated(n, g, place, p, pre).nodes, g, place, cs[|pre|], y)
    decreases |cs|
  {
    if |pre| == |cs| - 1 {
      ChildFlagLast(n, g, place, p, pre, cs, y);
    } else {
      var front := cs[..|cs| - 1];
      assert y !in Subtree(n, g, cs[|cs| - 1]) by {
        if y in Subtree(n, g, cs[|cs| - 1]) {
          SiblingsDisjoint(n, g, cs[|pre|], cs[|cs| - 1], y);
        }
      }
      ChildFlagSkipped(n, g, place, p, cs, y);
      PrefixNoDuplicates(cs, |cs| - 1);
      PrefixOfPrefix(cs, |cs| - 1, |pre|);
      assert front[|pre|] == cs[|pre|];
      assert forall c | c in front :: c in cs;
      ChildFlagAt(n, g, place, p, pre, front, y);
    }
  }

  lemma ChildFlagLast(n: Nodes, g: Ranking, place: Placement, p: BlockId, pre: seq<BlockId>, cs: seq<BlockId>, y: BlockId)
    requires Tree(n, g) && p in n
    requires forall c | c in cs :: c in n && n[c].parent == Some(p)
    requires |pre| == |cs| - 1 && cs[..|pre|] == pre && y in Subtree(n, g, cs[|pre|])
    ensures ChildFlagAtVisit(n, g, place, p, cs, y)
            == FlagAtVisit(ChildrenValidated(n, g, place, p, pre).nodes, g, place, cs[|pre|], y)
  {
    assert cs[..|cs| - 1] == pre;
  }

  lemma ChildFlagSkipped(n: Nodes, g: Ranking, place: Placement, p: BlockId, cs: seq<BlockId>, y: BlockId)
    requires Tree(n, g) && p in n && cs != []
    requires forall c | c in cs :: c in n && n[c].parent == Some(p)
    requires y !in Subtree(n, g, cs[|cs| - 1])
    ensures ChildFlagAtVisit(n, g, place, p, cs, y) == ChildFlagAtVisit(n, g, place, p, cs[..|cs| - 1], y)
  {
    ChildUnfold(n, g, place, p, cs, ChildrenValidated(n, g, place, p, cs[..|cs| - 1]).nodes, y);
  }

  /**
   * A flag found set at the visit was set before validation, or was raised by the layout of
   * the block's parent, which ran in the same walk.
   */
  lemma {:induction false} FlagRaised(n: Nodes, g: Ranking, place: Placement, x: BlockId, y: BlockId)
    requires Tree(n, g) && x in n && y in Subtree(n, g, x)
    ensures FlagAtVisit(n, g, place, x, y) ==>
              || n[y].needLayout
              || (&& y != x && n[y].parent.Some?
                  && n[y].parent.value in Subtree(n, g, x) && n[n[y].parent.value].hasLayout
                  && FlagAtVisit(n, g, place, x, n[y].parent.value))
    decreases g.bound - g.rank[x]
  {
    if y != x {
      var own := OwnValidated(n, g, place, x);
      var m := own.nodes;
      var cs := n[x].children;
      OwnFrame(n, g, place, x);
      OnlyPlacedTree(n, m, g);
      SubtreeCover(n, g, x, y);
      var j :| 0 <= j < |cs| && cs[j] in Chain(n, g, y);
      var c := cs[j];
      assert y in Subtree(n, g, c);
      SubtreeSameLinks(n, m, g, c);
      ChildFlagAt(m, g, place, x, cs[..j], cs, y);
      var before := ChildrenValidated(m, g, place, x, cs[..j]);
      var b := before.nodes;
      OnlyPlacedTree(m, b, g);
      SubtreeSameLinks(m, b, g, c);
      FlagRaised(b, g, place, c, y);
      ChildSubtree(n, g, x, c);
      if FlagAtVisit(n, g, place, x, y) && !n[y].needLayout {
        if b[y].needLayout {
          PrefixNoDuplicates(cs, j);
          assert c !in cs[..j];
          BelowDisjoint(m, g, x, cs[..j], c);
          ChildrenValidatedFrame(m, g, place, x, cs[..j]);
          assert m[y] != n[y];
          assert Chain(n, g, y) == [y] + Chain(n, g, x);
        } else {
          var q := n[y].parent.value;
          assert q in Subtree(n, g, c);
          ChildSubtree(n, g, x, c);
          ChildFlagAt(m, g, place, x, cs[..j], cs, q);
        }
      }
    }
  }

  /**
   * A child that its parent's layout resizes is laid out in the same walk, exactly once, even
   * when its own flag was clear before.
   */
  lemma ResizedChildLaidOut(n: Nodes, g: Ranking, place: Placement, x: BlockId, i: nat)
    requires Tree(n, g) && x in n && n[x].needLayout && n[x].hasLayout
    requires i < |n[x].children| && i < |place(n, x)|
    requires n[n[x].children[i]].hasLayout && Resized(n[n[x].children[i]].bounds, place(n, x)[i])
    ensures multiset(Validated(n, g, place, x).effects)[LayoutRan(n[x].children[i])] == 1
  {
    var cs := n[x].children;
    var rs := place(n, x);
    var c := cs[i];
    var own := OwnValidated(n, g, place, x);
    ArrangedChild(n, g, cs, rs, Paired(cs, rs), i);
    assert c != x;
    assert own.nodes[c].needLayout;
    OnlyPlacedTree(n, own.nodes, g);
    ChildSubtree(n, g, x, c);
    assert c in Subtree(n, g, c);
    BelowChildren(n, g, x);
    BelowSameLinks(n, own.nodes, g, cs);
    ChildFlagKept(own.nodes, g, place, x, cs, c);
    LayoutRanExactly(n, g, place, x, c);
  }

  // ---------------------------------------------------------------------------------------
  // Idle and repeated validation

  /** With every flag in the subtree clear, ValidateLayout changes nothing and requests nothing. */
  lemma {:induction false} LayoutIdle(n: Nodes, g: Ranking, place: Placement, x: BlockId)
    requires Tree(n, g) && x in n
    requires forall y | y in Subtree(n, g, x) :: !n[y].needLayout
    ensures Validated(n, g, place, x) == Pass(n, [])
    decreases g.bound - g.rank[x], 1, 0
  {
    assert x in Subtree(n, g, x);
    BelowChildren(n, g, x);
    ChildLayoutIdle(n, g, place, x, n[x].children);
  }

  lemma {:induction false} ChildLayoutIdle(n: Nodes, g: Ranking, place: Placement, p: BlockId, cs: seq<BlockId>)
    requires Tree(n, g) && p in n
    requires forall c | c in cs :: c in n && n[c].parent == Some(p)
    requires forall y | y in Below(n, g, cs) :: !n[y].needLayout
    ensures ChildrenValidated(n, g, place, p, cs) == Pass(n, [])
    decreases g.bound - g.rank[p], 0, |cs|
  {
    if cs != [] {
      ChildLayoutIdle(n, g, place, p, cs[..|cs| - 1]);
      LayoutIdle(n, g, place, cs[|cs| - 1]);
    }
  }

  /** A second ValidateLayout, with nothing changed in between, runs no layout and requests nothing. */
  lemma ValidateTwiceRunsOnce(n: Nodes, g: Ranking, place: Placement, again: Placement, x: BlockId)
    requires Tree(n, g) && x in n
    ensures Tree(Validated(n, g, place, x).nodes, g)
    ensures Validated(Validated(n, g, place, x).nodes, g, again, x) == Pass(Validated(n, g, place, x).nodes, [])
  {
    var m := Validated(n, g, place, x).nodes;
    ValidatedClears(n, g, place, x);
    OnlyPlacedTree(n, m, g);
    SubtreeSameLinks(n, m, g, x);
    LayoutIdle(m, g, again, x);
  }
}
