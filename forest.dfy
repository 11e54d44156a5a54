/**
 * The mutable side of Block.go.
 *
 * Every block is a node of one `Forest`: a Go `*Block` is modelled as a `BlockId` into the
 * forest's `nodes` map, so that the parent/child relation, which spans many blocks, is an
 * invariant of a single object. Requests that reach a window and runs of a layout strategy are
 * appended to the forest's `log`; painting returns the paint callbacks it makes.
 */
module BlockForest {
  import opened Wrappers
  import opened Geometry
  import opened BlockTree
  import opened BlockLayout

  class Forest {
    var nodes: Nodes
    var nextId: nat
    var log: seq<Effect>
    /** The ranking that witnesses the tree shape; it exists only for the proofs. */
    ghost var order: Ranking

    ghost predicate Valid()
      reads this`nodes, this`nextId, this`order
    {
      Tree(nodes, order) && Issued(nodes.Keys, nextId)
    }

    constructor ()
      ensures Valid() && nodes == map[] && log == [] && nextId == 1
    {
      nodes := map[];
      nextId := 1;
      log := [];
      order := Ranking(map[], 0);
    }

    /** NewBlock/Init: a fresh block with the next identifier. */
    method NewBlock() returns (b: BlockId)
      requires Valid()
      modifies this
      ensures Valid() && log == old(log)
      ensures b == old(nextId) && nextId == old(nextId) + 1 && b !in old(nodes)
      ensures nodes == old(nodes)[b := NewNode]
    {
      b := nextId;
      nextId := nextId + 1;
      nodes := nodes[b := NewNode];
      order := Ranking(order.rank[b := 0], order.bound + 1);
    }

    /** Links a block to its window; done by window code outside Block.go. */
    method SetWindow(b: BlockId, w: Option<WindowId>)
      requires Valid() && b in nodes
      modifies this`nodes
      ensures Valid() && nodes == old(nodes)[b := old(nodes[b]).(window := w)]
    {
      nodes := nodes[b := nodes[b].(window := w)];
      SameLinksTree(old(nodes), nodes, order);
    }

    /** Installs or removes a layout strategy (Block embeds Layout as a public field). */
    method SetHasLayout(b: BlockId, has: bool)
      requires Valid() && b in nodes
      modifies this`nodes
      ensures Valid() && nodes == old(nodes)[b := old(nodes[b]).(hasLayout := has)]
    {
      nodes := nodes[b := nodes[b].(hasLayout := has)];
      SameLinksTree(old(nodes), nodes, order);
    }

    /** IndexOfChild: the position of `child` in `b`'s children, or -1 exactly when it is absent. */
    method IndexOfChild(b: BlockId, child: BlockId) returns (i: int)
      requires b in nodes
      ensures -1 <= i < |nodes[b].children|
      ensures i == -1 <==> child !in nodes[b].children
      ensures 0 <= i ==> nodes[b].children[i] == child && child !in nodes[b].children[..i]
    {
      var cs := nodes[b].children;
      var k := 0;
      while k < |cs|
        invariant 0 <= k <= |cs|
        invariant child !in cs[..k]
      {
        if cs[k] == child {
          return k;
        }
        assert cs[..k + 1] == cs[..k] + [cs[k]];
        k := k + 1;
      }
      assert cs[..k] == cs;
      return -1;
    }

    /** RemoveFromParent: deletes `b` from its parent's children, marks the parent, clears the link. */
    method RemoveFromParent(b: BlockId)
      requires Valid() && b in nodes
      modifies this`nodes
      ensures Valid()
      ensures nodes == Detach(old(nodes), b)
    {
      if nodes[b].parent.Some? {
        var p := nodes[b].parent.value;
        var i := IndexOfChild(p, b);
        var cs := nodes[p].children;
        DetachBySlice(nodes, order, b, i);
        DetachKeepsTree(nodes, order, b);
        nodes := nodes[p := nodes[p].(children := cs[..i] + cs[i + 1..], needLayout := true)]
                      [b := nodes[b].(parent := None)];
      }
    }

    /** AddChild: detaches `child` from any previous parent and appends it to `b`'s children. */
    method AddChild(b: BlockId, child: BlockId)
      requires Valid() && b in nodes && child in nodes
      requires child !in Chain(nodes, order, b)
      modifies this`nodes, this`order
      ensures Valid()
      ensures nodes == Attach(Detach(old(nodes), child), b, child)
    {
      DetachKeepsChain(nodes, order, b, child);
      RemoveFromParent(child);
      AppendChild(b, child);
    }

    /** The second half of AddChild: a parentless block goes last among `b`'s children. */
    method AppendChild(b: BlockId, child: BlockId)
      requires Valid() && b in nodes && child in nodes && nodes[child].parent.None?
      requires child !in Chain(nodes, order, b)
      modifies this`nodes, this`order
      ensures Valid()
      ensures nodes == Attach(old(nodes), b, child)
    {
      AttachKeepsTree(nodes, order, b, child);
      nodes := Attach(nodes, b, child);
      order := Reranked(old(nodes), order, b, child);
    }

    /** Repaint: RepaintBounds of the whole local bounds. */
    method Repaint(b: BlockId)
      requires Valid() && b in nodes
      modifies this`log
      ensures log == old(log) + Repainted(nodes, order, b, ZeroLocation(nodes[b].bounds))
    {
      RepaintBounds(b, ZeroLocation(nodes[b].bounds));
    }

    /** RepaintBounds: clip to self, drop if empty, else pass up, or hand to the window at the root. */
    method RepaintBounds(b: BlockId, r: Rect)
      requires Valid() && b in nodes
      modifies this`log
      ensures log == old(log) + Repainted(nodes, order, b, r)
      decreases order.rank[b]
    {
      var q := Intersect(r, ZeroLocation(nodes[b].bounds));
      if !IsEmpty(q) {
        if nodes[b].parent.Some? {
          RepaintBounds(nodes[b].parent.value, Translate(q, nodes[b].bounds.Origin()));
        } else if nodes[b].window.Some? {
          log := log + [WindowRepaint(nodes[b].window.value, q)];
        }
      }
    }

    /** SetLocation: on a change, repaints the old footprint, moves, repaints the new one. */
    method SetLocation(b: BlockId, pt: Point)
      requires Valid() && b in nodes
      modifies this`nodes, this`log
      ensures Valid()
      ensures var o := old(nodes[b].bounds);
        if o.Origin() == pt then nodes == old(nodes) && log == old(log)
        else
          && nodes == old(nodes)[b := old(nodes[b]).(bounds := o.(x := pt.x, y := pt.y))]
          && log == old(log) + Repainted(old(nodes), order, b, ZeroLocation(o))
                             + Repainted(nodes, order, b, ZeroLocation(o))
    {
      if nodes[b].bounds.Origin() != pt {
        Repaint(b);
        nodes := nodes[b := nodes[b].(bounds := nodes[b].bounds.(x := pt.x, y := pt.y))];
        SameLinksTree(old(nodes), nodes, order);
        Repaint(b);
      }
    }

    /** SetSize: on a change, repaints the old footprint, resizes, marks NeedLayout, repaints. */
    method SetSize(b: BlockId, size: Size)
      requires Valid() && b in nodes
      modifies this`nodes, this`log
      ensures Valid()
      ensures var o := old(nodes[b].bounds);
        if o.Extent() == size then nodes == old(nodes) && log == old(log)
        else
          var r := o.(width := size.width, height := size.height);
          && nodes == old(nodes)[b := old(nodes[b]).(bounds := r, needLayout := true)]
          && log == old(log) + Repainted(old(nodes), order, b, ZeroLocation(o))
                             + Repainted(nodes, order, b, ZeroLocation(r))
    {
      if nodes[b].bounds.Extent() != size {
        Repaint(b);
        nodes := nodes[b := nodes[b].(bounds := nodes[b].bounds.(width := size.width, height := size.height),
                                      needLayout := true)];
        SameLinksTree(old(nodes), nodes, order);
        Repaint(b);
      }
    }

    /**
     * SetBounds: with equal bounds nothing happens; otherwise the old footprint and the new one
     * are repainted, and NeedLayout is set only when the size changed (`BoundsSet`).
     */
    method SetBounds(b: BlockId, r: Rect)
      requires Valid() && b in nodes
      modifies this`nodes, this`log
      ensures Valid()
      ensures nodes == BoundsSet(old(nodes), order, b, r).nodes
      ensures log == old(log) + BoundsSet(old(nodes), order, b, r).effects
    {
      var o := nodes[b].bounds;
      var moved := o.x != r.x || o.y != r.y;
      var resized := o.width != r.width || o.height != r.height;
      ghost var n0, g := nodes, order;
      assert Tree(n0, g);
      ghost var p := BoundsSet(n0, g, b, r);
      if moved || resized {
        ghost var before := Repainted(n0, g, b, ZeroLocation(o));
        Repaint(b);
        nodes := nodes[b := nodes[b].(bounds := r, needLayout := nodes[b].needLayout || resized)];
        assert nodes == p.nodes;
        OnlyPlacedTree(n0, p.nodes, g);
        Repaint(b);
        AppendAssoc(old(log), before, Repainted(p.nodes, g, b, ZeroLocation(r)));
      } else {
        assert o == r;
      }
    }

    /**
     * The SetBounds calls a layout strategy makes on `b`'s children: the `i`-th child gets the
     * `i`-th rect, for as many children as there are rects.
     */
    method Arrange(b: BlockId, rs: seq<Rect>)
      requires Valid() && b in nodes
      modifies this`nodes, this`log
      ensures Valid()
      ensures nodes == Arranged(old(nodes), order, old(nodes)[b].children, rs, Paired(old(nodes)[b].children, rs)).nodes
      ensures log == old(log) + Arranged(old(nodes), order, old(nodes)[b].children, rs, Paired(old(nodes)[b].children, rs)).effects
    {
      ghost var n0, g := nodes, order;
      assert Tree(n0, g);
      var cs := nodes[b].children;
      assert forall c | c in cs :: c in n0;
      var k := Paired(cs, rs);
      var i := 0;
      ghost var done := Pass(n0, []);
      while i < k
        invariant 0 <= i <= k
        invariant Valid() && order == g
        invariant done == Arranged(n0, g, cs, rs, i)
        invariant nodes == done.nodes && log == old(log) + done.effects
      {
        done := PlaceNext(n0, g, old(log), cs, rs, i, done);
        i := i + 1;
      }
    }

    /** One SetBounds call of Arrange: the `i`-th child gets the `i`-th rect. */
    method PlaceNext(ghost n0: Nodes, ghost g: Ranking, ghost l0: seq<Effect>, cs: seq<BlockId>, rs: seq<Rect>, i: nat,
                     ghost before: Pass) returns (ghost after: Pass)
      requires Valid() && order == g && Ranked(n0, g) && i < |cs| && i < |rs| && forall c | c in cs :: c in n0
      requires before == Arranged(n0, g, cs, rs, i)
      requires nodes == before.nodes && log == l0 + before.effects
      modifies this`nodes, this`log
      ensures Valid() && after == Arranged(n0, g, cs, rs, i + 1)
      ensures nodes == after.nodes && log == l0 + after.effects
    {
      ArrangedNext(n0, g, cs, rs, i, before);
      SetBounds(cs[i], rs[i]);
      after := Pass(nodes, before.effects + BoundsSet(before.nodes, g, cs[i], rs[i]).effects);
      AppendAssoc(l0, before.effects, BoundsSet(before.nodes, g, cs[i], rs[i]).effects);
    }

    /** ValidateLayout: runs the layout of every block of the subtree that needs it, top-down, and clears the flags. */
    method ValidateLayout(b: BlockId, place: Placement)
      requires Valid() && b in nodes
      modifies this`nodes, this`log
      ensures Valid()
      ensures nodes == Validated(old(nodes), order, place, b).nodes
      ensures log == old(log) + Validated(old(nodes), order, place, b).effects
      decreases order.bound - order.rank[b], 2
    {
      ghost var n0 := nodes;
      ghost var own := OwnValidated(n0, order, place, b);
      ValidateOwn(b, place);
      assert nodes[b].children == n0[b].children;
      ValidateChildren(b, place);
      AppendAssoc(old(log), own.effects, ChildrenValidated(own.nodes, order, place, b, n0[b].children).effects);
    }

    /** The first half of ValidateLayout: `b`'s own layout runs when it is needed, and the flag is cleared. */
    method ValidateOwn(b: BlockId, place: Placement)
      requires Valid() && b in nodes
      modifies this`nodes, this`log
      ensures Valid()
      ensures nodes == OwnValidated(old(nodes), order, place, b).nodes
      ensures log == old(log) + OwnValidated(old(nodes), order, place, b).effects
    {
      ghost var n0, g := nodes, order;
      assert Tree(n0, g);
      ghost var p := OwnValidated(n0, g, place, b);
      if nodes[b].needLayout {
        if nodes[b].hasLayout {
          RunLayout(b, place);
        }
        nodes := nodes[b := nodes[b].(needLayout := false)];
        assert nodes == p.nodes;
        OnlyPlacedTree(n0, p.nodes, g);
      }
    }

    /** A run of `b`'s layout strategy, which places the children, followed by a repaint of `b`. */
    method RunLayout(b: BlockId, place: Placement)
      requires Valid() && b in nodes
      modifies this`nodes, this`log
      ensures Valid()
      ensures nodes == LayoutRun(old(nodes), order, place, b).nodes
      ensures log == old(log) + LayoutRun(old(nodes), order, place, b).effects
    {
      ghost var n0, g := nodes, order;
      assert forall c | c in n0[b].children :: c in n0;
      log := log + [LayoutRan(b)];
      var rs := place(nodes, b);
      ghost var a := Arranged(n0, g, n0[b].children, rs, Paired(n0[b].children, rs));
      Arrange(b, rs);
      Repaint(b);
      ghost var rest := Repainted(a.nodes, g, b, ZeroLocation(a.nodes[b].bounds));
      AppendAssoc(old(log), [LayoutRan(b)], a.effects + rest);
      AppendAssoc(old(log) + [LayoutRan(b)], a.effects, rest);
    }

    /** The loop of ValidateLayout: validates every child's subtree in order. */
    method ValidateChildren(b: BlockId, place: Placement)
      requires Valid() && b in nodes
      modifies this`nodes, this`log
      ensures Valid()
      ensures nodes == ChildrenValidated(old(nodes), order, place, b, old(nodes)[b].children).nodes
      ensures log == old(log) + ChildrenValidated(old(nodes), order, place, b, old(nodes)[b].children).effects
      decreases order.bound - order.rank[b], 1
    {
      ghost var n0, g := nodes, order;
      assert Tree(n0, g);
      var cs := nodes[b].children;
      assert forall c | c in cs :: c in n0 && n0[c].parent == Some(b);
      var i := 0;
      ghost var done := Pass(n0, []);
      assert cs[..0] == [];
      while i < |cs|
        invariant 0 <= i <= |cs|
        invariant Valid() && order == g
        invariant done == ChildrenValidated(n0, g, place, b, cs[..i])
        invariant nodes == done.nodes && log == old(log) + done.effects
      {
        done := ValidateNext(n0, g, place, old(log), b, cs, i, done);
        i := i + 1;
      }
      assert cs[..i] == cs;
    }

    /** One round of ValidateChildren: the `i`-th child's subtree is validated. */
    method ValidateNext(ghost n0: Nodes, ghost g: Ranking, place: Placement, ghost l0: seq<Effect>,
                        b: BlockId, cs: seq<BlockId>, i: nat, ghost before: Pass) returns (ghost after: Pass)
      requires Valid() && order == g && Tree(n0, g) && b in n0 && i < |cs|
      requires forall c | c in cs :: c in n0 && n0[c].parent == Some(b)
      requires before == ChildrenValidated(n0, g, place, b, cs[..i])
      requires nodes == before.nodes && log == l0 + before.effects
      modifies this`nodes, this`log
      ensures Valid() && after == ChildrenValidated(n0, g, place, b, cs[..i + 1])
      ensures nodes == after.nodes && log == l0 + after.effects
      decreases order.bound - order.rank[b], 0
    {
      var c := cs[i];
      ChildrenValidatedNext(n0, g, place, b, cs, i, before);
      ValidateLayout(c, place);
      after := Pass(nodes, before.effects + Validated(before.nodes, g, place, c).effects);
      AppendAssoc(l0, before.effects, Validated(before.nodes, g, place, c).effects);
    }

    /** Block.paint: paints the clipped area into itself, then into every child it overlaps;
        `es` lists the paint callbacks in the order they run. */
    method Paint(b: BlockId, dirty: Rect) returns (es: seq<Effect>)
      requires Valid() && b in nodes
      ensures es == PaintEffects(nodes, order, b, dirty)
      decreases order.bound - order.rank[b], 1
    {
      var d := Intersect(dirty, ZeroLocation(nodes[b].bounds));
      es := [];
      if !IsEmpty(d) {
        var rest := PaintChildren(b, d);
        es := [Painted(b, d)] + rest;
      }
    }

    /** The loop of Block.paint: every child whose bounds meet the clipped area is painted, in order. */
    method PaintChildren(b: BlockId, d: Rect) returns (es: seq<Effect>)
      requires Valid() && b in nodes
      ensures es == ChildPaintEffects(nodes, order, b, nodes[b].children, d)
      decreases order.bound - order.rank[b], 0
    {
      var cs := nodes[b].children;
      assert forall c | c in cs :: c in nodes && nodes[c].parent == Some(b);
      es := [];
      var i := 0;
      while i < |cs|
        invariant 0 <= i <= |cs|
        invariant es == ChildPaintEffects(nodes, order, b, cs[..i], d)
      {
        var c := cs[i];
        var a := Intersect(d, nodes[c].bounds);
        ChildPaintStep(nodes, order, b, cs, i, d);
        if !IsEmpty(a) {
          var more := PaintChild(b, c, a);
          es := es + more;
        }
        i := i + 1;
      }
      assert cs[..i] == cs;
    }

    /** Block.paintChild: moves the dirty area into the child's space and paints the child. */
    method PaintChild(b: BlockId, child: BlockId, dirty: Rect) returns (es: seq<Effect>)
      requires Valid() && b in nodes && child in nodes && nodes[child].parent == Some(b)
      ensures es == PaintEffects(nodes, order, child,
                                 Translate(dirty, Sub(Zero, nodes[child].bounds.Origin())))
      decreases order.bound - order.rank[child], 2
    {
      var o := nodes[child].bounds.Origin();
      es := Paint(child, Rect(dirty.x - o.x, dirty.y - o.y, dirty.width, dirty.height));
    }

    /** BlockAt: the block hit by a point in `b`'s local space. */
    method BlockAt(b: BlockId, pt: Point) returns (r: BlockId)
      requires Valid() && b in nodes
      ensures r == HitTest(nodes, order, b, pt)
      ensures r in Subtree(nodes, order, b)
      decreases order.bound - order.rank[b]
    {
      var cs := nodes[b].children;
      var i := 0;
      while i < |cs|
        invariant 0 <= i <= |cs|
        invariant forall j | 0 <= j < i :: !Contains(nodes[cs[j]].bounds, pt)
      {
        var c := cs[i];
        if Contains(nodes[c].bounds, pt) {
          FirstHitAt(nodes, cs, pt, i);
          r := BlockAt(c, Sub(pt, nodes[c].bounds.Origin()));
          return;
        }
        i := i + 1;
      }
      FirstHitAt(nodes, cs, pt, i);
      r := b;
    }

    /** ToWindow: adds the origins of `b` and of every ancestor. */
    method ToWindow(b: BlockId, pt: Point) returns (r: Point)
      requires Valid() && b in nodes
      ensures r == Add(pt, Offset(nodes, order, b))
    {
      r := Add(pt, nodes[b].bounds.Origin());
      var parent := nodes[b].parent;
      while parent.Some?
        invariant parent.Some? ==> parent.value in nodes
        invariant Add(r, OffsetFrom(nodes, order, parent)) == Add(pt, Offset(nodes, order, b))
        decreases if parent.Some? then order.rank[parent.value] + 1 else 0
      {
        r := Add(r, nodes[parent.value].bounds.Origin());
        parent := nodes[parent.value].parent;
      }
    }

    /** Window: the block's own window, or else its parent's, asked recursively. */
    method Window(b: BlockId) returns (w: Option<WindowId>)
      requires Valid() && b in nodes
      ensures w == WindowOf(nodes, order, b)
      decreases order.rank[b]
    {
      if nodes[b].window.Some? {
        w := nodes[b].window;
      } else if nodes[b].parent.Some? {
        w := Window(nodes[b].parent.value);
      } else {
        w := None;
      }
    }

    /** FromWindow: subtracts the origins of `b` and of every ancestor. */
    method FromWindow(b: BlockId, pt: Point) returns (r: Point)
      requires Valid() && b in nodes
      ensures r == Sub(pt, Offset(nodes, order, b))
    {
      r := Sub(pt, nodes[b].bounds.Origin());
      var parent := nodes[b].parent;
      while parent.Some?
        invariant parent.Some? ==> parent.value in nodes
        invariant Sub(r, OffsetFrom(nodes, order, parent)) == Sub(pt, Offset(nodes, order, b))
        decreases if parent.Some? then order.rank[parent.value] + 1 else 0
      {
        r := Sub(r, nodes[parent.value].bounds.Origin());
        parent := nodes[parent.value].parent;
      }
    }
  }
}
