/** The variable store of set.c in the heap: records linked to both children and to the parent, hanging
    off the left link of a header record. */
module VarStore {
  import opened Strings
  import opened VarTree

  /** The record holds what the tree says, balance factor included. */
  ghost predicate Holds(i: Info)
    reads i.node
  {
    i.node.name == i.key && i.node.vec == i.vec && i.node.bal == i.bal
  }

  /** The records reachable from p are exactly the tree t: data, child links and parent links, with no
      record in two places. */
  ghost predicate Matches(t: Tree, p: Varent?, parent: Varent)
    reads Nodes(t)
  {
    match t
    case Leaf => p == null
    case Bin(i, l, r) =>
      && p == i.node && Holds(i) && i.node.parent == parent
      && i.node !in Nodes(l) && i.node !in Nodes(r) && Nodes(l) !! Nodes(r)
      && Matches(l, i.node.left, i.node) && Matches(r, i.node.right, i.node)
  }

  /** The records above a hole are exactly the path c; the link into the hole holds `hole`. */
  ghost predicate PathMatches(c: Path, hole: Varent?)
    reads PathNodes(c)
  {
    match c
    case Top(h) => h.parent == null && h.right == null && h.left == hole
    case Down(i, f, s, up) =>
      && Holds(i) && i.node.parent == Lowest(up)
      && i.node !in Nodes(s) && i.node !in PathNodes(up) && Nodes(s) !! PathNodes(up)
      && (if f then i.node.right else i.node.left) == hole
      && Matches(s, if f then i.node.left else i.node.right, i.node)
      && PathMatches(up, i.node)
  }

  lemma {:induction false} PlugMatches(c: Path, t: Tree, hole: Varent?)
    requires Placed(c, t, hole)
    ensures Stored(Plug(c, t), Header(c))
  {
    match c
    case Top(_) =>
    case Down(i, f, s, up) =>
      assert Matches(Join(i, f, t, s), i.node, Lowest(up));
      PlugMatches(up, Join(i, f, t, s), i.node);
  }

  /** The subtree t is what hangs at the end of path c, through the link n. */
  ghost predicate Placed(c: Path, t: Tree, n: Varent?)
    reads PathNodes(c), Nodes(t)
  {
    PathMatches(c, n) && Matches(t, n, Lowest(c)) && PathNodes(c) !! Nodes(t)
  }

  lemma Enter(c: Path, t: Tree, n: Varent, f: bool)
    requires t.Bin? && Placed(c, t, n)
    ensures n == t.top.node && Holds(t.top)
    ensures Placed(Below(c, t, f), Child(t, f), if f then n.right else n.left)
    ensures Plug(Below(c, t, f), Child(t, f)) == Plug(c, t)
    ensures PathNodes(Below(c, t, f)) + Nodes(Child(t, f)) == PathNodes(c) + Nodes(t)
    ensures Header(Below(c, t, f)) == Header(c) && Lowest(Below(c, t, f)) == n
  {
  }

  lemma Leave(c: Path, t: Tree, n: Varent?)
    requires c.Down? && Placed(c, t, n)
    ensures Placed(c.up, Join(c.top, c.onRight, t, c.sibling), c.top.node) && Holds(c.top)
    ensures Placed(Down(c.top, !c.onRight, t, c.up), c.sibling, if c.onRight then c.top.node.left else c.top.node.right)
  {
  }

  /** The header is a header and the tree t hangs off its left link. */
  ghost predicate Stored(t: Tree, header: Varent)
    reads {header} + Nodes(t)
  {
    header.parent == null && header.right == null && header !in Nodes(t) && Matches(t, header.left, header)
  }

  lemma Landed(c: Path, t: Tree, hole: Varent?)
    requires Placed(c, t, hole)
    requires Settled(c, t)
    ensures Stored(Plug(c, t), Header(c)) && Avl(Plug(c, t))
    ensures Nodes(Plug(c, t)) + {Header(c)} == PathNodes(c) + Nodes(t)
  {
    PlugAvl(c, t);
    PlugMatches(c, t, hole);
    PlugNodes(c, t);
  }

  // ---------------------------------------------------------------- rotations

  /** rleft: the right child takes p's place under p's parent; the caller stores the new root. */
  method RotateLeft(p: Varent, ghost parent: Varent, ghost i: Info, ghost l: Tree, ghost j: Info, ghost m: Tree, ghost r: Tree)
      returns (t: Varent)
    requires Matches(Bin(i, l, Bin(j, m, r)), p, parent)
    modifies Nodes(Bin(i, l, Bin(j, m, r)))`left, Nodes(Bin(i, l, Bin(j, m, r)))`right, Nodes(Bin(i, l, Bin(j, m, r)))`parent, Nodes(Bin(i, l, Bin(j, m, r)))`bal
    ensures Matches(Bin(j, Bin(i, l, m), r), t, parent)
  {
    assert Matches(Bin(j, m, r), p.right, p);
    assert Matches(m, j.node.left, j.node) && Matches(r, j.node.right, j.node);
    t := p.right;
    t.parent := p.parent;
    p.right := t.left;
    if t.left != null {
      t.left.parent := p;
    }
    t.left := p;
    p.parent := t;
    assert Matches(m, p.right, p);
    assert Matches(Bin(i, l, m), p, t);
  }

  /** rright: the mirror image. */
  method RotateRight(p: Varent, ghost parent: Varent, ghost i: Info, ghost l: Tree, ghost j: Info, ghost m: Tree, ghost r: Tree)
      returns (t: Varent)
    requires Matches(Bin(j, Bin(i, l, m), r), p, parent)
    modifies Nodes(Bin(j, Bin(i, l, m), r))`left, Nodes(Bin(j, Bin(i, l, m), r))`right, Nodes(Bin(j, Bin(i, l, m), r))`parent, Nodes(Bin(j, Bin(i, l, m), r))`bal
    ensures Matches(Bin(i, l, Bin(j, m, r)), t, parent)
  {
    assert Matches(Bin(i, l, m), p.left, p);
    assert Matches(l, i.node.left, i.node) && Matches(m, i.node.right, i.node);
    t := p.left;
    t.parent := p.parent;
    p.left := t.right;
    if t.right != null {
      t.right.parent := p;
    }
    t.right := p;
    p.parent := t;
    assert Matches(m, p.left, p);
    assert Matches(Bin(j, m, r), p, t);
  }

  // ---------------------------------------------------------------- the balance loop

  /** The link ff of pp holds q and its other link is what it was. */
  twostate predicate Linked(pp: Varent, ff: bool, q: Varent?)
    reads pp
  {
    if ff then pp.right == q && pp.left == old(pp.left) else pp.left == q && pp.right == old(pp.right)
  }

  /** A record hung under its parent, on the side it came from. */
  method SetLink(pp: Varent, ff: bool, q: Varent?)
    modifies pp`left, pp`right
    ensures Linked(pp, ff, q)
  {
    if ff {
      pp.right := q;
    } else {
      pp.left := q;
    }
  }

  method DoubleLeft(p: Varent, ghost parent: Varent, ghost i: Info, ghost l: Tree, ghost j: Info, ghost k: Info,
                    ghost a: Tree, ghost b: Tree, ghost n: Tree)
      returns (t: Varent)
    requires Matches(Bin(i, l, Bin(j, Bin(k, a, b), n)), p, parent)
    modifies Nodes(Bin(i, l, Bin(j, Bin(k, a, b), n)))`left, Nodes(Bin(i, l, Bin(j, Bin(k, a, b), n)))`right, Nodes(Bin(i, l, Bin(j, Bin(k, a, b), n)))`parent, Nodes(Bin(i, l, Bin(j, Bin(k, a, b), n)))`bal
    ensures Matches(Bin(k, Bin(i, l, a), Bin(j, b, n)), t, parent)
  {
    assert Matches(Bin(j, Bin(k, a, b), n), p.right, p) && Matches(l, p.left, p);
    assert allocated(Nodes(l));
    var r := RotateRight(p.right, p, k, a, j, b, n);
    p.right := r;
    assert Nodes(Bin(k, a, Bin(j, b, n))) == Nodes(Bin(j, Bin(k, a, b), n));
    assert Matches(Bin(i, l, Bin(k, a, Bin(j, b, n))), p, parent);
    t := RotateLeft(p, parent, i, l, k, a, Bin(j, b, n));
  }

  method DoubleRight(p: Varent, ghost parent: Varent, ghost i: Info, ghost j: Info, ghost m: Tree, ghost k: Info,
                     ghost a: Tree, ghost b: Tree, ghost r: Tree)
      returns (t: Varent)
    requires Matches(Bin(i, Bin(j, m, Bin(k, a, b)), r), p, parent)
    modifies Nodes(Bin(i, Bin(j, m, Bin(k, a, b)), r))`left, Nodes(Bin(i, Bin(j, m, Bin(k, a, b)), r))`right, Nodes(Bin(i, Bin(j, m, Bin(k, a, b)), r))`parent, Nodes(Bin(i, Bin(j, m, Bin(k, a, b)), r))`bal
    ensures Matches(Bin(k, Bin(j, m, a), Bin(i, b, r)), t, parent)
  {
    assert Matches(Bin(j, m, Bin(k, a, b)), p.left, p) && Matches(r, p.right, p);
    assert allocated(Nodes(r));
    var l := RotateLeft(p.left, p, j, m, k, a, b);
    p.left := l;
    assert Nodes(Bin(k, Bin(j, m, a), b)) == Nodes(Bin(j, m, Bin(k, a, b)));
    assert Matches(Bin(i, Bin(k, Bin(j, m, a), b), r), p, parent);
    t := RotateRight(p, parent, k, Bin(j, m, a), i, b, r);
  }

  /** rleft(p) and the two balance factors of a single rotation. */
  method SingleLeft(p: Varent, left: int, mid: int, ghost pp: Varent,
                    ghost i: Info, ghost l: Tree, ghost j: Info, ghost m: Tree, ghost n: Tree)
      returns (q: Varent)
    requires Matches(Bin(i, l, Bin(j, m, n)), p, pp)
    modifies Nodes(Bin(i, l, Bin(j, m, n)))`left, Nodes(Bin(i, l, Bin(j, m, n)))`right,
             Nodes(Bin(i, l, Bin(j, m, n)))`parent, Nodes(Bin(i, l, Bin(j, m, n)))`bal
    ensures Matches(Bin(j.(bal := mid), Bin(i.(bal := left), l, m), n), q, pp)
  {
    q := RotateLeft(p, pp, i, l, j, m, n);
    assert Matches(Bin(i, l, m), q.left, q) && Matches(n, q.right, q);
    q.left.bal := left;
    q.bal := mid;
    assert Matches(Bin(i.(bal := left), l, m), q.left, q);
  }

  method SingleRight(p: Varent, mid: int, right: int, ghost pp: Varent,
                     ghost i: Info, ghost l: Tree, ghost j: Info, ghost m: Tree, ghost n: Tree)
      returns (q: Varent)
    requires Matches(Bin(j, Bin(i, l, m), n), p, pp)
    modifies Nodes(Bin(j, Bin(i, l, m), n))`left, Nodes(Bin(j, Bin(i, l, m), n))`right,
             Nodes(Bin(j, Bin(i, l, m), n))`parent, Nodes(Bin(j, Bin(i, l, m), n))`bal
    ensures Matches(Bin(i.(bal := mid), l, Bin(j.(bal := right), m, n)), q, pp)
  {
    q := RotateRight(p, pp, i, l, j, m, n);
    assert Matches(Bin(j, m, n), q.right, q) && Matches(l, q.left, q);
    q.right.bal := right;
    q.bal := mid;
    assert Matches(Bin(j.(bal := right), m, n), q.right, q);
  }

  /** The three balance factors after a double rotation, from the factor of the record now on top. */
  method SetDoubleBalances(q: Varent, ghost t: Tree, ghost pp: Varent)
    requires t.Bin? && t.left.Bin? && t.right.Bin? && Matches(t, q, pp)
    modifies Nodes(t)`left, Nodes(t)`right, Nodes(t)`parent, Nodes(t)`bal
    ensures var b := t.top.bal;
            Matches(Bin(t.top.(bal := 0),
                        t.left.(top := t.left.top.(bal := if b < 1 then 0 else -1)),
                        t.right.(top := t.right.top.(bal := if b > -1 then 0 else 1))), q, pp)
  {
    q.left.bal := if q.bal < 1 then 0 else -1;
    q.right.bal := if q.bal > -1 then 0 else 1;
    assert Matches(t.left.(top := t.left.top.(bal := if t.top.bal < 1 then 0 else -1)), q.left, q);
    assert Matches(t.right.(top := t.right.top.(bal := if t.top.bal > -1 then 0 else 1)), q.right, q);
    q.bal := 0;
  }

  /** The half of the loop body for growth on the left or loss on the right, and its mirror image. */
  method TipRight(p: Varent, pp: Varent, ff: bool, ghost t: Tree) returns (q: Varent)
    requires t.Bin? && Matches(t, p, pp) && pp !in Nodes(t)
    requires (if ff then pp.right else pp.left) == p
    requires -1 <= t.top.bal <= 1
    requires t.top.bal == 1 ==> t.right.Bin? && -1 <= t.right.top.bal <= 1 && (t.right.top.bal == -1 ==> t.right.left.Bin?)
    modifies Nodes(t)`left, Nodes(t)`right, Nodes(t)`parent, Nodes(t)`bal, pp`left, pp`right
    ensures Matches(RightHeavy(t), q, pp)
    ensures Linked(pp, ff, q)
  {
    q := p;
    assert Matches(t.left, p.left, p) && Matches(t.right, p.right, p);
    if p.bal == -1 {
      p.bal := 0;
    } else if p.bal == 0 {
      p.bal := 1;
    } else {
      q := RaiseRight(p, pp, t);
      assert allocated(Nodes(RightHeavy(t)));
      SetLink(pp, ff, q);
    }
  }

  /** The rotations: the record on the right comes up, or the one between. */
  method RaiseRight(p: Varent, ghost pp: Varent, ghost t: Tree) returns (q: Varent)
    requires t.Bin? && Matches(t, p, pp) && t.top.bal == 1
    requires t.right.Bin? && -1 <= t.right.top.bal <= 1 && (t.right.top.bal == -1 ==> t.right.left.Bin?)
    modifies Nodes(t)`left, Nodes(t)`right, Nodes(t)`parent, Nodes(t)`bal
    ensures Matches(RightHeavy(t), q, pp)
  {
    ghost var Bin(i, l, Bin(j, m, n)) := t;
    if p.right.bal == 1 {
      q := SingleLeft(p, 0, 0, pp, i, l, j, m, n);
    } else if p.right.bal == 0 {
      q := SingleLeft(p, 1, -1, pp, i, l, j, m, n);
    } else {
      ghost var Bin(k, a, b) := m;
      q := DoubleLeft(p, pp, i, l, j, k, a, b, n);
      SetDoubleBalances(q, Bin(k, Bin(i, l, a), Bin(j, b, n)), pp);
    }
  }

  /** The other half: the mirror image. */
  method TipLeft(p: Varent, pp: Varent, ff: bool, ghost t: Tree) returns (q: Varent)
    requires t.Bin? && Matches(t, p, pp) && pp !in Nodes(t)
    requires (if ff then pp.right else pp.left) == p
    requires -1 <= t.top.bal <= 1
    requires t.top.bal == -1 ==> t.left.Bin? && -1 <= t.left.top.bal <= 1 && (t.left.top.bal == 1 ==> t.left.right.Bin?)
    modifies Nodes(t)`left, Nodes(t)`right, Nodes(t)`parent, Nodes(t)`bal, pp`left, pp`right
    ensures Matches(LeftHeavy(t), q, pp)
    ensures Linked(pp, ff, q)
  {
    q := p;
    assert Matches(t.left, p.left, p) && Matches(t.right, p.right, p);
    if p.bal == 1 {
      p.bal := 0;
    } else if p.bal == 0 {
      p.bal := -1;
    } else {
      q := RaiseLeft(p, pp, t);
      assert allocated(Nodes(LeftHeavy(t)));
      SetLink(pp, ff, q);
    }
  }

  method RaiseLeft(p: Varent, ghost pp: Varent, ghost t: Tree) returns (q: Varent)
    requires t.Bin? && Matches(t, p, pp) && t.top.bal == -1
    requires t.left.Bin? && -1 <= t.left.top.bal <= 1 && (t.left.top.bal == 1 ==> t.left.right.Bin?)
    modifies Nodes(t)`left, Nodes(t)`right, Nodes(t)`parent, Nodes(t)`bal
    ensures Matches(LeftHeavy(t), q, pp)
  {
    ghost var Bin(i, Bin(j, m, n), r) := t;
    if p.left.bal == -1 {
      q := SingleRight(p, 0, 0, pp, j, m, i, n, r);
    } else if p.left.bal == 0 {
      q := SingleRight(p, 1, -1, pp, j, m, i, n, r);
    } else {
      ghost var Bin(k, a, b) := n;
      q := DoubleRight(p, pp, i, j, m, k, a, b, r);
      SetDoubleBalances(q, Bin(k, Bin(j, m, a), Bin(i, b, r)), pp);
    }
  }

  ghost predicate OnRight(c: Path) {
    c.Down? && c.onRight
  }

  /** On which side of pp the record p hangs. */
  lemma SideIsRight(c: Path, p: Varent)
    requires PathMatches(c, p) && p !in PathNodes(c)
    ensures Lowest(c).right == p <==> OnRight(c)
    ensures (if OnRight(c) then Lowest(c).right else Lowest(c).left) == p
  {
    if c.Down? {
      assert Matches(c.sibling, if c.onRight then c.top.node.left else c.top.node.right, c.top.node);
    }
  }

  /** Either half, with the path above: it stays the path it was, now ending in a link to q. */
  method Tip(p: Varent, pp: Varent, ff: bool, rightHeavy: bool, ghost t: Tree, ghost up: Path) returns (q: Varent)
    requires t.Bin? && Matches(t, p, pp) && PathNodes(up) !! Nodes(t)
    requires pp == Lowest(up) && PathMatches(up, p) && ff == OnRight(up)
    requires -1 <= t.top.bal <= 1
    requires rightHeavy && t.top.bal == 1 ==>
               t.right.Bin? && -1 <= t.right.top.bal <= 1 && (t.right.top.bal == -1 ==> t.right.left.Bin?)
    requires !rightHeavy && t.top.bal == -1 ==>
               t.left.Bin? && -1 <= t.left.top.bal <= 1 && (t.left.top.bal == 1 ==> t.left.right.Bin?)
    modifies Nodes(t)`left, Nodes(t)`right, Nodes(t)`parent, Nodes(t)`bal, pp`left, pp`right
    ensures Matches(if rightHeavy then RightHeavy(t) else LeftHeavy(t), q, pp)
    ensures PathMatches(up, q)
  {
    assert up.Down? ==> allocated(PathNodes(up.up)) && allocated(Nodes(up.sibling));
    if rightHeavy {
      q := TipRight(p, pp, ff, t);
    } else {
      q := TipLeft(p, pp, ff, t);
    }
  }

  /** One round of the loop at the lowest record of the path. */
  method BalanceOnce(p: Varent, pp: Varent, f: bool, d: bool, ghost c: Path, ghost sub: Tree, ghost hole: Varent?,
                     ghost h: nat)
      returns (q: Varent, ff: bool, ghost t: Tree)
    requires c.Down? && p == c.top.node && pp == Lowest(c.up) && f == c.onRight
    requires PathMatches(c, hole) && Matches(sub, hole, p) && PathNodes(c) !! Nodes(sub)
    requires Owing(c, sub, h, d)
    modifies (PathNodes(c) + Nodes(sub))`left, (PathNodes(c) + Nodes(sub))`right, (PathNodes(c) + Nodes(sub))`parent, (PathNodes(c) + Nodes(sub))`bal
    ensures RoundShape(c.top, f, sub, c.sibling, d) && t == Round(c.top, f, sub, c.sibling, d) && t.Bin?
    ensures Matches(t, q, pp) && PathMatches(c.up, q) && PathNodes(c.up) !! Nodes(t)
    ensures ff == OnRight(c.up) && q.bal == t.top.bal
  {
    ghost var joined := Join(c.top, f, sub, c.sibling);
    RoundRepairs(c.top, f, sub, c.sibling, h, d);
    assert Matches(joined, p, pp);
    SideIsRight(c.up, p);
    ff := pp.right == p;
    q := Tip(p, pp, ff, f != d, joined, c.up);
    t := Round(c.top, f, sub, c.sibling, d);
  }

  /** balance(p, f, d): walk up from p, whose subtree on side f (the tree sub, linked at `hole`) became one
      level taller (insertion) or shorter (deletion) than the h the factors above still count with. However
      early the loop stops, the whole tree under the header is balanced and holds the same variables. */
  method Balance(p0: Varent, f0: bool, d: bool, ghost c0: Path, ghost sub0: Tree, ghost hole0: Varent?, ghost h0: nat)
      returns (ghost t: Tree)
    requires p0 == Lowest(c0) && f0 == OnRight(c0)
    requires PathMatches(c0, hole0) && Matches(sub0, hole0, p0) && PathNodes(c0) !! Nodes(sub0)
    requires Owing(c0, sub0, h0, d)
    modifies (PathNodes(c0) + Nodes(sub0))`left, (PathNodes(c0) + Nodes(sub0))`right, (PathNodes(c0) + Nodes(sub0))`parent, (PathNodes(c0) + Nodes(sub0))`bal
    ensures Stored(t, Header(c0)) && Avl(t)
    ensures Entries(t) == Entries(Plug(c0, sub0))
    ensures Nodes(t) + {Header(c0)} == PathNodes(c0) + Nodes(sub0)
  {
    var p, f := p0, f0;
    ghost var c, sub, hole := c0, sub0, hole0;
    ghost var h: nat := h0;
    while p.parent != null
      invariant p == Lowest(c) && f == OnRight(c) && Header(c) == Header(c0)
      invariant PathMatches(c, hole) && Matches(sub, hole, p) && PathNodes(c) !! Nodes(sub)
      invariant Owing(c, sub, h, d)
      invariant Entries(Plug(c, sub)) == Entries(Plug(c0, sub0))
      invariant PathNodes(c) + Nodes(sub) == PathNodes(c0) + Nodes(sub0)
      decreases c
    {
      var pp := p.parent;
      RoundOnPath(c, sub, h, d);
      RoundKeeps(c, sub, h, d);
      ghost var was := HeightAbove(c, h);
      var q, ff;
      q, ff, sub := BalanceOnce(p, pp, f, d, c, sub, hole, h);
      c, hole, h := c.up, q, was;
      if (q.bal == 0) != d {
        break;
      }
      p, f := pp, ff;
    }
    t := Plug(c, sub);
    Landed(c, sub, hole);
  }
}
