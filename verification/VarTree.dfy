/** The shape of the variable store as a value: balanced trees of variable records, the path from a
    record up to the header, and what the rebalancing step does to them. */
module VarTree {
  import opened Common
  import opened Strings

  type Vec = seq<Word>

  /** A variable record (struct varent): v_link[0..2] are left, right and parent. */
  class Varent {
    var vec: Vec
    var name: Word
    var left: Varent?
    var right: Varent?
    var parent: Varent?
    var bal: int

    constructor (name: Word, vec: Vec, parent: Varent?)
      ensures this.name == name && this.vec == vec && this.parent == parent
      ensures left == null && right == null && bal == 0
    {
      this.name, this.vec, this.parent := name, vec, parent;
      left, right, bal := null, null, 0;
    }
  }

  datatype Info = Info(node: Varent, key: Word, vec: Vec, bal: int)

  datatype Entry = Entry(key: Word, vec: Vec)

  datatype Tree = Leaf | Bin(top: Info, left: Tree, right: Tree)

  /** A path from a hole up to the header: each step says on which side of the record the hole hangs
      and what hangs on the other side. */
  datatype Path = Top(header: Varent) | Down(top: Info, onRight: bool, sibling: Tree, up: Path)

  ghost function Nodes(t: Tree): set<Varent> {
    match t
    case Leaf => {}
    case Bin(i, l, r) => {i.node} + Nodes(l) + Nodes(r)
  }

  ghost function PathNodes(c: Path): set<Varent> {
    match c
    case Top(h) => {h}
    case Down(i, _, s, up) => {i.node} + Nodes(s) + PathNodes(up)
  }

  ghost function Lowest(c: Path): (n: Varent)
    ensures n in PathNodes(c)
  {
    match c
    case Top(h) => h
    case Down(i, _, _, _) => i.node
  }

  ghost function Header(c: Path): (n: Varent)
    ensures n in PathNodes(c)
  {
    match c
    case Top(h) => h
    case Down(_, _, _, up) => Header(up)
  }

  ghost function Join(i: Info, onRight: bool, sub: Tree, sibling: Tree): Tree {
    if onRight then Bin(i, sibling, sub) else Bin(i, sub, sibling)
  }

  ghost function Plug(c: Path, t: Tree): Tree {
    match c
    case Top(_) => t
    case Down(i, f, s, up) => Plug(up, Join(i, f, t, s))
  }

  /** Stepping from a record into its child on side f. */
  ghost function Child(t: Tree, f: bool): Tree
    requires t.Bin?
  {
    if f then t.right else t.left
  }

  ghost function Below(c: Path, t: Tree, f: bool): Path
    requires t.Bin?
  {
    Down(t.top, f, Child(t, !f), c)
  }

  function Max(a: int, b: int): int {
    if a < b then b else a
  }

  ghost function Height(t: Tree): nat {
    match t
    case Leaf => 0
    case Bin(_, l, r) => 1 + Max(Height(l), Height(r))
  }

  ghost function Size(t: Tree): nat {
    match t
    case Leaf => 0
    case Bin(_, l, r) => 1 + Size(l) + Size(r)
  }

  /** Every balance factor is right height minus left height, and is -1, 0 or 1. */
  ghost predicate Avl(t: Tree) {
    t.Bin? ==>
      && Avl(t.left) && Avl(t.right)
      && t.top.bal == Height(t.right) - Height(t.left)
      && -1 <= t.top.bal <= 1
  }

  /** The records on a path are right for a hole of height h. */
  ghost predicate PathAvl(c: Path, h: nat) {
    match c
    case Top(_) => true
    case Down(i, f, s, up) =>
      && Avl(s)
      && i.bal == (if f then h - Height(s) else Height(s) - h)
      && -1 <= i.bal <= 1
      && PathAvl(up, 1 + Max(h, Height(s)))
  }

  /** The stored variables in tree order. */
  ghost function Entries(t: Tree): seq<Entry> {
    match t
    case Leaf => []
    case Bin(i, l, r) => Entries(l) + [Entry(i.key, i.vec)] + Entries(r)
  }

  ghost function Before(c: Path): seq<Entry> {
    match c
    case Top(_) => []
    case Down(i, f, s, up) => if f then Before(up) + Entries(s) + [Entry(i.key, i.vec)] else Before(up)
  }

  ghost function After(c: Path): seq<Entry> {
    match c
    case Top(_) => []
    case Down(i, f, s, up) => if f then After(up) else [Entry(i.key, i.vec)] + Entries(s) + After(up)
  }

  ghost predicate Sorted(s: seq<Entry>) {
    forall i, j :: 0 <= i < j < |s| ==> Less(s[i].key, s[j].key)
  }

  /** The variable-to-value map a list of entries stands for. */
  ghost function Contents(s: seq<Entry>): map<Word, Vec> {
    if s == [] then map[] else Contents(s[..|s| - 1])[s[|s| - 1].key := s[|s| - 1].vec]
  }

  // ---------------------------------------------------------------- paths

  lemma {:induction false} PlugEntries(c: Path, t: Tree)
    ensures Entries(Plug(c, t)) == Before(c) + Entries(t) + After(c)
  {
    match c
    case Top(_) =>
    case Down(i, f, s, up) =>
      PlugEntries(up, Join(i, f, t, s));
  }

  lemma PlugSame(c: Path, t: Tree, u: Tree)
    requires Entries(t) == Entries(u)
    ensures Entries(Plug(c, t)) == Entries(Plug(c, u))
  {
    PlugEntries(c, t);
    PlugEntries(c, u);
  }

  lemma {:induction false} PlugNodes(c: Path, t: Tree)
    ensures Nodes(Plug(c, t)) + {Header(c)} == PathNodes(c) + Nodes(t)
    ensures Nodes(t) <= Nodes(Plug(c, t))
  {
    match c
    case Top(_) =>
    case Down(i, f, s, up) =>
      PlugNodes(up, Join(i, f, t, s));
  }

  /** A tree is balanced exactly when the subtree is and the path above it is right for its height. */
  lemma {:induction false} PlugAvl(c: Path, t: Tree)
    ensures Avl(Plug(c, t)) <==> Avl(t) && PathAvl(c, Height(t))
  {
    match c
    case Top(_) =>
    case Down(i, f, s, up) =>
      PlugAvl(up, Join(i, f, t, s));
      JoinAvl(i, f, t, s);
  }

  lemma BinAvl(i: Info, l: Tree, r: Tree)
    ensures Height(Bin(i, l, r)) == 1 + Max(Height(l), Height(r))
    ensures Avl(Bin(i, l, r)) <==> Avl(l) && Avl(r) && -1 <= i.bal <= 1 && i.bal == Height(r) - Height(l)
  {
  }

  lemma JoinAvl(i: Info, f: bool, t: Tree, s: Tree)
    ensures var j := Join(i, f, t, s);
            && Height(j) == 1 + Max(Height(t), Height(s))
            && (Avl(j) <==> Avl(t) && Avl(s) && -1 <= i.bal <= 1
                            && i.bal == if f then Height(t) - Height(s) else Height(s) - Height(t))
  {
  }

  // ---------------------------------------------------------------- rebalancing

  /** The record at p after its right side has gained one level over its left side, as the first half
      of the loop body leaves it. p.bal still holds the factor from before. */
  function RightHeavy(t: Tree): Tree
    requires t.Bin?
    requires t.top.bal == 1 ==> t.right.Bin? && (t.right.top.bal == -1 ==> t.right.left.Bin?)
  {
    var Bin(i, l, r) := t;
    if i.bal == -1 then Bin(i.(bal := 0), l, r)
    else if i.bal == 0 then Bin(i.(bal := 1), l, r)
    else if i.bal != 1 then t
    else
      var Bin(j, m, n) := r;
      if j.bal == 1 then Bin(j.(bal := 0), Bin(i.(bal := 0), l, m), n)
      else if j.bal == 0 then Bin(j.(bal := -1), Bin(i.(bal := 1), l, m), n)
      else if j.bal == -1 then
        var Bin(k, a, b) := m;
        Bin(k.(bal := 0),
            Bin(i.(bal := if k.bal < 1 then 0 else -1), l, a),
            Bin(j.(bal := if k.bal > -1 then 0 else 1), b, n))
      else t
  }

  /** The mirror image: the left side has gained one level over the right side. */
  function LeftHeavy(t: Tree): Tree
    requires t.Bin?
    requires t.top.bal == -1 ==> t.left.Bin? && (t.left.top.bal == 1 ==> t.left.right.Bin?)
  {
    var Bin(i, l, r) := t;
    if i.bal == 1 then Bin(i.(bal := 0), l, r)
    else if i.bal == 0 then Bin(i.(bal := -1), l, r)
    else if i.bal != -1 then t
    else
      var Bin(j, m, n) := l;
      if j.bal == -1 then Bin(j.(bal := 0), m, Bin(i.(bal := 0), n, r))
      else if j.bal == 0 then Bin(j.(bal := 1), m, Bin(i.(bal := -1), n, r))
      else if j.bal == 1 then
        var Bin(k, a, b) := n;
        Bin(k.(bal := 0),
            Bin(j.(bal := if k.bal < 1 then 0 else -1), m, a),
            Bin(i.(bal := if k.bal > -1 then 0 else 1), b, r))
      else t
  }

  /** A subtree that an insertion made taller is not evenly balanced, unless it is the new record. */
  ghost predicate Grown(t: Tree) {
    t.Bin? && (t.top.bal != 0 || (t.left.Leaf? && t.right.Leaf?))
  }

  /** What one round of the loop owes: the record's factor is right for the height h that subtree sub
      used to have, and sub is one level taller (insertion) or shorter (deletion) than that. */
  ghost predicate Pending(sub: Tree, h: nat, deleted: bool) {
    && Avl(sub)
    && Height(sub) == (if deleted then h - 1 else h + 1)
    && (!deleted ==> Grown(sub))
  }

  /** The subtree left by one round of the loop at a record whose subtree on side onRight changed. */
  ghost function Round(i: Info, onRight: bool, sub: Tree, sibling: Tree, deleted: bool): (t: Tree)
    requires RoundShape(i, onRight, sub, sibling, deleted)
  {
    if onRight != deleted then RightHeavy(Join(i, onRight, sub, sibling))
    else LeftHeavy(Join(i, onRight, sub, sibling))
  }

  /** The records the rotations look at are there. */
  ghost predicate RoundShape(i: Info, onRight: bool, sub: Tree, sibling: Tree, deleted: bool) {
    var t := Join(i, onRight, sub, sibling);
    if onRight != deleted then
      t.top.bal == 1 ==> t.right.Bin? && (t.right.top.bal == -1 ==> t.right.left.Bin?)
    else
      t.top.bal == -1 ==> t.left.Bin? && (t.left.top.bal == 1 ==> t.left.right.Bin?)
  }

  ghost predicate RightTooHigh(t: Tree) {
    && t.Bin? && Avl(t.left) && Avl(t.right) && -1 <= t.top.bal <= 1
    && t.top.bal + 1 == Height(t.right) - Height(t.left)
  }

  lemma RightHeavyShape(t: Tree)
    requires RightTooHigh(t)
    ensures t.top.bal == 1 ==> t.right.Bin? && (t.right.top.bal == -1 ==> t.right.left.Bin?)
  {
    if t.top.bal == 1 && t.right.top.bal == -1 {
      assert Height(t.right.left) >= 1;
    }
  }

  lemma RightHeavyAvl(t: Tree)
    requires RightTooHigh(t)
    requires t.top.bal == 1 ==> t.right.Bin? && (t.right.top.bal == -1 ==> t.right.left.Bin?)
    ensures var u := RightHeavy(t);
            && u.Bin? && Avl(u)
            && Height(u) == Height(t) - (if t.top.bal == 1 && u.top.bal == 0 then 1 else 0)
            && (t.top.bal != 1 ==> u.top.bal == t.top.bal + 1)
            && (t.top.bal == 1 ==> (u.top.bal == 0 <==> t.right.top.bal != 0))
  {
    if t.top.bal == 1 {
      var Bin(i, l, Bin(j, m, n)) := t;
      if j.bal == -1 {
        assert Height(m) == Height(n) + 1 == Height(l) + 1;
        var u := RightHeavy(t);
        DoubleAvl(u.left.top, l, u.top, m, u.right.top, n);
        assert u == Bin(u.top, Bin(u.left.top, l, m.left), Bin(u.right.top, m.right, n));
      } else {
        var u := RightHeavy(t);
        SingleAvl(u.left.top, l, u.top, m, n);
        assert u == Bin(u.top, Bin(u.left.top, l, m), n);
      }
    }
  }

  /** The tree a double rotation builds, with the three factors it writes. */
  lemma DoubleAvl(x: Info, l: Tree, k: Info, m: Tree, y: Info, n: Tree)
    requires m.Bin? && Avl(l) && Avl(m) && Avl(n) && Height(m) == Height(l) + 1 == Height(n) + 1
    requires x.bal == (if m.top.bal < 1 then 0 else -1) && y.bal == (if m.top.bal > -1 then 0 else 1) && k.bal == 0
    ensures Avl(Bin(k, Bin(x, l, m.left), Bin(y, m.right, n)))
    ensures Height(Bin(k, Bin(x, l, m.left), Bin(y, m.right, n))) == Height(l) + 2
  {
    BinAvl(x, l, m.left);
    BinAvl(y, m.right, n);
    BinAvl(k, Bin(x, l, m.left), Bin(y, m.right, n));
  }

  /** The trees single rotations build. */
  lemma SingleAvl(x: Info, l: Tree, y: Info, m: Tree, n: Tree)
    requires Avl(l) && Avl(m) && Avl(n) && Height(l) <= Height(m) + 1 && Height(m) <= Height(l) + 1
    requires x.bal == Height(m) - Height(l) && y.bal == Height(n) - 1 - Max(Height(l), Height(m)) && -1 <= y.bal <= 1
    ensures Avl(Bin(y, Bin(x, l, m), n)) && Height(Bin(y, Bin(x, l, m), n)) == 1 + Max(1 + Max(Height(l), Height(m)), Height(n))
  {
    hide Avl, Height;
    BinAvl(x, l, m);
    BinAvl(y, Bin(x, l, m), n);
  }

  lemma SingleAvlMirror(x: Info, l: Tree, y: Info, m: Tree, n: Tree)
    requires Avl(l) && Avl(m) && Avl(n) && Height(n) <= Height(m) + 1 && Height(m) <= Height(n) + 1
    requires y.bal == Height(n) - Height(m) && x.bal == 1 + Max(Height(m), Height(n)) - Height(l) && -1 <= x.bal <= 1
    ensures Avl(Bin(x, l, Bin(y, m, n))) && Height(Bin(x, l, Bin(y, m, n))) == 1 + Max(Height(l), 1 + Max(Height(m), Height(n)))
  {
    hide Avl, Height;
    BinAvl(y, m, n);
    BinAvl(x, l, Bin(y, m, n));
  }

  ghost predicate LeftTooHigh(t: Tree) {
    && t.Bin? && Avl(t.left) && Avl(t.right) && -1 <= t.top.bal <= 1
    && t.top.bal - 1 == Height(t.right) - Height(t.left)
  }

  lemma LeftHeavyShape(t: Tree)
    requires LeftTooHigh(t)
    ensures t.top.bal == -1 ==> t.left.Bin? && (t.left.top.bal == 1 ==> t.left.right.Bin?)
  {
    if t.top.bal == -1 && t.left.top.bal == 1 {
      assert Height(t.left.right) >= 1;
    }
  }

  lemma LeftHeavyAvl(t: Tree)
    requires LeftTooHigh(t)
    requires t.top.bal == -1 ==> t.left.Bin? && (t.left.top.bal == 1 ==> t.left.right.Bin?)
    ensures var u := LeftHeavy(t);
            && u.Bin? && Avl(u)
            && Height(u) == Height(t) - (if t.top.bal == -1 && u.top.bal == 0 then 1 else 0)
            && (t.top.bal != -1 ==> u.top.bal == t.top.bal - 1)
            && (t.top.bal == -1 ==> (u.top.bal == 0 <==> t.left.top.bal != 0))
  {
    if t.top.bal == -1 {
      var Bin(i, Bin(j, m, n), r) := t;
      if j.bal == 1 {
        assert Height(n) == Height(m) + 1 == Height(r) + 1;
        var u := LeftHeavy(t);
        DoubleAvl(u.left.top, m, u.top, n, u.right.top, r);
        assert u == Bin(u.top, Bin(u.left.top, m, n.left), Bin(u.right.top, n.right, r));
      } else {
        var u := LeftHeavy(t);
        SingleAvlMirror(u.top, m, u.right.top, n, r);
        assert u == Bin(u.top, m, Bin(u.right.top, n, r));
      }
    }
  }

  /** A single rotation, whatever happens to the balance factors on the way. */
  lemma RotationKeepsEntries(i: Info, l: Tree, j: Info, m: Tree, r: Tree, i': Info, j': Info)
    requires i' == i.(bal := i'.bal) && j' == j.(bal := j'.bal)
    ensures Entries(Bin(i, l, Bin(j, m, r))) == Entries(Bin(j', Bin(i', l, m), r))
    ensures Nodes(Bin(i, l, Bin(j, m, r))) == Nodes(Bin(j', Bin(i', l, m), r))
  {
    var a, b, c := Entries(l), Entries(m), Entries(r);
    var x, y := [Entry(i.key, i.vec)], [Entry(j.key, j.vec)];
    assert a + x + (b + y + c) == a + x + b + y + c;
  }

  lemma RightHeavyEntries(t: Tree)
    requires t.Bin?
    requires t.top.bal == 1 ==> t.right.Bin? && (t.right.top.bal == -1 ==> t.right.left.Bin?)
    ensures Entries(RightHeavy(t)) == Entries(t) && Nodes(RightHeavy(t)) == Nodes(t)
  {
    var u := RightHeavy(t);
    if t.top.bal == 1 && -1 <= t.right.top.bal <= 1 {
      var Bin(i, l, Bin(j, m, n)) := t;
      if j.bal == -1 {
        var Bin(k, a, b) := m;
        RotationKeepsEntries(k, a, j, b, n, k, j);
        RotationKeepsEntries(k, a, j, b, n, k, u.right.top);
        RotationKeepsEntries(i, l, k, a, u.right, u.left.top, u.top);
      } else {
        RotationKeepsEntries(i, l, j, m, n, u.left.top, u.top);
      }
    }
  }

  lemma LeftHeavyEntries(t: Tree)
    requires t.Bin?
    requires t.top.bal == -1 ==> t.left.Bin? && (t.left.top.bal == 1 ==> t.left.right.Bin?)
    ensures Entries(LeftHeavy(t)) == Entries(t) && Nodes(LeftHeavy(t)) == Nodes(t)
  {
    var u := LeftHeavy(t);
    if t.top.bal == -1 && -1 <= t.left.top.bal <= 1 {
      var Bin(i, Bin(j, m, n), r) := t;
      if j.bal == 1 {
        var Bin(k, a, b) := n;
        RotationKeepsEntries(j, m, k, a, b, u.left.top, k);
        RotationKeepsEntries(k, u.left, i, b, r, k, i);
        assert Entries(t.left) == Entries(Bin(k, u.left, b));
        assert Entries(u) == Entries(Bin(k, u.left, Bin(i, b, r)));
      } else {
        RotationKeepsEntries(j, m, i, n, r, u.top, u.right.top);
        RotationKeepsEntries(j, m, i, n, r, j, i);
      }
    }
  }

  /** One round repairs the record, and the loop's exit test is exact: it holds
      precisely when the repaired subtree has its old height again; otherwise the next record up has
      the same debt. */
  lemma RoundRepairs(i: Info, onRight: bool, sub: Tree, sibling: Tree, h: nat, deleted: bool)
    requires Pending(sub, h, deleted) && Avl(sibling) && -1 <= i.bal <= 1
    requires i.bal == if onRight then h - Height(sibling) else Height(sibling) - h
    ensures RoundShape(i, onRight, sub, sibling, deleted)
    ensures var t, was := Round(i, onRight, sub, sibling, deleted), 1 + Max(h, Height(sibling));
            && t.Bin? && Avl(t)
            && Entries(t) == Entries(Join(i, onRight, sub, sibling))
            && Nodes(t) == Nodes(Join(i, onRight, sub, sibling))
            && (Height(t) == was <==> (t.top.bal == 0) != deleted)
            && (Height(t) != was ==> Pending(t, was, deleted))
  {
    var t := Join(i, onRight, sub, sibling);
    if onRight != deleted {
      RightHeavyShape(t);
      RightHeavyAvl(t);
      RightHeavyEntries(t);
    } else {
      LeftHeavyShape(t);
      LeftHeavyAvl(t);
      LeftHeavyEntries(t);
    }
  }

  /** The debt at the foot of a path whose factors count with height h. */
  ghost predicate Owing(c: Path, sub: Tree, h: nat, deleted: bool) {
    PathAvl(c, h) && Pending(sub, h, deleted)
  }

  /** No debt: the whole tree is balanced. */
  ghost predicate Settled(c: Path, sub: Tree) {
    Avl(sub) && PathAvl(c, Height(sub))
  }

  ghost function HeightAbove(c: Path, h: nat): nat {
    if c.Down? then 1 + Max(h, Height(c.sibling)) else h
  }

  /** The same round seen from the header: the debt is paid or moves up ... */
  lemma RoundOnPath(c: Path, sub: Tree, h: nat, deleted: bool)
    requires c.Down? && Owing(c, sub, h, deleted)
    ensures RoundShape(c.top, c.onRight, sub, c.sibling, deleted)
    ensures var t := Round(c.top, c.onRight, sub, c.sibling, deleted);
            t.Bin? && (if (t.top.bal == 0) != deleted then Settled(c.up, t) else Owing(c.up, t, HeightAbove(c, h), deleted))
  {
    RoundRepairs(c.top, c.onRight, sub, c.sibling, h, deleted);
    assert PathAvl(c.up, HeightAbove(c, h));
  }

  /** ... and no variable and no record is lost. */
  lemma RoundKeeps(c: Path, sub: Tree, h: nat, deleted: bool)
    requires c.Down? && Owing(c, sub, h, deleted)
    ensures RoundShape(c.top, c.onRight, sub, c.sibling, deleted)
    ensures var t := Round(c.top, c.onRight, sub, c.sibling, deleted);
            && Entries(Plug(c.up, t)) == Entries(Plug(c, sub))
            && PathNodes(c.up) + Nodes(t) == PathNodes(c) + Nodes(sub)
  {
    RoundRepairs(c.top, c.onRight, sub, c.sibling, h, deleted);
    PlugSame(c.up, Round(c.top, c.onRight, sub, c.sibling, deleted), Join(c.top, c.onRight, sub, c.sibling));
  }

  // ---------------------------------------------------------------- entries as a map

  lemma {:induction false} ContentsAppend(a: seq<Entry>, b: seq<Entry>)
    ensures Contents(a + b) == Contents(a) + Contents(b)
  {
    if b == [] {
      assert a + b == a;
    } else {
      var n := |b| - 1;
      assert (a + b)[..|a + b| - 1] == a + b[..n];
      ContentsAppend(a, b[..n]);
    }
  }

  lemma {:induction false} ContentsKeys(s: seq<Entry>, k: Word)
    ensures k in Contents(s) <==> exists i :: 0 <= i < |s| && s[i].key == k
  {
    if s != [] {
      var n := |s| - 1;
      ContentsKeys(s[..n], k);
      if i :| 0 <= i < |s| && s[i].key == k && i < n {
        assert s[..n][i].key == k;
      }
      if s[n].key == k {
      } else if k in Contents(s) {
        var i :| 0 <= i < n && s[..n][i].key == k;
        assert s[i].key == k;
      }
    }
  }

  /** The entry e has its place between a and b. */
  ghost predicate Fits(a: seq<Entry>, key: Word, b: seq<Entry>) {
    && (forall i :: 0 <= i < |a| ==> Less(a[i].key, key))
    && (forall i :: 0 <= i < |b| ==> Less(key, b[i].key))
  }

  lemma SortedFits(a: seq<Entry>, e: Entry, b: seq<Entry>)
    ensures Sorted(a + [e] + b) <==> Sorted(a + b) && Fits(a, e.key, b)
  {
    var s, t := a + b, a + [e] + b;
    if Sorted(t) {
      forall i, j | 0 <= i < j < |s|
        ensures Less(s[i].key, s[j].key)
      {
        assert s[i] == t[if i < |a| then i else i + 1];
        assert s[j] == t[if j < |a| then j else j + 1];
      }
      forall i | 0 <= i < |a|
        ensures Less(a[i].key, e.key)
      {
        assert a[i] == t[i] && e == t[|a|];
      }
      forall i | 0 <= i < |b|
        ensures Less(e.key, b[i].key)
      {
        assert b[i] == t[|a| + 1 + i] && e == t[|a|];
      }
    }
    if Sorted(s) && Fits(a, e.key, b) {
      forall i, j | 0 <= i < j < |t|
        ensures Less(t[i].key, t[j].key)
      {
        assert i < |a| ==> t[i] == a[i] == s[i];
        assert j < |a| ==> t[j] == a[j] == s[j];
        assert i > |a| ==> t[i] == b[i - |a| - 1] == s[i - 1];
        assert j > |a| ==> t[j] == b[j - |a| - 1] == s[j - 1];
      }
    }
  }

  lemma FitsIsNew(a: seq<Entry>, key: Word, b: seq<Entry>)
    requires Fits(a, key, b)
    ensures key !in Contents(a) && key !in Contents(b) && key !in Contents(a + b)
  {
    ContentsKeys(a, key);
    ContentsKeys(b, key);
    OrderIsTotal(key, key, key);
    ContentsAppend(a, b);
  }

  lemma MergeAround(ca: map<Word, Vec>, k: Word, v: Vec, cb: map<Word, Vec>)
    requires k !in ca && k !in cb
    ensures ca[k := v] + cb == (ca + cb)[k := v]
    ensures ca + cb == (ca + cb)[k := v] - {k}
  {
  }

  /** In a sorted list, an entry's place decides what the map says about its key: with the entry the
      map has its value there, without it the map has nothing there, and other keys do not care. */
  lemma EntryInMap(a: seq<Entry>, e: Entry, b: seq<Entry>)
    requires Fits(a, e.key, b)
    ensures e.key !in Contents(a + b)
    ensures Contents(a + [e] + b) == Contents(a + b)[e.key := e.vec]
    ensures Contents(a + b) == Contents(a + [e] + b) - {e.key}
  {
    FitsIsNew(a, e.key, b);
    ContentsAppend(a, b);
    ContentsAppend(a + [e], b);
    assert (a + [e])[..|a + [e]| - 1] == a;
    MergeAround(Contents(a), e.key, e.vec, Contents(b));
  }

  // ---------------------------------------------------------------- the largest record of a subtree

  /** The subtree at the end of the right spine, the path to it, and the tree without its record. */
  ghost function LastPath(c: Path, t: Tree): Path
    requires t.Bin?
    decreases t
  {
    if t.right.Leaf? then c else LastPath(Down(t.top, true, t.left, c), t.right)
  }

  ghost function LastTree(t: Tree): Tree
    requires t.Bin?
  {
    if t.right.Leaf? then t else LastTree(t.right)
  }

  ghost function WithoutLast(t: Tree): Tree
    requires t.Bin?
  {
    if t.right.Leaf? then t.left else Bin(t.top, t.left, WithoutLast(t.right))
  }

  lemma {:induction false} LastSplits(c: Path, t: Tree)
    requires t.Bin?
    ensures LastTree(t).Bin? && LastTree(t).right.Leaf?
    ensures Plug(LastPath(c, t), LastTree(t).left) == Plug(c, WithoutLast(t))
    ensures Entries(t) == Entries(WithoutLast(t)) + [Entry(LastTree(t).top.key, LastTree(t).top.vec)]
    ensures Header(LastPath(c, t)) == Header(c)
    ensures Avl(t) ==> Avl(LastTree(t)) && (PathAvl(c, Height(t)) ==> PathAvl(LastPath(c, t), Height(LastTree(t))))
    ensures Nodes(t) == Nodes(WithoutLast(t)) + {LastTree(t).top.node}
    ensures PathNodes(LastPath(c, t)) + Nodes(LastTree(t)) == PathNodes(c) + Nodes(t)
    decreases t
  {
    if t.right.Bin? {
      LastSplits(Down(t.top, true, t.left, c), t.right);
    }
  }

  // ---------------------------------------------------------------- height

  function Fib(n: nat): (f: nat)
    ensures n > 0 ==> f > 0
  {
    if n < 2 then n else Fib(n - 1) + Fib(n - 2)
  }

  lemma {:induction false} FibMonotone(m: nat, n: nat)
    requires m <= n
    ensures Fib(m) <= Fib(n)
    decreases n - m
  {
    if m < n {
      FibMonotone(m + 1, n);
    }
  }

  /** The balance factors keep the tree dense: height h takes at least Fib(h + 2) - 1 records. */
  lemma {:induction false} AvlIsDense(t: Tree)
    requires Avl(t)
    ensures Fib(Height(t) + 2) <= Size(t) + 1
  {
    if t.Bin? {
      AvlIsDense(t.left);
      AvlIsDense(t.right);
      if Height(t.left) >= Height(t.right) {
        FibSplits(Height(t.left) + 1, Height(t.right) + 2);
      } else {
        FibSplits(Height(t.right) + 1, Height(t.left) + 2);
      }
    }
  }

  lemma FibSplits(h: nat, k: nat)
    requires h <= k
    ensures Fib(h + 2) <= Fib(h + 1) + Fib(k)
  {
    FibMonotone(h, k);
  }

  lemma {:induction false} FibDoubles(k: nat)
    ensures Power2(k) <= Fib(2 * k + 2)
  {
    if k > 0 {
      FibDoubles(k - 1);
      assert Fib(2 * k + 2) == Fib(2 * k + 1) + Fib(2 * k);
      FibMonotone(2 * k, 2 * k + 1);
    }
  }

  lemma {:induction false} SizeIsEntries(t: Tree)
    ensures |Entries(t)| == Size(t)
  {
    if t.Bin? {
      SizeIsEntries(t.left);
      SizeIsEntries(t.right);
    }
  }

  lemma {:induction false} ContentsSize(s: seq<Entry>)
    requires Sorted(s)
    ensures |Contents(s)| == |s|
  {
    if s != [] {
      var n := |s| - 1;
      ContentsSize(s[..n]);
      assert s == s[..n] + [s[n]] + [];
      SortedFits(s[..n], s[n], []);
      FitsIsNew(s[..n], s[n].key, []);
      assert Contents(s).Keys == Contents(s[..n]).Keys + {s[n].key};
      assert |Contents(s).Keys| == |Contents(s[..n]).Keys| + 1;
    }
  }

  lemma FibHalf(h: nat)
    ensures Power2(h / 2) <= Fib(h + 2)
  {
    var k := h / 2;
    FibDoubles(k);
    FibMonotone(2 * k + 2, h + 2);
  }

  /** A balanced store of n variables of height h has 2^(h/2) <= n + 1. */
  lemma HeightIsLow(t: Tree)
    requires Avl(t) && Sorted(Entries(t))
    ensures Fib(Height(t) + 2) <= |Contents(Entries(t))| + 1
    ensures Power2(Height(t) / 2) <= |Contents(Entries(t))| + 1
  {
    hide *;
    var h, n := Height(t), |Contents(Entries(t))|;
    assert Fib(h + 2) <= n + 1 by {
      AvlIsDense(t);
      SizeIsEntries(t);
      ContentsSize(Entries(t));
    }
    assert Power2(h / 2) <= Fib(h + 2) by {
      FibHalf(h);
    }
  }
}
