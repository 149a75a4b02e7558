/** The operations of set.c on one store (the shell's variables, or its aliases). */
module VarTable {
  import opened Common
  import opened Strings
  import opened VarTree
  import opened VarStore
  import Gmatch

  function TrimVec(v: Vec): (r: Vec)
    ensures |r| == |v|
  {
    if v == [] then [] else [TrimWord(v[0])] + TrimVec(v[1..])
  }

  /** From any record of a stored tree back to the path that leads to it. */
  lemma {:induction false} Locate(c: Path, t: Tree, hole: Varent?, n: Varent) returns (c': Path, t': Tree)
    requires n in Nodes(t)
    requires Placed(c, t, hole)
    ensures t'.Bin? && t'.top.node == n && Plug(c', t') == Plug(c, t) && Header(c') == Header(c)
    ensures Placed(c', t', n)
    ensures PathNodes(c') + Nodes(t') == PathNodes(c) + Nodes(t)
    decreases t
  {
    if t.top.node == n {
      c', t' := c, t;
    } else {
      var f := n in Nodes(t.right);
      Enter(c, t, hole, f);
      c', t' := Locate(Below(c, t, f), Child(t, f), if f then hole.right else hole.left, n);
    }
  }

  /** A record on the search path says what the map holds for its name. */
  lemma FoundInMap(c: Path, t: Tree)
    requires t.Bin? && Sorted(Entries(Plug(c, t)))
    ensures var m := Contents(Entries(Plug(c, t))); t.top.key in m && m[t.top.key] == t.top.vec
  {
    var a, e, b := Before(c) + Entries(t.left), Entry(t.top.key, t.top.vec), Entries(t.right) + After(c);
    EntriesAround(c, t);
    SortedFits(a, e, b);
    EntryInMap(a, e, b);
  }

  /** One step of the search narrows the gap that name fits. */
  lemma StepFits(c: Path, t: Tree, name: Word)
    requires t.Bin? && Sorted(Entries(Plug(c, t))) && Fits(Before(c), name, After(c))
    ensures Order(name, t.top.key) < 0 ==> var d := Below(c, t, false); Fits(Before(d), name, After(d))
    ensures Order(name, t.top.key) > 0 ==> var d := Below(c, t, true); Fits(Before(d), name, After(d))
  {
    hide Order, Plug;
    var s, e := Entries(Plug(c, t)), Entry(t.top.key, t.top.vec);
    var k := |Before(c)| + |Entries(t.left)|;
    PlugEntries(c, t);
    assert s[k] == e;
    OrderIsTotal(e.key, name, name);
    if Order(name, e.key) < 0 {
      forall i | 0 <= i < |Entries(t.right)|
        ensures Less(name, Entries(t.right)[i].key)
      {
        assert s[k + 1 + i] == Entries(t.right)[i];
        OrderIsTotal(name, e.key, s[k + 1 + i].key);
      }
    } else if Order(name, e.key) > 0 {
      forall i | 0 <= i < |Entries(t.left)|
        ensures Less(Entries(t.left)[i].key, name)
      {
        assert s[|Before(c)| + i] == Entries(t.left)[i];
        OrderIsTotal(s[|Before(c)| + i].key, e.key, name);
      }
    }
  }

  /** What the end of a search says: a record, or a hole the name fits. */
  lemma SearchAnswers(c: Path, t: Tree, name: Word)
    requires Sorted(Entries(Plug(c, t)))
    requires if t.Leaf? then Fits(Before(c), name, After(c)) else Order(name, t.top.key) == 0
    ensures var m := Contents(Entries(Plug(c, t)));
            && (t.Bin? <==> name in m)
            && (t.Bin? ==> t.top.key == name && m[name] == t.top.vec && t.top.node in Nodes(Plug(c, t)))
  {
    hide Contents, Plug, Before, After, Sorted, Fits, Order;
    PlugNodes(c, t);
    if t.Bin? {
      OrderIsTotal(name, t.top.key, name);
      FoundInMap(c, t);
    } else {
      PlugEntries(c, t);
      FitsIsNew(Before(c), name, After(c));
      assert Before(c) + [] + After(c) == Before(c) + After(c);
    }
  }

  /** Sorted lists with and without an entry, and their maps. */
  lemma InsertInMap(a: seq<Entry>, e: Entry, b: seq<Entry>, s: seq<Entry>, t: seq<Entry>)
    requires s == a + b && t == a + [e] + b
    ensures Sorted(t) <==> Sorted(s) && Fits(a, e.key, b)
    ensures Sorted(t) ==> e.key !in Contents(s) && Contents(t) == Contents(s)[e.key := e.vec] && Contents(s) == Contents(t) - {e.key}
  {
    SortedFits(a, e, b);
    if Sorted(t) {
      EntryInMap(a, e, b);
    }
  }

  lemma PlugLeaf(c: Path, t: Tree, whole: Tree)
    requires t.Leaf? && whole == Plug(c, t) && Avl(whole)
    ensures Entries(whole) == Before(c) + After(c) && PathAvl(c, 0)
  {
    PlugAvl(c, t);
    PlugEntries(c, t);
  }

  lemma SingleEntries(c: Path, i: Info)
    ensures Entries(Plug(c, Bin(i, Leaf, Leaf))) == Before(c) + [Entry(i.key, i.vec)] + After(c)
  {
    PlugEntries(c, Bin(i, Leaf, Leaf));
    assert Entries(Bin(i, Leaf, Leaf)) == [Entry(i.key, i.vec)];
  }

  /** Entries around a record. */
  lemma EntriesAround(c: Path, t: Tree)
    requires t.Bin?
    ensures Entries(Plug(c, t)) ==
            (Before(c) + Entries(t.left)) + [Entry(t.top.key, t.top.vec)] + (Entries(t.right) + After(c))
  {
    PlugEntries(c, t);
    Regroup(Before(c), Entries(t.left), [Entry(t.top.key, t.top.vec)], Entries(t.right), After(c));
  }

  lemma Regroup(a: seq<Entry>, l: seq<Entry>, e: seq<Entry>, r: seq<Entry>, b: seq<Entry>)
    ensures a + (l + e + r) + b == (a + l) + e + (r + b)
  {
  }

  /** What unsetv1 takes out when p has at most one child: p moves out and its only subtree moves up. */
  ghost function Only(t: Tree): Tree
    requires t.Bin?
  {
    if t.right.Leaf? then t.left else t.right
  }

  lemma RemoveTop(c: Path, t: Tree)
    requires t.Bin? && (t.left.Leaf? || t.right.Leaf?)
    requires Avl(Plug(c, t)) && Sorted(Entries(Plug(c, t)))
    ensures Owing(c, Only(t), Height(t), true)
    ensures var s, u := Entries(Plug(c, t)), Entries(Plug(c, Only(t)));
            Sorted(u) && Contents(u) == Contents(s) - {t.top.key}
  {
    hide Contents, Sorted, Plug;
    PlugAvl(c, t);
    EntriesAround(c, t);
    PlugEntries(c, Only(t));
    var a, b := Before(c) + Entries(t.left), Entries(t.right) + After(c);
    assert Entries(Plug(c, Only(t))) == a + b;
    InsertInMap(a, Entry(t.top.key, t.top.vec), b, a + b, Entries(Plug(c, t)));
  }

  /** Changing a value in place. */
  lemma ReplaceTop(c: Path, t: Tree, vec: Vec)
    requires t.Bin? && Avl(Plug(c, t)) && Sorted(Entries(Plug(c, t)))
    ensures var u := Plug(c, Bin(t.top.(vec := vec), t.left, t.right));
            Avl(u) && Sorted(Entries(u)) && Contents(Entries(u)) == Contents(Entries(Plug(c, t)))[t.top.key := vec]
  {
    hide Contents, Sorted, Plug, PathAvl;
    var u := Bin(t.top.(vec := vec), t.left, t.right);
    var a, b := Before(c) + Entries(t.left), Entries(t.right) + After(c);
    PlugAvl(c, t);
    PlugAvl(c, u);
    EntriesAround(c, t);
    EntriesAround(c, u);
    InsertInMap(a, Entry(t.top.key, t.top.vec), b, a + b, Entries(Plug(c, t)));
    InsertInMap(a, Entry(t.top.key, vec), b, a + b, Entries(Plug(c, u)));
  }

  /** A fresh record linked in at the hole of a path, and the tree rebalanced above it. */
  method Attach(p: Varent, f: bool, name: Word, ghost path: Path) returns (c: Varent, ghost t: Tree)
    requires p == Lowest(path) && f == OnRight(path) && PathMatches(path, null)
    requires PathAvl(path, 0)
    modifies PathNodes(path)
    ensures fresh(c) && Stored(t, Header(path)) && Avl(t)
    ensures Nodes(t) + {Header(path)} == PathNodes(path) + {c}
    ensures c.name == name && Entries(t) == Before(path) + [Entry(name, c.vec)] + After(path)
  {
    assert allocated(PathNodes(path));
    c := new Varent(name, [], p);
    assert path.Down? ==> allocated(PathNodes(path.up)) && allocated(Nodes(path.sibling));
    SetLink(p, f, c);
    ghost var single := Bin(Info(c, name, c.vec, 0), Leaf, Leaf);
    SingleEntries(path, single.top);
    assert Nodes(single) == {c};
    assert Height(Leaf) == 0 && Height(single) == 1;
    t := Balance(p, f, false, path, single, c, 0);
  }

  /** How a name compares with the name of a record: by first characters, then as strings. */
  method Compare(name: Word, other: Word) returns (f: int)
    ensures f == Order(name, other)
  {
    f := At(name, 0) - At(other, 0);
    if f == 0 {
      f := StrCmp(name, other);
    }
  }

  /** Move c into where p is. */
  method MoveUp(p: Varent, c: Varent?, ghost path: Path, ghost t: Tree) returns (pp: Varent, f: bool)
    requires t.Bin? && Placed(path, t, p) && (t.left.Leaf? || t.right.Leaf?)
    requires c == if t.right.Leaf? then p.left else p.right
    modifies Lowest(path)`left, Lowest(path)`right, Nodes(t)`parent
    ensures pp == Lowest(path) && f == OnRight(path) && Placed(path, Only(t), c)
  {
    pp := p.parent;
    SideIsRight(path, p);
    f := pp.right == p;
    assert path.Down? ==> allocated(PathNodes(path.up)) && allocated(Nodes(path.sibling));
    assert allocated(Nodes(t));
    SetLink(pp, f, c);
    assert Matches(Only(t), c, p);
    if c != null {
      c.parent := pp;
    }
    assert Matches(Only(t), c, pp);
  }

  /** The end of unsetv1: c takes the place of p, which has no other child, and the tree is rebalanced
      from p's parent. */
  method Splice(p: Varent, c: Varent?, ghost path: Path, ghost t: Tree) returns (ghost u: Tree)
    requires t.Bin? && Placed(path, t, p) && (t.left.Leaf? || t.right.Leaf?)
    requires c == if t.right.Leaf? then p.left else p.right
    requires Owing(path, Only(t), Height(t), true)
    modifies (PathNodes(path) + Nodes(t))`left, (PathNodes(path) + Nodes(t))`right,
             (PathNodes(path) + Nodes(t))`parent, (PathNodes(path) + Nodes(t))`bal
    ensures Stored(u, Header(path)) && Avl(u)
    ensures Entries(u) == Entries(Plug(path, Only(t)))
    ensures Nodes(u) + {Header(path)} == PathNodes(path) + (Nodes(t) - {p})
  {
    assert Nodes(Only(t)) == Nodes(t) - {p};
    var pp, f := MoveUp(p, c, path, t);
    u := Balance(pp, f, true, path, Only(t), c, Height(t));
  }

  /** p's record with the contents of its predecessor, the last record of its left subtree. */
  ghost function Heir(t: Tree): Info
    requires t.Bin? && t.left.Bin?
  {
    LastSplits(Top(t.top.node), t.left);
    t.top.(key := LastTree(t.left).top.key, vec := LastTree(t.left).top.vec)
  }

  /** The path to the predecessor's own record once p holds its contents. */
  ghost function HeirPath(c: Path, t: Tree): Path
    requires t.Bin? && t.left.Bin?
  {
    LastPath(Down(Heir(t), false, t.right, c), t.left)
  }

  lemma HeirOwes(c: Path, t: Tree)
    requires t.Bin? && t.left.Bin? && Avl(Plug(c, t))
    ensures LastTree(t.left).Bin? && LastTree(t.left).right.Leaf? && LastTree(t.left).top.node in Nodes(t.left)
    ensures var d, u := HeirPath(c, t), LastTree(t.left);
            && Owing(d, Only(u), Height(u), true) && Header(d) == Header(c)
            && PathNodes(d) + Nodes(u) == PathNodes(c) + Nodes(t)
  {
    var base := Down(Heir(t), false, t.right, c);
    LastSplits(base, t.left);
    PlugAvl(c, t);
    assert PathAvl(base, Height(t.left));
  }

  /** Taking out the predecessor's record after copying it over p's takes p's variable out of the map. */
  lemma RemoveHeir(c: Path, t: Tree)
    requires t.Bin? && t.left.Bin? && Sorted(Entries(Plug(c, t)))
    ensures LastTree(t.left).Bin? && LastTree(t.left).right.Leaf?
    ensures var s, u := Entries(Plug(c, t)), Entries(Plug(HeirPath(c, t), Only(LastTree(t.left))));
            Sorted(u) && Contents(u) == Contents(s) - {t.top.key}
  {
    LastSplits(Down(Heir(t), false, t.right, c), t.left);
    var v := Bin(Heir(t), WithoutLast(t.left), t.right);
    var a, b := Before(c) + Entries(t.left), Entries(t.right) + After(c);
    EntriesAround(c, t);
    EntriesAround(c, v);
    assert Entries(Plug(c, v)) == a + b;
    InsertInMap(a, Entry(t.top.key, t.top.vec), b, a + b, Entries(Plug(c, t)));
  }

  lemma {:induction false} LastPlaced(c: Path, t: Tree, n: Varent)
    requires t.Bin? && Placed(c, t, n)
    ensures LastTree(t).Bin? && Placed(LastPath(c, t), LastTree(t), LastTree(t).top.node)
    decreases t
  {
    if t.right.Bin? {
      Enter(c, t, n, true);
      LastPlaced(Below(c, t, true), t.right, n.right);
    }
  }

  /** The last record of a subtree: follow right links. */
  method FindLast(n: Varent, ghost path: Path, ghost t: Tree) returns (c: Varent)
    requires t.Bin? && Placed(path, t, n)
    ensures LastTree(t).Bin? && c == LastTree(t).top.node
    ensures c.name == LastTree(t).top.key && c.vec == LastTree(t).top.vec
  {
    c := n;
    ghost var d, u := path, t;
    while c.right != null
      invariant u.Bin? && Placed(d, u, c) && LastTree(u) == LastTree(t)
      decreases u
    {
      Enter(d, u, c, true);
      c := c.right;
      d, u := Below(d, u, true), u.right;
    }
    Enter(d, u, c, true);
    assert LastTree(u) == u;
  }

  /** The predecessor of p, which has no right child, found and copied into p. */
  method CopyPredecessor(p: Varent, ghost path: Path, ghost t: Tree) returns (c: Varent)
    requires t.Bin? && t.left.Bin? && Placed(path, t, p)
    modifies p`name, p`vec
    ensures LastTree(t.left).Bin? && c == LastTree(t.left).top.node
    ensures Placed(HeirPath(path, t), LastTree(t.left), c)
  {
    Enter(path, t, p, false);
    assert allocated(Nodes(t.left)) && allocated(Nodes(t.right)) && allocated(PathNodes(path));
    c := FindLast(p.left, Below(path, t, false), t.left);
    assert p !in Nodes(t.left) && p !in Nodes(t.right) && p !in PathNodes(path);
    assert Matches(t.right, p.right, p) && Matches(t.left, p.left, p) && PathMatches(path, p);
    p.name := c.name;
    p.vec := c.vec;
    ghost var base := Down(Heir(t), false, t.right, path);
    assert Matches(t.right, p.right, p) && Matches(t.left, p.left, p) && PathMatches(path, p);
    assert Placed(base, t.left, p.left);
    LastPlaced(base, t.left, p.left);
  }

  /** unsetv1 for a record with two children, down to the rebalancing. */
  method SpliceHeir(p: Varent, ghost path: Path, ghost t: Tree) returns (ghost u: Tree, ghost freed: Varent)
    requires t.Bin? && t.left.Bin? && Placed(path, t, p) && Avl(Plug(path, t))
    modifies p`name, p`vec, (PathNodes(path) + Nodes(t))`left, (PathNodes(path) + Nodes(t))`right,
             (PathNodes(path) + Nodes(t))`parent, (PathNodes(path) + Nodes(t))`bal
    ensures Stored(u, Header(path)) && Avl(u) && LastTree(t.left).Bin?
    ensures Entries(u) == Entries(Plug(HeirPath(path, t), Only(LastTree(t.left))))
    ensures freed in Nodes(t.left) && Nodes(u) + {Header(path)} == (PathNodes(path) + Nodes(t)) - {freed}
  {
    HeirOwes(path, t);
    var c := CopyPredecessor(p, path, t);
    u := Splice(c, c.left, HeirPath(path, t), LastTree(t.left));
    freed := c;
  }

  /** The walker stands at p, and path leads to p's left subtree t. */
  ghost predicate AtLeft(path: Path, t: Tree, p: Varent, whole: Tree, head: Varent)
    reads p, PathNodes(path), Nodes(t)
  {
    && !OnRight(path) && p == Lowest(path) && Placed(path, t, p.left)
    && Plug(path, t) == whole && Header(path) == head
  }

  /** A finished right subtree finishes its parent. */
  lemma FinishRight(c: Path, t: Tree)
    requires c.Down? && c.onRight
    ensures Before(c) + Entries(t) == Before(c.up) + Entries(Join(c.top, true, t, c.sibling))
  {
    var a, s, e, r := Before(c.up), Entries(c.sibling), [Entry(c.top.key, c.top.vec)], Entries(t);
    assert a + s + e + r == a + (s + e + r);
  }

  /** plist's do-while: from a record whose subtree is done, up to the first one entered from its left. */
  method Climb(ghost path0: Path, ghost t0: Tree, p0: Varent, ghost whole: Tree, ghost head: Varent)
      returns (ghost path: Path, ghost t: Tree, p: Varent)
    requires path0.Down? && AtLeft(path0, t0, p0, whole, head) && p0.right == null
    ensures AtLeft(path, t, p, whole, head)
    ensures Before(path) + Entries(t) == Before(path0) + Entries(t0) + [Entry(p0.name, p0.vec)]
  {
    Leave(path0, t0, p0.left);
    var c := p0;
    p := p0.parent;
    path, t := path0.up, Join(path0.top, false, t0, path0.sibling);
    while p.right == c
      invariant p == Lowest(path) && Placed(path, t, c) && t.Bin?
      invariant Plug(path, t) == whole && Header(path) == head
      invariant Before(path) + Entries(t) == Before(path0) + Entries(t0) + [Entry(p0.name, p0.vec)]
      decreases path
    {
      SideIsRight(path, c);
      Leave(path, t, c);
      FinishRight(path, t);
      c := p;
      p := p.parent;
      path, t := path.up, Join(path.top, true, t, path.sibling);
    }
    SideIsRight(path, c);
  }

  /** The result of looking for a match: a record, none, or the error "Missing c" of the pattern. */
  datatype Search = Hit(vp: Varent) | Miss | Broken(c: int)

  ghost predicate NoneMatches(pat: Word, s: seq<Entry>) {
    forall i :: 0 <= i < |s| ==> !Gmatch.Says(pat, s[i].key)
  }

  /** The test of one name. */
  method MatchName(name: Word, pat: Word) returns (m: Gmatch.Verdict)
    requires Gmatch.Handled(pat)
    ensures m.Is? ==> (m.matched <==> Gmatch.Says(pat, name))
    ensures Gmatch.WellFormed(pat) ==> m.Is?
  {
    hide Gmatch.Says, Gmatch.Handled, Gmatch.Halting, Gmatch.WellFormed;
    Gmatch.HandledHalts(pat, name);
    m := Gmatch.Gmatch(name, pat);
  }

  /** madrof(pat, vp): the first record in tree order whose name the pattern matches. */
  method Madrof(pat: Word, vp0: Varent?, ghost path0: Path, ghost t0: Tree) returns (r: Search, ghost k: nat)
    requires Gmatch.Handled(pat) && Placed(path0, t0, vp0)
    ensures r.Hit? ==> r.vp in Nodes(t0) && Gmatch.Says(pat, r.vp.name)
    ensures r.Hit? ==> FirstMatch(pat, Entries(t0), k, r.vp.name)
    ensures r.Miss? ==> NoneMatches(pat, Entries(t0))
    ensures Gmatch.WellFormed(pat) ==> !r.Broken?
    decreases t0
  {
    hide Gmatch.Says, Gmatch.Handled, Gmatch.WellFormed, Entries, PathMatches, NoneMatches, FirstMatch, Nodes;
    NothingSeen(pat, Entries(t0));
    var vp := vp0;
    ghost var path, t, seen := path0, t0, [];
    while vp != null
      invariant Placed(path, t, vp) && Nodes(t) <= Nodes(t0) && (t == t0 || t < t0)
      invariant Entries(t0) == seen + Entries(t) && NoneMatches(pat, seen)
      decreases t
    {
      assert allocated(PathNodes(path)) && allocated(Nodes(t));
      Enter(path, t, vp, true);
      NodesBelow(t);
      if vp.left != null {
        Enter(path, t, vp, false);
        var vp1, k1 := Madrof(pat, vp.left, Below(path, t, false), t.left);
        if !vp1.Miss? {
          if vp1.Hit? {
            FirstInLeft(pat, Entries(t0), seen, t, k1, vp1.vp.name);
          }
          return vp1, |seen| + k1;
        }
      } else {
        Enter(path, t, vp, false);
        assert t.left == Leaf;
      }
      var m := MatchName(vp.name, pat);
      if m.Error? {
        return Broken(m.missing), 0;
      }
      if m.matched {
        FirstHere(pat, Entries(t0), seen, t);
        return Hit(vp), |seen| + |Entries(t.left)|;
      }
      PassOver(pat, Entries(t0), seen, t);
      seen := seen + Entries(t.left) + [Entry(t.top.key, t.top.vec)];
      path, t, vp := Below(path, t, true), t.right, vp.right;
    }
    NothingLeft(seen, t);
    r, k := Miss, 0;
  }

  /** A map without the names that the pattern matches. */
  ghost function Spared(m: map<Word, Vec>, pat: Word): map<Word, Vec> {
    map k | k in m && !Gmatch.Says(pat, k) :: m[k]
  }

  ghost function SparedByAll(m: map<Word, Vec>, pats: seq<Word>): map<Word, Vec> {
    if pats == [] then m else Spared(SparedByAll(m, pats[..|pats| - 1]), pats[|pats| - 1])
  }

  lemma NoneInMap(pat: Word, s: seq<Entry>)
    requires NoneMatches(pat, s)
    ensures Spared(Contents(s), pat) == Contents(s)
  {
    forall k | k in Contents(s)
      ensures !Gmatch.Says(pat, k)
    {
      ContentsKeys(s, k);
    }
  }

  lemma SpareAfterRemoval(m: map<Word, Vec>, k: Word, pat: Word)
    requires Gmatch.Says(pat, k)
    ensures Spared(m - {k}, pat) == Spared(m, pat)
  {
  }

  lemma NodesBelow(t: Tree)
    requires t.Bin?
    ensures t.top.node in Nodes(t) && Nodes(t.left) <= Nodes(t) && Nodes(t.right) <= Nodes(t)
  {
  }

  /** Entry k is the first whose name the pattern matches. */
  ghost predicate FirstMatch(pat: Word, s: seq<Entry>, k: nat, name: Word) {
    k < |s| && s[k].key == name && Gmatch.Says(pat, name) && NoneMatches(pat, s[..k])
  }

  /** What is first on the left is first of all that is left to search. */
  lemma FirstInLeft(pat: Word, all: seq<Entry>, seen: seq<Entry>, t: Tree, k: nat, name: Word)
    requires t.Bin? && all == seen + Entries(t) && NoneMatches(pat, seen) && FirstMatch(pat, Entries(t.left), k, name)
    ensures FirstMatch(pat, all, |seen| + k, name)
  {
    hide Gmatch.Says;
    assert all[..|seen| + k] == seen + Entries(t.left)[..k];
  }

  lemma FirstHere(pat: Word, all: seq<Entry>, seen: seq<Entry>, t: Tree)
    requires t.Bin? && all == seen + Entries(t) && NoneMatches(pat, seen) && NoneMatches(pat, Entries(t.left))
    requires Gmatch.Says(pat, t.top.key)
    ensures FirstMatch(pat, all, |seen| + |Entries(t.left)|, t.top.key)
  {
    hide Gmatch.Says;
    assert all[..|seen| + |Entries(t.left)|] == seen + Entries(t.left);
  }

  lemma NothingSeen(pat: Word, s: seq<Entry>)
    ensures s == [] + s && NoneMatches(pat, []) && NoneMatches(pat, Entries(Leaf))
  {
  }

  lemma NothingLeft(seen: seq<Entry>, t: Tree)
    requires t.Leaf?
    ensures seen + Entries(t) == seen
  {
  }

  lemma PassOver(pat: Word, whole: seq<Entry>, seen: seq<Entry>, t: Tree)
    requires t.Bin? && whole == seen + Entries(t) && NoneMatches(pat, seen)
    requires NoneMatches(pat, Entries(t.left)) && !Gmatch.Says(pat, t.top.key)
    ensures var s := seen + Entries(t.left) + [Entry(t.top.key, t.top.vec)];
            whole == s + Entries(t.right) && NoneMatches(pat, s)
  {
    hide Gmatch.Says;
  }

  class VarTable {
    const head: Varent
    ghost var tree: Tree

    /** Ordered by the lookup comparison, every v_bal the height difference in -1..1, child and parent
        links in agreement up to the header. */
    ghost predicate Valid()
      reads this, head, Nodes(tree)
    {
      Stored(tree, head) && Avl(tree) && Sorted(Entries(tree))
    }

    /** What the store means: a map from names to values. */
    ghost function Vars(): map<Word, Vec>
      reads this
    {
      Contents(Entries(tree))
    }

    constructor ()
      ensures Valid() && Vars() == map[] && fresh(head) && Nodes(tree) == {}
    {
      head := new Varent([], [], null);
      tree := Leaf;
    }

    /** The search loop of setq: the record with this name, or the link where it belongs. */
    method Search(name: Word) returns (p: Varent, f: bool, n: Varent?, ghost path: Path, ghost t: Tree)
      requires Valid()
      ensures p == Lowest(path) && f == OnRight(path) && Header(path) == head
      ensures Placed(path, t, n)
      ensures Plug(path, t) == tree && PathNodes(path) + Nodes(t) == {head} + Nodes(tree)
      ensures if n == null then Fits(Before(path), name, After(path)) else t.top.key == name
    {
      p, f := head, false;
      n := p.left;
      path, t := Top(head), tree;
      while n != null
        invariant p == Lowest(path) && f == OnRight(path) && Header(path) == head
        invariant Placed(path, t, n)
        invariant Plug(path, t) == tree && PathNodes(path) + Nodes(t) == {head} + Nodes(tree)
        invariant Fits(Before(path), name, After(path))
        decreases t
      {
        assert allocated(PathNodes(path)) && allocated(Nodes(t));
        var r := Compare(name, n.name);
        if r == 0 {
          OrderIsTotal(name, t.top.key, name);
          break;
        }
        StepFits(path, t, name);
        Enter(path, t, n, r > 0);
        p := n;
        f := r > 0;
        n := if f then p.right else p.left;
        path, t := Below(path, t, f), Child(t, f);
      }
    }

    /** A record for a name that is not there yet, linked in where the search ended. */
    method Grow(p: Varent, f: bool, name: Word, ghost path: Path) returns (c: Varent)
      requires Valid() && Header(path) == head
      requires p == Lowest(path) && f == OnRight(path) && Placed(path, Leaf, null)
      requires Plug(path, Leaf) == tree && PathNodes(path) == {head} + Nodes(tree)
      requires Fits(Before(path), name, After(path))
      modifies this, head, Nodes(tree)
      ensures Valid() && fresh(c) && Nodes(tree) == old(Nodes(tree)) + {c} && c.name == name
      ensures Vars() == old(Vars())[name := c.vec]
    {
      ghost var was, grown := Entries(tree), Leaf;
      PlugLeaf(path, Leaf, tree);
      c, grown := Attach(p, f, name, path);
      InsertInMap(Before(path), Entry(name, c.vec), After(path), was, Entries(grown));
      tree := grown;
      assert Stored(tree, head);
    }

    /** setq up to the label `found`: the record for name, made and balanced in if there is none. */
    method Place(name: Word) returns (c: Varent)
      requires Valid()
      modifies this, head, Nodes(tree)
      ensures Valid() && fresh(Nodes(tree) - old(Nodes(tree))) && Nodes(tree) >= old(Nodes(tree))
      ensures c in Nodes(tree) && c.name == name && Vars() == old(Vars())[name := c.vec]
    {
      var p, f, n;
      ghost var path, t;
      assert allocated(Nodes(tree));
      p, f, n, path, t := Search(name);
      if n != null {
        c := n;
        FoundInMap(path, t);
        PlugNodes(path, t);
      } else {
        c := Grow(p, f, name, path);
      }
    }

    /** A new value for a record of the store. */
    method Store(c: Varent, vec: Vec)
      requires Valid() && c in Nodes(tree)
      modifies c`vec, this`tree
      ensures Valid() && Nodes(tree) == old(Nodes(tree))
      ensures c.vec == vec && Vars() == old(Vars())[c.name := vec]
    {
      ghost var path, t := Locate(Top(head), tree, head.left, c);
      ghost var u := Bin(t.top.(vec := vec), t.left, t.right);
      ReplaceTop(path, t, vec);
      PlugNodes(path, t);
      PlugNodes(path, u);
      c.vec := vec;
      assert Placed(path, u, c);
      PlugMatches(path, u, c);
      tree := Plug(path, u);
      assert Stored(tree, head);
    }

    /** setq(name, vec, head): the named variable has the trimmed words as its value, the others keep theirs. */
    method Setq(name: Word, vec: Vec)
      requires Valid()
      modifies this, head, Nodes(tree)
      ensures Valid() && fresh(Nodes(tree) - old(Nodes(tree))) && Nodes(tree) >= old(Nodes(tree))
      ensures Vars() == old(Vars())[name := TrimVec(vec)]
    {
      var c := Place(name);
      Store(c, TrimVec(vec));
    }

    /** unsetv1(p) for a record with at most one child. */
    method UnsetOne(p: Varent, c: Varent?, ghost path: Path, ghost t: Tree)
      requires Stored(tree, head) && Avl(tree) && Sorted(Entries(tree))
      requires t.Bin? && Placed(path, t, p) && (t.left.Leaf? || t.right.Leaf?)
      requires Plug(path, t) == tree && Header(path) == head && PathNodes(path) + Nodes(t) == {head} + Nodes(tree)
      requires c == if t.right.Leaf? then p.left else p.right
      modifies this, head, Nodes(tree)
      ensures Valid() && Vars() == old(Vars()) - {old(p.name)}
      ensures Nodes(tree) == old(Nodes(tree)) - {p}
    {
      hide Entries, Contents, Sorted, Avl, Plug, Matches, PathMatches, Owing, Holds;
      Enter(path, t, p, false);
      RemoveTop(path, t);
      ghost var u := Splice(p, c, path, t);
      tree := u;
      assert Stored(tree, head);
    }

    /** unsetv1(p) for a record with two children: its predecessor's contents move into it. */
    method UnsetTwo(p: Varent, ghost path: Path, ghost t: Tree) returns (ghost freed: Varent)
      requires Stored(tree, head) && Avl(tree) && Sorted(Entries(tree))
      requires t.Bin? && t.left.Bin? && Placed(path, t, p)
      requires Plug(path, t) == tree && Header(path) == head && PathNodes(path) + Nodes(t) == {head} + Nodes(tree)
      modifies this, head, Nodes(tree)
      ensures Valid() && Vars() == old(Vars()) - {old(p.name)}
      ensures freed in old(Nodes(tree)) && Nodes(tree) == old(Nodes(tree)) - {freed}
    {
      RemoveHeir(path, t);
      ghost var u;
      u, freed := SpliceHeir(p, path, t);
      tree := u;
      assert Stored(tree, head);
    }

    /** unsetv1(p): exactly p's variable is gone. The record freed is p's, or that of its predecessor
        whose contents p then holds. */
    method Unsetv1(p: Varent) returns (ghost freed: Varent)
      requires Valid() && p in Nodes(tree)
      modifies this, head, Nodes(tree)
      ensures Valid() && Vars() == old(Vars()) - {old(p.name)}
      ensures freed in old(Nodes(tree)) && Nodes(tree) == old(Nodes(tree)) - {freed}
    {
      ghost var path, t := Locate(Top(head), tree, head.left, p);
      Enter(path, t, p, false);
      Enter(path, t, p, true);
      if p.right == null {
        UnsetOne(p, p.left, path, t);
        freed := p;
      } else if p.left == null {
        UnsetOne(p, p.right, path, t);
        freed := p;
      } else {
        freed := UnsetTwo(p, path, t);
      }
    }

    /** The tree is as low as the Fibonacci bound says: twice the binary logarithm of the number of variables. */
    lemma HeightBound()
      requires Valid()
      ensures Fib(Height(tree) + 2) <= |Vars()| + 1
      ensures Power2(Height(tree) / 2) <= |Vars()| + 1
    {
      HeightIsLow(tree);
    }

    /** adrof1: finds a name exactly when it is stored, one level per step. */
    method Adrof1(name: Word) returns (v: Varent?, ghost steps: nat)
      requires Valid()
      ensures v != null <==> name in Vars()
      ensures v != null ==> v in Nodes(tree) && v.name == name && v.vec == Vars()[name]
      ensures steps <= Height(tree)
    {
      v := head.left;
      steps := 0;
      ghost var path, t := Top(head), tree;
      while v != null
        invariant Placed(path, t, v) && Header(path) == head && Plug(path, t) == tree
        invariant Fits(Before(path), name, After(path))
        invariant steps + Height(t) <= Height(tree)
        decreases t
      {
        assert allocated(PathNodes(path)) && allocated(Nodes(t));
        var cmp := Compare(name, v.name);
        Enter(path, t, v, cmp >= 0);
        if cmp == 0 {
          break;
        }
        StepFits(path, t, name);
        path, t := Below(path, t, cmp > 0), Child(t, cmp > 0);
        if cmp < 0 {
          v := v.left;
        } else {
          v := v.right;
        }
        steps := steps + 1;
      }
      assert v != null ==> t.Bin? && v == t.top.node && Holds(t.top);
      SearchAnswers(path, t, name);
    }

    /** plist: every variable once, in increasing key order, with no stack. At the label x the left
        subtree of p is done; `path` is the way to it. */
    method Plist() returns (out: seq<Entry>)
      requires Valid()
      ensures out == Entries(tree) && Sorted(out) && Contents(out) == Vars()
    {
      out := [];
      var p: Varent := head;
      ghost var path, t := Top(head), tree;
      while true
        invariant AtLeft(path, t, p, tree, head) && out == Before(path)
        invariant |out| <= |Entries(tree)|
        decreases |Entries(tree)| - |out|
      {
        ghost var printed := |out|;
        while p.left != null
          invariant AtLeft(path, t, p, tree, head) && out == Before(path)
          decreases t
        {
          Enter(path, t, p.left, false);
          p := p.left;
          path, t := Below(path, t, false), t.left;
        }
        assert t == Leaf;
        while true
          invariant AtLeft(path, t, p, tree, head) && out == Before(path) + Entries(t)
          invariant printed <= |out| <= |Entries(tree)|
          decreases |Entries(tree)| - |out|
        {
          if p.parent == null {
            return;
          }
          Leave(path, t, p.left);
          out := out + [Entry(p.name, p.vec)];
          PlugEntries(path, t);
          if p.right != null {
            path, t := Down(path.top, true, t, path.up), path.sibling;
            Enter(path, t, p.right, false);
            p := p.right;
            path, t := Below(path, t, false), t.left;
            break;
          }
          path, t, p := Climb(path, t, p, tree, head);
        }
      }
    }

    /** The inner loop of unset1: remove matching variables until madrof finds none. */
    method UnsetMatching(pat: Word) returns (r: Search)
      requires Valid() && Gmatch.Handled(pat)
      modifies this, head, Nodes(tree)
      ensures Valid() && Nodes(tree) <= old(Nodes(tree)) && !r.Hit?
      ensures r.Miss? ==> Vars() == Spared(old(Vars()), pat)
      ensures Gmatch.WellFormed(pat) ==> r.Miss?
    {
      hide Gmatch.Says, Gmatch.Handled, Gmatch.WellFormed, Contents, Entries, Spared;
      ghost var before := Vars();
      while true
        invariant Valid() && Nodes(tree) <= old(Nodes(tree))
        invariant Spared(Vars(), pat) == Spared(before, pat)
        decreases Nodes(tree)
      {
        assert allocated(Nodes(tree));
        ghost var k;
        r, k := Madrof(pat, head.left, Top(head), tree);
        if r.Hit? {
          ghost var m, k := Vars(), r.vp.name;
          ghost var freed := Unsetv1(r.vp);
          SpareAfterRemoval(m, k, pat);
        } else {
          if r.Miss? {
            NoneInMap(pat, Entries(tree));
          }
          return;
        }
      }
    }

    /** unset1: for every pattern, no variable it matches is left, and the others are untouched. */
    method Unset1(v: seq<Word>) returns (r: Search)
      requires Valid() && forall i :: 0 <= i < |v| ==> Gmatch.Handled(v[i])
      modifies this, head, Nodes(tree)
      ensures Valid() && Nodes(tree) <= old(Nodes(tree)) && !r.Hit?
      ensures r.Miss? ==> Vars() == SparedByAll(old(Vars()), v)
      ensures (forall i :: 0 <= i < |v| ==> Gmatch.WellFormed(v[i])) ==> r.Miss?
    {
      hide Gmatch.Says, Gmatch.Handled, Gmatch.WellFormed, Contents, Entries, Spared;
      r := Miss;
      ghost var before := Vars();
      for i := 0 to |v|
        invariant Valid() && Nodes(tree) <= old(Nodes(tree)) && r.Miss?
        invariant Vars() == SparedByAll(before, v[..i])
      {
        r := UnsetMatching(v[i]);
        if !r.Miss? {
          return;
        }
        assert v[..i + 1][..i] == v[..i];
      }
      assert v[..|v|] == v;
    }

    /** unsetv: an unknown name is an error and changes nothing. */
    method Unsetv(name: Word) returns (found: bool)
      requires Valid()
      modifies this, head, Nodes(tree)
      ensures Valid() && Nodes(tree) <= old(Nodes(tree))
      ensures found == (name in old(Vars())) && Vars() == old(Vars()) - {name}
    {
      hide Contents, Entries;
      assert allocated(Nodes(tree));
      ghost var steps;
      var vp;
      vp, steps := Adrof1(name);
      found := vp != null;
      if found {
        ghost var freed := Unsetv1(vp);
      }
    }
  }

  /** The calls of a session. */
  datatype Op = SetOp(name: Word, vec: Vec) | UnsetOp(name: Word)

  /** What they do to a plain map. */
  function Replay(ops: seq<Op>, m: map<Word, Vec>): map<Word, Vec> {
    if ops == [] then m
    else
      match ops[0]
      case SetOp(name, vec) => Replay(ops[1..], m[name := TrimVec(vec)])
      case UnsetOp(name) => Replay(ops[1..], m - {name})
  }

  /** After any sequence of calls on any table the tree is ordered, balanced and linked as Valid says, and
      its contents are those of a plain map with the same updates and removals. */
  method Session(table: VarTable, ops: seq<Op>)
    requires table.Valid()
    modifies table, table.head, Nodes(table.tree)
    ensures table.Valid() && table.Vars() == Replay(ops, old(table.Vars()))
    decreases |ops|
  {
    hide Contents, Entries, TrimVec;
    if ops != [] {
      match ops[0] {
        case SetOp(name, vec) =>
          table.Setq(name, vec);
        case UnsetOp(name) =>
          var found := table.Unsetv(name);
      }
      Session(table, ops[1..]);
    }
  }
}
