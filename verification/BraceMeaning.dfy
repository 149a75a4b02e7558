/** What brace patterns mean, independently of how glob.c expands them: a pattern is a sequence of
    characters, bracketed sets and groups of alternatives, and stands for the product of its parts with
    the leftmost group varying slowest. */
module BraceMeaning {
  import opened Strings
  import opened Braces

  datatype Pattern =
    | Nil
    | Chr(c: Char, tail: Pattern)
    | Set(inner: Word, tail: Pattern)
    | Group(alts: Alts, tail: Pattern)

  datatype Alts = One(p: Pattern) | More(p: Pattern, rest: Alts)

  function Render(p: Pattern): Word {
    match p
    case Nil => []
    case Chr(c, t) => [c] + Render(t)
    case Set(w, t) => [LBRK] + w + [RBRK] + Render(t)
    case Group(a, t) => [OPEN] + RenderAlts(a) + [CLOSE] + Render(t)
  }

  function RenderAlts(a: Alts): Word {
    match a
    case One(p) => Render(p)
    case More(p, r) => Render(p) + [COMMA] + RenderAlts(r)
  }

  /** A pattern inside a group: characters other than braces, commas and brackets stand for themselves, sets
      hold no closing bracket and no brace, and no group is `{}` (which the shell leaves alone when it is the
      whole word). */
  predicate Inner(p: Pattern) {
    match p
    case Nil => true
    case Chr(c, t) => c != OPEN && c != CLOSE && c != COMMA && c != LBRK && Inner(t)
    case Set(w, t) => (forall i :: 0 <= i < |w| ==> w[i] != RBRK && w[i] != OPEN) && Inner(t)
    case Group(a, t) => a != One(Nil) && InnerAlts(a) && Inner(t)
  }

  predicate InnerAlts(a: Alts) {
    Inner(a.p) && (a.More? ==> InnerAlts(a.rest))
  }

  /** Outside of groups any character but an opening brace stands for itself. */
  predicate Proper(p: Pattern) {
    match p
    case Nil => true
    case Chr(c, t) => c != OPEN && Proper(t)
    case Set(w, t) => (forall i :: 0 <= i < |w| ==> w[i] != OPEN) && Proper(t)
    case Group(a, t) => a != One(Nil) && InnerAlts(a) && Proper(t)
  }

  lemma {:induction false} InnerIsProper(p: Pattern)
    requires Inner(p)
    ensures Proper(p)
  {
    if !p.Nil? {
      InnerIsProper(p.tail);
    }
  }

  function Prefix(x: Word, ys: seq<Word>): (r: seq<Word>)
    ensures |r| == |ys|
  {
    seq(|ys|, i requires 0 <= i < |ys| => x + ys[i])
  }

  function Product(xs: seq<Word>, ys: seq<Word>): seq<Word> {
    if xs == [] then [] else Prefix(xs[0], ys) + Product(xs[1..], ys)
  }

  function Means(p: Pattern): seq<Word> {
    match p
    case Nil => [[]]
    case Chr(c, t) => Prefix([c], Means(t))
    case Set(w, t) => Prefix([LBRK] + w + [RBRK], Means(t))
    case Group(a, t) => Product(MeansAlts(a), Means(t))
  }

  function MeansAlts(a: Alts): seq<Word> {
    match a
    case One(p) => Means(p)
    case More(p, r) => Means(p) + MeansAlts(r)
  }

  // ---------------------------------------------------------------- the product

  lemma PrefixPrefix(x: Word, y: Word, zs: seq<Word>)
    ensures Prefix(x, Prefix(y, zs)) == Prefix(x + y, zs)
  {
    forall i | 0 <= i < |zs|
      ensures Prefix(x, Prefix(y, zs))[i] == Prefix(x + y, zs)[i]
    {
      assert x + (y + zs[i]) == x + y + zs[i];
    }
  }

  lemma PrefixEmpty(ys: seq<Word>)
    ensures Prefix([], ys) == ys
  {
    forall i | 0 <= i < |ys|
      ensures Prefix([], ys)[i] == ys[i]
    {
      assert [] + ys[i] == ys[i];
    }
  }

  lemma PrefixAppend(x: Word, ys: seq<Word>, zs: seq<Word>)
    ensures Prefix(x, ys + zs) == Prefix(x, ys) + Prefix(x, zs)
  {
  }

  lemma {:induction false} ProductAppend(xs: seq<Word>, ys: seq<Word>, zs: seq<Word>)
    ensures Product(xs + ys, zs) == Product(xs, zs) + Product(ys, zs)
    decreases |xs|
  {
    if xs == [] {
      assert xs + ys == ys;
    } else {
      assert (xs + ys)[1..] == xs[1..] + ys;
      ProductAppend(xs[1..], ys, zs);
    }
  }

  lemma {:induction false} ProductPrefix(x: Word, ys: seq<Word>, zs: seq<Word>)
    ensures Product(Prefix(x, ys), zs) == Prefix(x, Product(ys, zs))
    decreases |ys|
  {
    if ys != [] {
      assert Prefix(x, ys)[1..] == Prefix(x, ys[1..]);
      ProductPrefix(x, ys[1..], zs);
      PrefixPrefix(x, ys[0], zs);
      PrefixAppend(x, Prefix(ys[0], zs), Product(ys[1..], zs));
    }
  }

  lemma {:induction false} ProductAssociates(xs: seq<Word>, ys: seq<Word>, zs: seq<Word>)
    ensures Product(Product(xs, ys), zs) == Product(xs, Product(ys, zs))
    decreases |xs|
  {
    if xs != [] {
      ProductAssociates(xs[1..], ys, zs);
      ProductPrefix(xs[0], ys, zs);
      ProductAppend(Prefix(xs[0], ys), Product(xs[1..], ys), zs);
    }
  }

  // ---------------------------------------------------------------- gluing patterns

  function Join(p: Pattern, q: Pattern): Pattern {
    match p
    case Nil => q
    case Chr(c, t) => Chr(c, Join(t, q))
    case Set(w, t) => Set(w, Join(t, q))
    case Group(a, t) => Group(a, Join(t, q))
  }

  function Groups(p: Pattern): nat {
    match p
    case Nil => 0
    case Chr(_, t) => Groups(t)
    case Set(_, t) => Groups(t)
    case Group(a, t) => 1 + GroupsAlts(a) + Groups(t)
  }

  function GroupsAlts(a: Alts): nat {
    Groups(a.p) + if a.More? then GroupsAlts(a.rest) else 0
  }

  lemma {:induction false} JoinGlues(p: Pattern, q: Pattern)
    ensures Render(Join(p, q)) == Render(p) + Render(q)
    ensures Groups(Join(p, q)) == Groups(p) + Groups(q)
    ensures Proper(p) && Proper(q) ==> Proper(Join(p, q))
  {
    if !p.Nil? {
      JoinGlues(p.tail, q);
    }
  }

  lemma {:induction false} JoinMeans(p: Pattern, q: Pattern)
    ensures Means(Join(p, q)) == Product(Means(p), Means(q))
  {
    match p
    case Nil =>
      PrefixEmpty(Means(q));
    case Chr(c, t) =>
      JoinMeans(t, q);
      ProductPrefix([c], Means(t), Means(q));
    case Set(w, t) =>
      JoinMeans(t, q);
      ProductPrefix([LBRK] + w + [RBRK], Means(t), Means(q));
    case Group(a, t) =>
      JoinMeans(t, q);
      ProductAssociates(MeansAlts(a), Means(t), Means(q));
  }

  // ---------------------------------------------------------------- scanning rendered patterns

  /** r stands in s at k. */
  ghost predicate Reads(s: Word, k: nat, r: Word) {
    k + |r| <= |s| && s[k..k + |r|] == r
  }

  lemma ReadsParts(s: Word, k: nat, a: Word, b: Word)
    requires Reads(s, k, a + b)
    ensures Reads(s, k, a) && Reads(s, k + |a|, b)
  {
    assert s[k..k + |a|] == s[k..k + |a + b|][..|a|];
    assert s[k + |a|..k + |a| + |b|] == s[k..k + |a + b|][|a|..];
  }

  lemma ReadsChar(s: Word, k: nat, c: Char, rest: Word)
    requires Reads(s, k, [c] + rest)
    ensures k < |s| && s[k] == c && Reads(s, k + 1, rest)
  {
    ReadsParts(s, k, [c], rest);
    assert s[k..k + 1] == [c];
  }

  lemma SkipNothing(s: Word, k: nat)
    requires Reads(s, k, [])
    ensures k <= |s|
  {
  }

  /** A group read apart: its braces, what is between them, and the rest. */
  lemma ReadsGroup(s: Word, k: nat, x: Word, rest: Word)
    requires Reads(s, k, [OPEN] + x + [CLOSE] + rest)
    ensures k + |x| + 1 < |s| && s[k] == OPEN && s[k + 1 + |x|] == CLOSE
    ensures Reads(s, k + 1, x) && Reads(s, k + 2 + |x|, rest) && Reads(s, k + 1, x + [CLOSE])
  {
    ReadsParts(s, k, [OPEN] + x + [CLOSE], rest);
    assert [OPEN] + x + [CLOSE] == [OPEN] + (x + [CLOSE]);
    ReadsParts(s, k, [OPEN], x + [CLOSE]);
    ReadsParts(s, k + 1, x, [CLOSE]);
    assert s[k..k + 1] == [OPEN] && s[k + 1 + |x|..k + 2 + |x|] == [CLOSE];
  }

  /** An alternative read apart from the ones behind its comma. */
  lemma ReadsComma(s: Word, k: nat, x: Word, rest: Word)
    requires Reads(s, k, x + [COMMA] + rest)
    ensures k + |x| < |s| && s[k + |x|] == COMMA && Reads(s, k, x) && Reads(s, k + |x| + 1, rest)
  {
    ReadsParts(s, k, x + [COMMA], rest);
    ReadsParts(s, k, x, [COMMA]);
    assert s[k + |x|..k + |x| + 1] == [COMMA];
  }

  lemma {:induction false} FindIs(s: Word, c: int, k: nat, e: nat)
    requires k <= e < |s| && s[e] == c && forall i :: k <= i < e ==> s[i] != c
    ensures Find(s, c, k) == e
  {
  }

  /** Both scans of globbrace at (k, depth) do what they do at (e, depth2). */
  ghost predicate Same(s: Word, pl: nat, k: nat, depth: nat, e: nat, depth2: nat) {
    && pl <= k <= e <= |s| && FindClose(s, k, depth) == FindClose(s, e, depth2)
    && (FindClose(s, e, depth2).Ends? ==> Cut(s, pl, k, depth) == Cut(s, pl, e, depth2))
  }

  lemma SkipChar(s: Word, pl: nat, k: nat, depth: nat)
    requires pl <= k < |s| && s[k] != LBRK
    ensures s[k] == OPEN ==> Same(s, pl, k, depth, k + 1, depth + 1)
    ensures s[k] == CLOSE && depth > 0 ==> Same(s, pl, k, depth, k + 1, depth - 1)
    ensures s[k] == COMMA && depth > 0 ==> Same(s, pl, k, depth, k + 1, depth)
    ensures s[k] != OPEN && s[k] != CLOSE && s[k] != COMMA ==> Same(s, pl, k, depth, k + 1, depth)
  {
  }

  lemma SkipSet(s: Word, pl: nat, k: nat, depth: nat, w: Word)
    requires pl <= k && Reads(s, k, [LBRK] + w + [RBRK]) && forall i :: 0 <= i < |w| ==> w[i] != RBRK
    ensures Same(s, pl, k, depth, k + |w| + 2, depth)
  {
    ReadsParts(s, k, [LBRK] + w, [RBRK]);
    ReadsParts(s, k, [LBRK], w);
    var e := k + 1 + |w|;
    assert s[k] == LBRK && s[e] == RBRK;
    forall i | k + 1 <= i < e
      ensures s[i] != RBRK
    {
      assert s[i] == w[i - k - 1];
    }
    FindIs(s, RBRK, k + 1, e);
  }

  /** Both scans of globbrace pass over a pattern without noticing ... */
  lemma {:induction false} SkipPattern(s: Word, pl: nat, k: nat, depth: nat, p: Pattern)
    requires Inner(p) && Reads(s, k, Render(p)) && pl <= k
    ensures Same(s, pl, k, depth, k + |Render(p)|, depth)
    decreases p
  {
    hide FindClose, Cut, Reads;
    match p
    case Nil =>
      SkipNothing(s, k);
    case Chr(c, t) =>
      ReadsChar(s, k, c, Render(t));
      SkipChar(s, pl, k, depth);
      SkipPattern(s, pl, k + 1, depth, t);
    case Set(w, t) =>
      ReadsParts(s, k, [LBRK] + w + [RBRK], Render(t));
      SkipSet(s, pl, k, depth, w);
      SkipPattern(s, pl, k + |w| + 2, depth, t);
    case Group(a, t) =>
      var x := RenderAlts(a);
      ReadsGroup(s, k, x, Render(t));
      SkipChar(s, pl, k, depth);
      SkipAlts(s, pl, k + 1, depth + 1, a);
      SkipChar(s, pl, k + 1 + |x|, depth + 1);
      SkipPattern(s, pl, k + 2 + |x|, depth, t);
  }

  /** ... and over alternatives, inside a group. */
  lemma {:induction false} SkipAlts(s: Word, pl: nat, k: nat, depth: nat, a: Alts)
    requires InnerAlts(a) && Reads(s, k, RenderAlts(a)) && pl <= k && depth > 0
    ensures Same(s, pl, k, depth, k + |RenderAlts(a)|, depth)
    decreases a
  {
    hide FindClose, Cut, Reads;
    match a
    case One(p) => SkipPattern(s, pl, k, depth, p);
    case More(p, r) =>
      var e := k + |Render(p)|;
      ReadsComma(s, k, Render(p), RenderAlts(r));
      SkipPattern(s, pl, k, depth, p);
      SkipChar(s, pl, e, depth);
      SkipAlts(s, pl, e + 1, depth, r);
  }

  function Texts(a: Alts): seq<Word> {
    [Render(a.p)] + if a.More? then Texts(a.rest) else []
  }

  lemma CutChar(s: Word, pl: nat, k: nat)
    requires pl <= k < |s|
    ensures s[k] == CLOSE ==> FindClose(s, k, 0) == Ends(k) && Cut(s, pl, k, 0) == [s[pl..k]]
    ensures s[k] == COMMA ==> FindClose(s, k, 0) == FindClose(s, k + 1, 0)
    ensures s[k] == COMMA && FindClose(s, k, 0).Ends? ==> Cut(s, pl, k, 0) == [s[pl..k]] + Cut(s, k + 1, k + 1, 0)
  {
  }

  /** A group's closing brace is found, and its alternatives are cut apart. */
  lemma {:induction false} CutAlts(s: Word, k: nat, a: Alts)
    requires InnerAlts(a) && Reads(s, k, RenderAlts(a)) && k + |RenderAlts(a)| < |s| && s[k + |RenderAlts(a)|] == CLOSE
    ensures FindClose(s, k, 0) == Ends(k + |RenderAlts(a)|)
    ensures Cut(s, k, k, 0) == Texts(a)
    decreases a
  {
    hide FindClose, Cut;
    var e := k + |Render(a.p)|;
    match a
    case One(p) =>
      SkipPattern(s, k, k, 0, p);
      CutChar(s, k, e);
    case More(p, r) =>
      ReadsComma(s, k, Render(p), RenderAlts(r));
      SkipPattern(s, k, k, 0, p);
      CutChar(s, k, e);
      CutAlts(s, e + 1, r);
  }

  // ---------------------------------------------------------------- the first group

  function Ahead(p: Pattern): Pattern {
    match p
    case Nil => Nil
    case Chr(c, t) => Chr(c, Ahead(t))
    case Set(w, t) => Set(w, Ahead(t))
    case Group(_, _) => Nil
  }

  function First(p: Pattern): (g: Pattern)
    ensures g.Nil? || g.Group?
  {
    match p
    case Nil => p
    case Chr(_, t) => First(t)
    case Set(_, t) => First(t)
    case Group(_, _) => p
  }

  lemma {:induction false} AheadIsPlain(p: Pattern)
    requires Proper(p)
    ensures p == Join(Ahead(p), First(p)) && Proper(Ahead(p)) && Proper(First(p))
    ensures Groups(Ahead(p)) == 0 && Groups(First(p)) == Groups(p)
    ensures forall i :: 0 <= i < |Render(Ahead(p))| ==> Render(Ahead(p))[i] != OPEN
    ensures Means(Ahead(p)) == [Render(Ahead(p))]
  {
    match p
    case Nil =>
    case Chr(c, t) => AheadIsPlain(t);
    case Set(w, t) => AheadIsPlain(t);
    case Group(_, _) =>
  }

  // ---------------------------------------------------------------- the theorem

  lemma {:induction false} EmptyRender(p: Pattern)
    ensures Render(p) == [] <==> p == Nil
  {
  }

  lemma EmptyAlts(a: Alts)
    ensures RenderAlts(a) == [] <==> a == One(Nil)
  {
    EmptyRender(a.p);
  }

  /** globbrace on a rendered pattern: one word per alternative of the first group. */
  lemma FirstAlternatives(p: Pattern)
    requires Proper(p) && First(p).Group?
    ensures var w := Render(p);
            && Find(w, OPEN, 0) < |w| && !Lone(w)
            && Alternatives(w) == Words(Around(Render(Ahead(p)), Texts(First(p).alts), Render(First(p).tail)))
  {
    hide Render, RenderAlts, Proper, InnerAlts, Inner, Ahead, First, Join, Groups, Means, Alternatives, Texts, Around, Find, Lone, Reads;
    var b, g := Ahead(p), First(p);
    AheadIsPlain(p);
    JoinGlues(b, g);
    GroupText(g);
    GroupParts(Render(p), Render(b), RenderAlts(g.alts), Render(g.tail));
    CutGroup(Render(p), |Render(b)|, g.alts);
  }

  lemma GroupText(g: Pattern)
    requires g.Group? && Proper(g)
    ensures Render(g) == [OPEN] + RenderAlts(g.alts) + [CLOSE] + Render(g.tail)
    ensures RenderAlts(g.alts) != [] && InnerAlts(g.alts)
  {
    EmptyAlts(g.alts);
  }

  lemma CutGroup(w: Word, k: nat, a: Alts)
    requires InnerAlts(a) && RenderAlts(a) != []
    requires k + |RenderAlts(a)| + 1 < |w| && w[k] == OPEN && w[k + 1 + |RenderAlts(a)|] == CLOSE
    requires Reads(w, k + 1, RenderAlts(a)) && forall i :: 0 <= i < k ==> w[i] != OPEN
    ensures Find(w, OPEN, 0) == k && !Lone(w)
    ensures Alternatives(w) == Words(Around(w[..k], Texts(a), w[k + 1 + |RenderAlts(a)| + 1..]))
  {
    hide FindClose, Cut, RenderAlts, InnerAlts, Texts, Reads, Lone, Around, Find;
    FindIs(w, OPEN, 0, k);
    LongIsNotLone(w);
    CutAlts(w, k + 1, a);
  }

  lemma LongIsNotLone(w: Word)
    requires |w| > 2
    ensures !Lone(w)
  {
  }

  lemma GroupParts(w: Word, x: Word, y: Word, z: Word)
    requires w == x + ([OPEN] + y + [CLOSE] + z)
    ensures |w| == |x| + |y| + |z| + 2 && w[..|x|] == x && w[|x| + 1 + |y| + 1..] == z
    ensures w[|x|] == OPEN && w[|x| + 1 + |y|] == CLOSE && Reads(w, |x| + 1, y)
    ensures forall i :: 0 <= i < |x| ==> w[i] == x[i]
  {
    assert w[|x|..|x| + |[OPEN] + y + [CLOSE] + z|] == [OPEN] + y + [CLOSE] + z;
    ReadsGroup(w, |x|, y, z);
  }

  /** Expanding what a pattern renders to gives what it means, word for word and in order. */
  lemma {:induction false} ExpandMeans(p: Pattern)
    requires Proper(p)
    ensures Expand(Render(p)) == Words(Means(p))
    decreases Groups(p), 0
  {
    var b, g := Ahead(p), First(p);
    AheadIsPlain(p);
    JoinGlues(b, g);
    JoinMeans(b, g);
    if g.Nil? {
      assert Render(p) == Render(b);
      PrefixEmpty([Render(b)]);
      assert Means(p) == [Render(p)];
    } else {
      FirstAlternatives(p);
      ExpandMeansAlts(b, g.alts, g.tail);
    }
  }

  lemma {:induction false} ExpandMeansAlts(b: Pattern, a: Alts, t: Pattern)
    requires Proper(b) && InnerAlts(a) && Proper(t) && Groups(b) == 0 && Means(b) == [Render(b)]
    ensures ExpandAll(Around(Render(b), Texts(a), Render(t))) == Words(Product(Means(b), Product(MeansAlts(a), Means(t))))
    decreases GroupsAlts(a) + Groups(t), 1, a
  {
    hide Product, Texts, ExpandAll, Expand, Around, Prefix, Render, Groups, Proper, Inner, Means;
    var x, z := Render(b), Render(t);
    var q := Join(b, Join(a.p, t));
    InnerIsProper(a.p);
    JoinGlues(a.p, t);
    JoinGlues(b, Join(a.p, t));
    JoinMeans(a.p, t);
    JoinMeans(b, Join(a.p, t));
    ExpandMeans(q);
    AroundTexts(x, a, z);
    OneProduct(x, Product(MeansAlts(a), Means(t)));
    OneProduct(x, Product(Means(a.p), Means(t)));
    match a
    case One(_) =>
      ExpandCons(Render(q), []);
    case More(_, r) =>
      ExpandMeansAlts(b, r, t);
      ExpandCons(Render(q), Around(x, Texts(r), z));
      ProductAppend(Means(a.p), MeansAlts(r), Means(t));
      PrefixAppend(x, Product(Means(a.p), Means(t)), Product(MeansAlts(r), Means(t)));
      OneProduct(x, Product(MeansAlts(r), Means(t)));
  }

  lemma AroundTexts(x: Word, a: Alts, z: Word)
    ensures Around(x, Texts(a), z) == [x + (Render(a.p) + z)] + if a.More? then Around(x, Texts(a.rest), z) else []
  {
    assert x + Render(a.p) + z == x + (Render(a.p) + z);
  }

  lemma ExpandCons(w: Word, ws: seq<Word>)
    ensures ExpandAll([w] + ws) == Append(Expand(w), ExpandAll(ws))
    ensures Expand(w).Words? && ws == [] ==> ExpandAll([w] + ws) == Expand(w)
  {
    assert ([w] + ws)[1..] == ws;
  }

  lemma OneProduct(x: Word, ys: seq<Word>)
    ensures Product([x], ys) == Prefix(x, ys)
  {
  }
}
