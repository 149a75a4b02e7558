/** The syntax of commands as they are written (parse.c): words and redirections in any order, parentheses, pipes with
    and without the error output, `&&`, `||`, lists, and commands in the background; what tree each stands for; and
    the theorem that the parser builds it. */
module ParseSource {
  import opened Common
  import opened Strings
  import opened Parse
  import opened ParsePrint

  /** A word of a command, or a redirection: `<` and `<<`, `>` and `>>` with the error output or over a file. */
  datatype Part = Word(w: Strings.Word) | In(here: bool, file: Strings.Word)
                | Out(append: bool, both: bool, over: bool, file: Strings.Word)

  datatype Source =
    | Simply(parts: seq<Part>)
    | Parens(before: seq<Part>, inner: Source, behind: seq<Part>)
    | Piped(l: Source, both: bool, r: Source)
    | AndThen(l: Source, r: Source)
    | OrElse(l: Source, r: Source)
    | Then(l: Source, sep: Strings.Word, r: Source)
    | Detached(l: Source, r: Source)
    | Skipping(sep: Strings.Word, r: Source)
    | Nothing

  const NEWLINE_WORD: Strings.Word := [NEWLINE]
  const AMP_WORD: Strings.Word := [AMP]

  // ---------------------------------------------------------------- text

  function PartText(p: Part): seq<Strings.Word> {
    match p
    case Word(w) => [w]
    case In(here, file) => [if here then [LT, LT] else [LT], file]
    case Out(append, both, over, file) =>
      [if append then [GT, GT] else [GT]] + (if both then [AMP_WORD] else []) + (if over then [['!' as int]] else []) + [file]
  }

  function PartsText(ps: seq<Part>): seq<Strings.Word> {
    if ps == [] then [] else PartText(ps[0]) + PartsText(ps[1..])
  }

  function Text(s: Source): seq<Strings.Word> {
    match s
    case Simply(parts) => PartsText(parts)
    case Parens(before, inner, behind) => PartsText(before) + ([LP_WORD] + Text(inner) + [RP_WORD] + PartsText(behind))
    case Piped(l, both, r) => Text(l) + [PIPE_WORD] + ((if both then [AMP_WORD] else []) + Text(r))
    case AndThen(l, r) => Text(l) + [AND2_WORD] + Text(r)
    case OrElse(l, r) => Text(l) + [OR_WORD] + Text(r)
    case Then(l, sep, r) => Text(l) + [sep] + Text(r)
    case Detached(l, r) => Text(l) + [AMP_WORD] + Text(r)
    case Skipping(sep, r) => [sep] + Text(r)
    case Nothing => []
  }

  // ---------------------------------------------------------------- trees

  /** The words of a command, where its input and output come from, and its flags. */
  datatype Gathered = Gathered(av: seq<Strings.Word>, lef: Option<Strings.Word>, rit: Option<Strings.Word>, flags: set<Flag>)

  function Gather(p: Part, g: Gathered): Gathered {
    match p
    case Word(w) => g.(av := g.av + [w])
    case In(here, file) => g.(lef := Some(file), flags := g.flags + if here then {Read} else {})
    case Out(append, both, over, file) =>
      g.(rit := Some(file), flags := g.flags + (if append then {Append} else {}) + (if both then {Stderr} else {})
                                     + (if over then {Overwrite} else {}))
  }

  function GatherAll(ps: seq<Part>, g: Gathered): Gathered {
    if ps == [] then g else GatherAll(ps[1..], Gather(ps[0], g))
  }

  /** Nothing gathered yet; a command in front of a closing parenthesis need not fork. */
  function Empty(ends: bool): Gathered {
    Gathered([], None, None, if ends then {NoFork} else {})
  }

  /** A command in the background, which no interrupt reaches; what consists of several commands runs in a shell of
      its own. */
  function Detach(t: Command): Command {
    match t
    case Simple(av, lef, rit, flags) => Simple(av, lef, rit, flags + {NoInterrupt, Ampersand})
    case Paren(sub, lef, rit, flags) => Paren(sub, lef, rit, flags + {NoInterrupt, Ampersand})
    case Pipe(car, cdr, flags) => Pipe(car, cdr, flags + {NoInterrupt, Ampersand})
    case _ => Paren(t, None, None, {NoInterrupt, Ampersand})
  }

  function Tree(s: Source, ends: bool): Command {
    match s
    case Simply(parts) =>
      var g := GatherAll(parts, Empty(ends));
      Simple(g.av, g.lef, g.rit, g.flags)
    case Parens(before, inner, behind) =>
      var g := GatherAll(behind, GatherAll(before, Empty(ends)));
      Paren(Tree(inner, true), g.lef, g.rit, g.flags)
    case Piped(l, both, r) => Pipe(Tree(l, false), Tree(r, ends), if both then {Stderr} else {})
    case AndThen(l, r) => And(Tree(l, false), Tree(r, ends))
    case OrElse(l, r) => Or(Tree(l, false), Tree(r, ends))
    case Then(l, _, r) =>
      if Tree(r, ends).Null? then List(Null, Tree(l, false)) else List(Tree(l, false), Tree(r, ends))
    case Detached(l, r) => List(Detach(Tree(l, false)), Tree(r, ends))
    case Skipping(_, r) => Tree(r, ends)
    case Nothing => Null
  }

  // ---------------------------------------------------------------- what may be written

  /** Redirections the parser accepts behind what was gathered. */
  predicate Permitted(p: Part, g: Gathered, ctx: set<Ctx>) {
    match p
    case Word(_) => true
    case In(here, file) =>
      Plain(file) && g.lef.None? && PIn !in ctx && (Here in ctx ==> !here && Read !in g.flags)
    case Out(_, both, over, file) =>
      && Plain(file) && (!over ==> file != BANG_WORD)
      && (both ==> POut !in ctx && PErr !in ctx) && (POut in ctx ==> PErr in ctx && g.rit.None?)
  }

  /** Parts of a command: plain words, in a keyword command also parentheses with anything inside, and redirections
      outside of those. */
  predicate GoodParts(ps: seq<Part>, special: bool, l: nat, g: Gathered, ctx: set<Ctx>) {
    if ps == [] then l == 0
    else
      && Permitted(ps[0], g, ctx)
      && (if ps[0].Word? then
            && (First(ps[0].w) == RPAR ==> l > 0)
            && (l == 0 ==> Plain(ps[0].w) || (special && First(ps[0].w) == LPAR))
            && GoodParts(ps[1..], special, Inside(ps[0].w, l), Gather(ps[0], g), ctx)
          else l == 0 && GoodParts(ps[1..], special, l, Gather(ps[0], g), ctx))
  }

  predicate Redirections(ps: seq<Part>) {
    forall p <- ps :: !p.Word?
  }

  predicate Separator(w: Strings.Word) {
    w == SEMI_WORD || w == NEWLINE_WORD
  }

  /** What may stand at a level: 0 holds commands in the background, 1 lists, 2 `||`, 3 `&&`, 4 pipes, 5 single
      commands. */
  predicate Good(s: Source, level: nat, ctx: set<Ctx>)
    decreases s, 0
  {
    match s
    case Simply(parts) =>
      GoodParts(parts, Special(PartsText(parts)), 0, Empty(false), ctx) && GatherAll(parts, Empty(false)).av != []
    case Parens(before, inner, behind) =>
      && Good(inner, 0, {Here}) && Redirections(before) && Redirections(behind)
      && GoodParts(before + behind, false, 0, Empty(false), ctx)
    case Piped(l, both, r) =>
      level <= 4 && Good(l, 5, ctx + {POut} + if both then {PErr} else {}) && Good(r, 4, ctx + {PIn})
    case AndThen(l, r) => level <= 3 && Good(l, 4, ctx) && Good(r, 3, ctx)
    case OrElse(l, r) => level <= 2 && Good(l, 3, ctx) && Good(r, 2, ctx)
    case Then(l, sep, r) => level <= 1 && Separator(sep) && Good(l, 2, ctx) && Remains(r, 1, ctx)
    case Detached(l, r) => level == 0 && Good(l, 1, ctx) && Remains(r, 0, ctx)
    case _ => false
  }

  /** What may be left behind a separator: nothing, more separators, or a source of that level. */
  predicate Remains(s: Source, level: nat, ctx: set<Ctx>)
    decreases s, 1
  {
    match s
    case Nothing => true
    case Skipping(sep, r) => (Separator(sep) || sep == AND2_WORD || (level == 0 && sep == AMP_WORD)) && Remains(r, level, ctx)
    case _ => Good(s, level, ctx)
  }

  // ---------------------------------------------------------------- the words of a command

  /** The flag of the closing parenthesis does not matter to what is permitted. */
  predicate Alike(g: Gathered, h: Gathered) {
    g.lef == h.lef && g.rit == h.rit && (Read in g.flags <==> Read in h.flags)
  }

  predicate Matches(g: Gathered, s: Partial) {
    s.av == g.av && s.lef == g.lef && s.rit == g.rit && s.flags == g.flags
  }

  /** The loop of syn3 gets from p to q, where it stands at t. */
  predicate Reaches(seg: seq<Strings.Word>, p: nat, s: Partial, ctx: set<Ctx>, special: bool, q: nat, t: Partial) {
    && p <= |seg| && Sane(s, p) && Depth(seg[p..], s.l) == 0
    && q <= |seg| && Sane(t, q) && Depth(seg[q..], t.l) == 0
    && Words(seg, p, ctx, special, s) == Words(seg, q, ctx, special, t)
  }

  lemma PartStep(seg: seq<Strings.Word>, p: nat, part: Part, ctx: set<Ctx>, special: bool, s: Partial, g: Gathered, h: Gathered)
      returns (t: Partial)
    requires p <= |seg| && Sane(s, p) && Depth(seg[p..], s.l) == 0 && Matches(g, s) && Alike(g, h)
    requires p + |PartText(part)| <= |seg| && seg[p..p + |PartText(part)|] == PartText(part)
    requires Permitted(part, h, ctx) && (!special ==> s.l == 0)
    requires part.Word? ==> (First(part.w) == RPAR ==> s.l > 0) && (s.l == 0 ==> Plain(part.w) || (special && First(part.w) == LPAR))
    requires !part.Word? ==> s.l == 0
    ensures Reaches(seg, p, s, ctx, special, p + |PartText(part)|, t)
    ensures Matches(Gather(part, g), t) && Alike(Gather(part, g), Gather(part, h))
    ensures t.l == (if part.Word? then Inside(part.w, s.l) else 0) && (!special ==> t.lp == s.lp && t.rp == s.rp)
  {
    hide Depth, Words;
    var x := PartText(part);
    assert forall i :: 0 <= i < |x| ==> seg[p + i] == seg[p..p + |x|][i] == x[i];
    if part.Word? {
      WordsStep(seg, p, ctx, special, s);
      t := Stored(seg[p], p, special, s);
    } else {
      t := RedirectStep(seg, p, part, ctx, special, s, g, h);
    }
  }

  lemma RedirectStep(seg: seq<Strings.Word>, p: nat, part: Part, ctx: set<Ctx>, special: bool, s: Partial, g: Gathered, h: Gathered)
      returns (t: Partial)
    requires Sane(s, p) && s.l == 0 && !part.Word? && Matches(g, s) && Alike(g, h) && Permitted(part, h, ctx)
    requires p + |PartText(part)| <= |seg| && Depth(seg[p..], 0) == 0
    requires forall i :: 0 <= i < |PartText(part)| ==> seg[p + i] == PartText(part)[i]
    ensures Reaches(seg, p, s, ctx, special, p + |PartText(part)|, t)
    ensures Matches(Gather(part, g), t) && t.l == 0 && t.lp == s.lp && t.rp == s.rp
  {
    hide *;
    var y := Gather(part, g);
    t := s.(lef := y.lef, rit := y.rit, flags := y.flags);
    MatchesAfter(part, g, s);
    RedirectIs(seg, p, part, ctx, s, g, h);
    RedirectTo(seg, p, ctx, special, s, t, p + |PartText(part)|);
  }

  lemma RedirectTo(seg: seq<Strings.Word>, p: nat, ctx: set<Ctx>, special: bool, s: Partial, t: Partial, q: nat)
    requires p < |seg| && Sane(s, p) && s.l == 0 && Depth(seg[p..], 0) == 0
    requires (First(seg[p]) == LT && Input(seg, p, ctx, s) == Ok(Redirect(t, q)))
             || (First(seg[p]) == GT && Output(seg, p, ctx, s) == Ok(Redirect(t, q)))
    ensures Reaches(seg, p, s, ctx, special, q, t) && t.l == s.l && t.lp == s.lp && t.rp == s.rp
  {
    hide Depth, Words, Input, Output;
    WordsRedirect(seg, p, ctx, special, s);
  }

  lemma RedirectIs(seg: seq<Strings.Word>, p: nat, part: Part, ctx: set<Ctx>, s: Partial, g: Gathered, h: Gathered)
    requires s.l == 0 && !part.Word? && Matches(g, s) && Alike(g, h) && Permitted(part, h, ctx)
    requires p + |PartText(part)| <= |seg|
    requires forall i :: 0 <= i < |PartText(part)| ==> seg[p + i] == PartText(part)[i]
    ensures |PartText(part)| > 0 && First(seg[p]) == if part.In? then LT else GT
    ensures var y, q := Gather(part, g), p + |PartText(part)|;
            var t := s.(lef := y.lef, rit := y.rit, flags := y.flags);
            (if part.In? then Input(seg, p, ctx, s) else Output(seg, p, ctx, s)) == Ok(Redirect(t, q))
  {
    hide Depth;
    var x := PartText(part);
    assert seg[p] == x[0] && seg[p + 1] == x[1] && (|x| > 2 ==> seg[p + 2] == x[2]) && (|x| > 3 ==> seg[p + 3] == x[3]);
    if part.In? {
      InIs(seg, p, part, ctx, s, g, h);
    } else {
      OutIs(seg, p, part, ctx, s, g, h);
    }
  }

  lemma MatchesAfter(part: Part, g: Gathered, s: Partial)
    requires Matches(g, s) && !part.Word?
    ensures var y := Gather(part, g); Matches(y, s.(lef := y.lef, rit := y.rit, flags := y.flags))
  {
  }

  lemma InIs(seg: seq<Strings.Word>, p: nat, part: Part, ctx: set<Ctx>, s: Partial, g: Gathered, h: Gathered)
    requires s.l == 0 && part.In? && Matches(g, s) && Alike(g, h) && Permitted(part, h, ctx)
    requires p + 2 <= |seg| && seg[p] == PartText(part)[0] && seg[p + 1] == part.file
    ensures Input(seg, p, ctx, s) == Ok(Redirect(s.(lef := Gather(part, g).lef, flags := Gather(part, g).flags), p + 2))
  {
    hide Depth;
  }

  lemma OutIs(seg: seq<Strings.Word>, p: nat, part: Part, ctx: set<Ctx>, s: Partial, g: Gathered, h: Gathered)
    requires s.l == 0 && part.Out? && Matches(g, s) && Alike(g, h) && Permitted(part, h, ctx)
    requires var x := PartText(part);
             && p + |x| <= |seg| && seg[p] == x[0] && seg[p + 1] == x[1]
             && (|x| > 2 ==> seg[p + 2] == x[2]) && (|x| > 3 ==> seg[p + 3] == x[3])
    ensures var t := s.(rit := Gather(part, g).rit, flags := Gather(part, g).flags);
            Output(seg, p, ctx, s) == Ok(Redirect(t, p + |PartText(part)|))
  {
    hide Depth;
  }

  /** One part after the other. */
  lemma {:induction false} RunParts(seg: seq<Strings.Word>, p: nat, ps: seq<Part>, ctx: set<Ctx>, special: bool, s: Partial,
                                    g: Gathered, h: Gathered) returns (t: Partial)
    requires p <= |seg| && Sane(s, p) && Depth(seg[p..], s.l) == 0 && Matches(g, s) && Alike(g, h)
    requires p + |PartsText(ps)| <= |seg| && seg[p..p + |PartsText(ps)|] == PartsText(ps)
    requires GoodParts(ps, special, s.l, h, ctx) && (!special ==> s.l == 0)
    ensures var q := p + |PartsText(ps)|;
            && Sane(t, q) && Depth(seg[q..], 0) == 0 && t.l == 0 && Matches(GatherAll(ps, g), t)
            && Alike(GatherAll(ps, g), GatherAll(ps, h)) && (!special ==> t.lp == s.lp && t.rp == s.rp)
            && Words(seg, p, ctx, special, s) == Words(seg, q, ctx, special, t)
    decreases |ps|
  {
    hide Depth, Words, Permitted, PartText, Matches, Alike;
    if ps == [] {
      t := s;
    } else {
      var x, rest := PartText(ps[0]), PartsText(ps[1..]);
      var q := p + |x|;
      assert seg[p..q] == seg[p..p + |x + rest|][..|x|] == x;
      assert seg[q..q + |rest|] == seg[p..p + |x + rest|][|x|..] == rest;
      var u := PartStep(seg, p, ps[0], ctx, special, s, g, h);
      if !special {
        hide GoodParts;
        FlatParts(ps, h, ctx);
      }
      t := RunParts(seg, q, ps[1..], ctx, special, u, Gather(ps[0], g), Gather(ps[0], h));
    }
  }

  /** Without a keyword there are no parentheses among the words. */
  lemma FlatParts(ps: seq<Part>, h: Gathered, ctx: set<Ctx>)
    requires ps != [] && GoodParts(ps, false, 0, h, ctx)
    ensures GoodParts(ps[1..], false, 0, Gather(ps[0], h), ctx)
    ensures ps[0].Word? ==> Inside(ps[0].w, 0) == 0
  {
  }

  lemma {:induction false} GoodSplit(a: seq<Part>, b: seq<Part>, h: Gathered, ctx: set<Ctx>)
    requires Redirections(a) && GoodParts(a + b, false, 0, h, ctx)
    ensures GoodParts(a, false, 0, h, ctx) && GoodParts(b, false, 0, GatherAll(a, h), ctx)
    decreases |a|
  {
    hide Permitted;
    if a == [] {
      assert a + b == b;
    } else {
      assert (a + b)[1..] == a[1..] + b;
      GoodSplit(a[1..], b, Gather(a[0], h), ctx);
    }
  }

  lemma EmptyAlike(ends: bool)
    ensures Alike(Empty(ends), Empty(false)) && Matches(Empty(ends), Start(ends))
  {
  }

  /** Words are gathered whatever the flags are. */
  lemma {:induction false} SameWords(ps: seq<Part>, g: Gathered, h: Gathered)
    requires g.av == h.av
    ensures GatherAll(ps, g).av == GatherAll(ps, h).av
    decreases |ps|
  {
    if ps != [] {
      SameWords(ps[1..], Gather(ps[0], g), Gather(ps[0], h));
    }
  }

  lemma {:induction false} NoWords(ps: seq<Part>, g: Gathered)
    requires Redirections(ps)
    ensures GatherAll(ps, g).av == g.av
    decreases |ps|
  {
    if ps != [] {
      NoWords(ps[1..], Gather(ps[0], g));
    }
  }

  lemma ReadSimply(parts: seq<Part>, ctx: set<Ctx>, ends: bool)
    requires Good(Simply(parts), 5, ctx) && Balanced(PartsText(parts))
    ensures Syn3(PartsText(parts), ends, ctx) == Ok(Tree(Simply(parts), ends))
  {
    hide Depth, Words, GoodParts, GatherAll, PartsText, Matches, Alike;
    var seg := PartsText(parts);
    assert seg[0..] == seg[0..|seg|] == seg;
    EmptyAlike(ends);
    var t := RunParts(seg, 0, parts, ctx, Special(seg), Start(ends), Empty(ends), Empty(false));
    SameWords(parts, Empty(ends), Empty(false));
    assert Words(seg, |seg|, ctx, Special(seg), t) == Ok(t) by {
      WordsEnd(seg, ctx, Special(seg), t);
    }
    assert Start(ends).lp == -1;
    MatchesFields(GatherAll(parts, Empty(ends)), t);
  }

  lemma WordsEnd(seg: seq<Strings.Word>, ctx: set<Ctx>, special: bool, s: Partial)
    requires Sane(s, |seg|) && s.l == 0 && Depth(seg[|seg|..], 0) == 0
    ensures Words(seg, |seg|, ctx, special, s) == Ok(s)
  {
  }

  lemma MatchesFields(g: Gathered, s: Partial)
    requires Matches(g, s)
    ensures s.av == g.av && s.lef == g.lef && s.rit == g.rit && s.flags == g.flags
  {
  }

  lemma NoKeyword(seg: seq<Strings.Word>)
    requires seg != [] && (First(seg[0]) == LPAR || First(seg[0]) == LT || First(seg[0]) == GT)
    ensures !Special(seg)
  {
    assert Chars("exit")[0] == 'e' as int && Chars("else")[0] == 'e' as int && Chars("foreach")[0] == 'f' as int;
    assert Chars("if")[0] == 'i' as int && Chars("@")[0] == '@' as int && Chars("set")[0] == 's' as int;
    assert Chars("switch")[0] == 's' as int && Chars("while")[0] == 'w' as int;
  }

  lemma ParensStart(before: seq<Part>, rest: seq<Strings.Word>)
    requires Redirections(before)
    ensures !Special(PartsText(before) + ([LP_WORD] + rest))
  {
    var seg := PartsText(before) + ([LP_WORD] + rest);
    if before != [] {
      assert seg[0] == PartText(before[0])[0];
    } else {
      assert seg[0] == LP_WORD;
    }
    NoKeyword(seg);
  }

  lemma SliceOf(seg: seq<Strings.Word>, p: nat, q: nat, a: nat, b: nat)
    requires p <= q <= |seg| && a <= b <= q - p
    ensures seg[p..q][a..b] == seg[p + a..p + b]
  {
    var x, y := seg[p..q][a..b], seg[p + a..p + b];
    assert |x| == |y| && forall i :: 0 <= i < b - a ==> x[i] == seg[p..q][a + i] == y[i];
  }

  /** The parenthesized part is passed over, and kept as it stands. */
  lemma RunInner(seg: seq<Strings.Word>, p: nat, inner: seq<Strings.Word>, ctx: set<Ctx>, s: Partial) returns (t: Partial)
    requires p <= |seg| && Sane(s, p) && s.l == 0 && s.lp == -1 && Depth(seg[p..], 0) == 0 && Balanced(inner)
    requires p + |inner| + 2 <= |seg| && seg[p..p + |inner| + 2] == [LP_WORD] + inner + [RP_WORD]
    ensures var q := p + |inner| + 2;
            && t == s.(lp := p + 1, rp := q - 1) && Sane(t, q) && Depth(seg[q..], 0) == 0 && seg[t.lp..t.rp] == inner
            && Words(seg, p, ctx, false, s) == Words(seg, q, ctx, false, t)
  {
    hide Depth, Words, Output, Input;
    var n, x := p + |inner| + 1, seg[p..p + |inner| + 2];
    assert x[0] == seg[p] == LP_WORD && x[|inner| + 1] == seg[n] == RP_WORD;
    SliceOf(seg, p, p + |inner| + 2, 1, |inner| + 1);
    assert ([LP_WORD] + inner + [RP_WORD])[1..|inner| + 1] == inner;
    WordsStep(seg, p, ctx, false, s);
    var s1 := s.(lp := p + 1, l := 1);
    assert Stored(seg[p], p, false, s) == s1;
    SkipInner(seg, n, p + 1, ctx, s1);
    t := s1.(rp := n, l := 0);
    WordsStep(seg, n, ctx, false, s1);
    assert Stored(seg[n], n, false, s1) == t;
  }

  lemma ReadParens(s: Source, ctx: set<Ctx>, ends: bool)
    requires s.Parens? && Good(s, 5, ctx) && Balanced(Text(s)) && Balanced(Text(s.inner))
    requires Syn0(Text(s.inner), true, {Here}) == Ok(Tree(s.inner, true))
    ensures Syn3(Text(s), ends, ctx) == Ok(Tree(s, ends))
  {
    hide Depth, Words, GoodParts, GatherAll, PartsText, Matches, Alike, Syn0, Special;
    var seg, b, x, e := Text(s), PartsText(s.before), Text(s.inner), PartsText(s.behind);
    var mid := [LP_WORD] + x + [RP_WORD];
    assert seg == b + (mid + e);
    assert seg[0..] == seg && seg[0..|b|] == b;
    assert mid + e == [LP_WORD] + (x + [RP_WORD] + e);
    ParensStart(s.before, x + [RP_WORD] + e);
    GoodSplit(s.before, s.behind, Empty(false), ctx);
    EmptyAlike(ends);
    var t1 := RunParts(seg, 0, s.before, ctx, false, Start(ends), Empty(ends), Empty(false));
    var g1, h1 := GatherAll(s.before, Empty(ends)), GatherAll(s.before, Empty(false));
    assert seg[|b|..|b| + |mid|] == mid;
    var t2 := RunInner(seg, |b|, x, ctx, t1);
    assert Matches(g1, t2) by { KeepsMatch(g1, t1, t2); }
    var q := |b| + |mid|;
    assert seg[q..q + |e|] == e && q + |e| == |seg|;
    var t := RunParts(seg, q, s.behind, ctx, false, t2, g1, h1);
    NoWords(s.before, Empty(ends));
    NoWords(s.behind, g1);
    WordsEnd(seg, ctx, false, t);
    MatchesFields(GatherAll(s.behind, g1), t);
  }

  lemma KeepsMatch(g: Gathered, s: Partial, t: Partial)
    requires Matches(g, s) && t.av == s.av && t.lef == s.lef && t.rit == s.rit && t.flags == s.flags
    ensures Matches(g, t)
  {
  }

  // ---------------------------------------------------------------- what the scans see

  lemma {:induction false} PartsQuiet(level: Level, ps: seq<Part>, special: bool, l: nat, h: Gathered, ctx: set<Ctx>)
    requires GoodParts(ps, special, l, h, ctx)
    ensures Quiet(level, PartsText(ps), l)
    decreases |ps|
  {
    hide Gather, GatherAll;
    if ps != [] {
      var x, rest := PartText(ps[0]), PartsText(ps[1..]);
      if ps[0].Word? {
        PartsQuiet(level, ps[1..], special, Inside(ps[0].w, l), Gather(ps[0], h), ctx);
        assert (x + rest)[1..] == rest;
      } else {
        PartsQuiet(level, ps[1..], special, l, Gather(ps[0], h), ctx);
        hide Quiet;
        QuietPlain(level, x);
        QuietAppend(level, x, rest, 0);
      }
    }
  }

  lemma {:induction false} PartsAmpQuiet(ps: seq<Part>, special: bool, l: nat, h: Gathered, ctx: set<Ctx>)
    requires GoodParts(ps, special, l, h, ctx)
    ensures AmpQuiet(PartsText(ps), l)
    decreases |ps|
  {
    hide Gather, GatherAll;
    if ps != [] {
      var x, rest := PartText(ps[0]), PartsText(ps[1..]);
      if ps[0].Word? {
        var c := First(ps[0].w);
        assert (x + rest)[1..] == rest;
        if (c == GT || (c == BAR && At(ps[0].w, 1) != BAR)) && rest != [] && rest[0] == AND_WORD {
          var h1 := Gather(ps[0], h);
          assert ps[1].Word? && ps[1..][1..] == ps[2..] && rest == PartText(ps[1]) + PartsText(ps[2..]);
          assert (x + rest)[2..] == PartsText(ps[2..]);
          PartsAmpQuiet(ps[2..], special, l, Gather(ps[1], h1), ctx);
        } else {
          PartsAmpQuiet(ps[1..], special, Inside(ps[0].w, l), Gather(ps[0], h), ctx);
        }
      } else {
        PartsAmpQuiet(ps[1..], special, l, Gather(ps[0], h), ctx);
        RedirectAmpQuiet(ps[0], h, ctx);
        hide AmpQuiet;
        AmpQuietAppend(x, rest, 0);
      }
    }
  }

  lemma RedirectAmpQuiet(p: Part, h: Gathered, ctx: set<Ctx>)
    requires !p.Word? && Permitted(p, h, ctx)
    ensures AmpQuiet(PartText(p), 0)
  {
    var x := PartText(p);
    var file := [p.file];
    assert |file[1..]| == 0 && AmpQuiet(file, 0);
    if p.Out? {
      var over := [['!' as int]] + file;
      assert over[1..] == file && AmpQuiet(over, 0);
      var tail := if p.over then over else file;
      assert if p.both then x[2..] == tail && x[1] == AND_WORD else x[1..] == tail;
    } else {
      assert x[1..] == file;
    }
  }

  lemma PartsSilent(ps: seq<Part>, special: bool, h: Gathered, ctx: set<Ctx>)
    requires GoodParts(ps, special, 0, h, ctx)
    ensures Silent(PartsText(ps)) && (ps != [] ==> PartsText(ps) != [] && Starts(PartsText(ps)[0]))
  {
    hide Quiet, AmpQuiet, Gather, GatherAll;
    PartsAmpQuiet(ps, special, 0, h, ctx);
    PartsQuiet(Semis, ps, special, 0, h, ctx);
    PartsQuiet(Ors, ps, special, 0, h, ctx);
    PartsQuiet(Ands, ps, special, 0, h, ctx);
    PartsQuiet(Bars, ps, special, 0, h, ctx);
    if ps != [] {
      assert PartsText(ps)[0] == PartText(ps[0])[0];
    }
  }

  /** The scan of syn0 on words that may hold ampersands of their own, as inside parentheses. */
  predicate AmpLoose(seg: seq<Strings.Word>, l: nat)
    decreases |seg|
  {
    if seg == [] then l == 0
    else
      var c := First(seg[0]);
      if c == LPAR then AmpLoose(seg[1..], l + 1)
      else if c == RPAR then l > 0 && AmpLoose(seg[1..], l - 1)
      else if c == GT || (c == BAR && At(seg[0], 1) != BAR) then
        |seg| > 1 && AmpLoose(if seg[1] == AND_WORD then seg[2..] else seg[1..], l)
      else AmpLoose(seg[1..], l)
  }

  lemma {:induction false} QuietIsLoose(a: seq<Strings.Word>, l: nat)
    requires AmpQuiet(a, l)
    ensures AmpLoose(a, l)
    decreases |a|
  {
    if a != [] {
      var c := First(a[0]);
      if c == LPAR {
        QuietIsLoose(a[1..], l + 1);
      } else if c == RPAR {
        QuietIsLoose(a[1..], l - 1);
      } else if (c == GT || (c == BAR && At(a[0], 1) != BAR)) && a[1] == AND_WORD {
        QuietIsLoose(a[2..], l);
      } else {
        QuietIsLoose(a[1..], l);
      }
    }
  }

  lemma {:induction false} LooseAppend(a: seq<Strings.Word>, b: seq<Strings.Word>, l: nat)
    requires AmpLoose(a, l) && AmpLoose(b, 0)
    ensures AmpLoose(a + b, l)
    decreases |a|
  {
    if a == [] {
      assert a + b == b;
    } else {
      assert (a + b)[1..] == a[1..] + b && (a + b)[0] == a[0];
      var c := First(a[0]);
      if c == LPAR {
        LooseAppend(a[1..], b, l + 1);
      } else if c == RPAR {
        LooseAppend(a[1..], b, l - 1);
      } else if (c == GT || (c == BAR && At(a[0], 1) != BAR)) && a[1] == AND_WORD {
        assert (a + b)[2..] == a[2..] + b;
        LooseAppend(a[2..], b, l);
      } else {
        LooseAppend(a[1..], b, l);
      }
    }
  }

  lemma {:induction false} LooseInside(a: seq<Strings.Word>, b: seq<Strings.Word>, l: nat)
    requires AmpLoose(a, l) && AmpQuiet(b, 1)
    ensures AmpQuiet(a + b, l + 1)
    decreases |a|
  {
    if a == [] {
      assert a + b == b;
    } else {
      assert (a + b)[1..] == a[1..] + b && (a + b)[0] == a[0];
      var c := First(a[0]);
      if c == LPAR {
        LooseInside(a[1..], b, l + 1);
      } else if c == RPAR {
        LooseInside(a[1..], b, l - 1);
      } else if (c == GT || (c == BAR && At(a[0], 1) != BAR)) && a[1] == AND_WORD {
        assert (a + b)[2..] == a[2..] + b;
        LooseInside(a[2..], b, l);
      } else {
        LooseInside(a[1..], b, l);
      }
    }
  }

  /** At an ampersand behind a quiet part the scan stops. */
  lemma {:induction false} AmpFound(a: seq<Strings.Word>, b: seq<Strings.Word>, l: nat)
    requires AmpQuiet(a, l)
    ensures ScanAmp(a + ([AMP_WORD] + b), l) == Found(|a|)
    decreases |a|
  {
    var s := a + ([AMP_WORD] + b);
    if a == [] {
      assert s == [AMP_WORD] + b;
    } else {
      assert s[1..] == a[1..] + ([AMP_WORD] + b) && s[0] == a[0];
      var c := First(a[0]);
      if c == LPAR {
        AmpFound(a[1..], b, l + 1);
      } else if c == RPAR {
        AmpFound(a[1..], b, l - 1);
      } else if (c == GT || (c == BAR && At(a[0], 1) != BAR)) && a[1] == AND_WORD {
        assert s[2..] == a[2..] + ([AMP_WORD] + b) && s[1] == a[1];
        AmpFound(a[2..], b, l);
      } else {
        assert |a| > 1 ==> s[1] == a[1];
        AmpFound(a[1..], b, l);
      }
    }
  }

  /** What the levels see of the text of a source. */
  predicate SourceSilent(seg: seq<Strings.Word>, level: nat) {
    if level == 0 then AmpLoose(seg, 0) && Balanced(seg) && seg != [] && Starts(seg[0]) else SilentAt(seg, level)
  }

  lemma SilentIsSource(seg: seq<Strings.Word>, level: nat, to: nat)
    requires SilentAt(seg, level) && to <= level
    ensures SourceSilent(seg, to)
  {
    hide Quiet, Depth;
    QuietIsLoose(seg, 0);
  }

  lemma SeparatorQuiet(sep: Strings.Word, b: seq<Strings.Word>)
    requires Separator(sep) || sep == AND2_WORD || sep == AMP_WORD
    ensures Balanced(b) ==> Balanced([sep] + b)
    ensures AmpLoose(b, 0) ==> AmpLoose([sep] + b, 0)
    ensures sep != AMP_WORD && AmpQuiet(b, 0) ==> AmpQuiet([sep] + b, 0)
  {
    assert ([sep] + b)[1..] == b;
  }

  lemma {:induction false} SimplySilent(parts: seq<Part>, ctx: set<Ctx>, level: nat)
    requires Good(Simply(parts), level, ctx)
    ensures SourceSilent(PartsText(parts), level)
  {
    hide Quiet, AmpQuiet, AmpLoose, Depth, GoodParts, PartsText;
    var seg := PartsText(parts);
    PartsSilent(parts, Special(seg), Empty(false), ctx);
    assert parts != [];
    SilentIsAt(seg, if level == 0 then 1 else level);
    if level == 0 {
      SilentIsSource(seg, 1, 0);
    }
  }

  lemma {:induction false} ParensSilent(s: Source, ctx: set<Ctx>, level: nat)
    requires s.Parens? && Good(s, level, ctx) && SourceSilent(Text(s.inner), 0)
    ensures SourceSilent(Text(s), level)
  {
    hide Quiet, AmpQuiet, AmpLoose, Depth, GoodParts, PartsText;
    var b, x, e := PartsText(s.before), Text(s.inner), PartsText(s.behind);
    var mid := [LP_WORD] + x + [RP_WORD];
    GoodSplit(s.before, s.behind, Empty(false), ctx);
    PartsSilent(s.before, false, Empty(false), ctx);
    PartsSilent(s.behind, false, GatherAll(s.before, Empty(false)), ctx);
    LooseParens(x);
    SilentAppend(mid, e);
    SilentAppend(b, mid + e);
    assert Text(s) == b + (mid + e);
    assert Text(s)[0] == if s.before == [] then LP_WORD else b[0] by {
      assert s.before == [] ==> b == [] by { NoText(); }
    }
    SilentIsAt(Text(s), if level == 0 then 1 else level);
    if level == 0 {
      SilentIsSource(Text(s), 1, 0);
    }
  }

  lemma NoText()
    ensures PartsText([]) == []
  {
  }

  lemma LooseParens(x: seq<Strings.Word>)
    requires AmpLoose(x, 0) && Balanced(x)
    ensures Silent([LP_WORD] + x + [RP_WORD])
  {
    QuietParens(Semis, x);
    QuietParens(Ors, x);
    QuietParens(Ands, x);
    QuietParens(Bars, x);
    assert |[RP_WORD][1..]| == 0 && AmpQuiet([RP_WORD], 1);
    LooseInside(x, [RP_WORD], 0);
    assert ([LP_WORD] + x + [RP_WORD])[1..] == x + [RP_WORD];
  }

  /** A bar, with or without an ampersand behind it. */
  lemma BarSilent(a: seq<Strings.Word>, both: bool, b: seq<Strings.Word>)
    requires SilentAt(a, 4) && SilentAt(b, 4)
    ensures SilentAt(a + [PIPE_WORD] + ((if both then [AMP_WORD] else []) + b), 4)
  {
    hide Depth;
    var tail := [PIPE_WORD] + ((if both then [AMP_WORD] else []) + b);
    if both {
      BothSilent(b);
      assert a + [PIPE_WORD] + ([AMP_WORD] + b) == a + ([PIPE_WORD, AMP_WORD] + b);
      hide AmpQuiet, Quiet;
      AmpQuietAppend(a, [PIPE_WORD, AMP_WORD] + b, 0);
      DepthAppend(a, [PIPE_WORD, AMP_WORD] + b, 0);
      QuietAppend(Semis, a, [PIPE_WORD, AMP_WORD] + b, 0);
      QuietAppend(Ors, a, [PIPE_WORD, AMP_WORD] + b, 0);
      QuietAppend(Ands, a, [PIPE_WORD, AMP_WORD] + b, 0);
    } else {
      assert [] + b == b;
      SilentSeparated(a, PIPE_WORD, b, 4);
    }
  }

  lemma BothSilent(b: seq<Strings.Word>)
    requires SilentAt(b, 4)
    ensures var s := [PIPE_WORD, AMP_WORD] + b;
            AmpQuiet(s, 0) && Balanced(s) && Quiet(Semis, s, 0) && Quiet(Ors, s, 0) && Quiet(Ands, s, 0)
  {
    var s := [PIPE_WORD, AMP_WORD] + b;
    assert s[1..] == [AMP_WORD] + b && s[2..] == b && s[1..][1..] == b;
  }

  lemma {:induction false} TextSilent(s: Source, level: nat, ctx: set<Ctx>)
    requires level <= 5 && Good(s, level, ctx)
    ensures SourceSilent(Text(s), level)
    decreases s, 1
  {
    hide Quiet, AmpQuiet, AmpLoose, Depth, GoodParts, PartsText, GatherAll;
    match s
    case Simply(parts) => SimplySilent(parts, ctx, level);
    case Parens(before, inner, behind) =>
      TextSilent(inner, 0, {Here});
      ParensSilent(s, ctx, level);
    case Piped(l, both, r) =>
      TextSilent(l, 5, ctx + {POut} + if both then {PErr} else {});
      TextSilent(r, 4, ctx + {PIn});
      Lower(Text(l), 5, 4);
      BarSilent(Text(l), both, Text(r));
      Down(Text(s), 4, level);
    case AndThen(l, r) =>
      TextSilent(l, 4, ctx);
      TextSilent(r, 3, ctx);
      Lower(Text(l), 4, 3);
      SilentSeparated(Text(l), AND2_WORD, Text(r), 3);
      Down(Text(s), 3, level);
    case OrElse(l, r) =>
      TextSilent(l, 3, ctx);
      TextSilent(r, 2, ctx);
      Lower(Text(l), 3, 2);
      SilentSeparated(Text(l), OR_WORD, Text(r), 2);
      Down(Text(s), 2, level);
    case Then(l, sep, r) =>
      TextSilent(l, 2, ctx);
      Lower(Text(l), 2, 1);
      RemainsSilent(r, 1, ctx);
      ThenSilent(Text(l), sep, Text(r));
      Down(Text(s), 1, level);
    case Detached(l, r) =>
      TextSilent(l, 1, ctx);
      RemainsSilent(r, 0, ctx);
      DetachedSilent(Text(l), Text(r));
  }

  lemma Down(seg: seq<Strings.Word>, level: nat, to: nat)
    requires SilentAt(seg, level) && to <= level
    ensures SourceSilent(seg, to)
  {
    hide Quiet, AmpQuiet, AmpLoose, Depth;
    if to == 0 {
      SilentIsSource(seg, level, 0);
    } else {
      Lower(seg, level, to);
    }
  }

  lemma ThenSilent(a: seq<Strings.Word>, sep: Strings.Word, b: seq<Strings.Word>)
    requires SilentAt(a, 1) && Separator(sep) && AmpQuiet(b, 0) && Balanced(b)
    ensures SilentAt(a + [sep] + b, 1)
  {
    hide Quiet, AmpQuiet, Depth;
    assert a + [sep] + b == a + ([sep] + b) && (a + [sep] + b)[0] == a[0];
    SeparatorQuiet(sep, b);
    AmpQuietAppend(a, [sep] + b, 0);
    DepthAppend(a, [sep] + b, 0);
  }

  lemma DetachedSilent(a: seq<Strings.Word>, b: seq<Strings.Word>)
    requires SilentAt(a, 1) && AmpLoose(b, 0) && Balanced(b)
    ensures SourceSilent(a + [AMP_WORD] + b, 0)
  {
    hide Quiet, AmpQuiet, AmpLoose, Depth;
    assert a + [AMP_WORD] + b == a + ([AMP_WORD] + b) && (a + [AMP_WORD] + b)[0] == a[0];
    SeparatorQuiet(AMP_WORD, b);
    QuietIsLoose(a, 0);
    LooseAppend(a, [AMP_WORD] + b, 0);
    DepthAppend(a, [AMP_WORD] + b, 0);
  }

  lemma {:induction false} RemainsSilent(s: Source, level: nat, ctx: set<Ctx>)
    requires level <= 1 && Remains(s, level, ctx)
    ensures Balanced(Text(s)) && (level == 1 ==> AmpQuiet(Text(s), 0)) && (level == 0 ==> AmpLoose(Text(s), 0))
    decreases s, 2
  {
    if s.Skipping? {
      RemainsSilent(s.r, level, ctx);
      hide AmpQuiet, AmpLoose, Depth;
      SeparatorQuiet(s.sep, Text(s.r));
    } else if !s.Nothing? {
      hide AmpQuiet, AmpLoose, Depth;
      TextSilent(s, level, ctx);
    }
  }

  // ---------------------------------------------------------------- the theorem

  lemma ReadBoth(a: seq<Strings.Word>, both: bool, b: seq<Strings.Word>, ctx: set<Ctx>, ends: bool)
    requires SilentAt(a, 5) && SilentAt(b, 4) && Balanced(a + [PIPE_WORD] + ((if both then [AMP_WORD] else []) + b))
    requires Syn3(a, false, ctx + {POut} + if both then {PErr} else {}).Ok? && Syn2(b, ends, ctx + {PIn}).Ok?
    ensures Syn2(a + [PIPE_WORD] + ((if both then [AMP_WORD] else []) + b), ends, ctx)
            == Ok(Pipe(Syn3(a, false, ctx + {POut} + if both then {PErr} else {}).value, Syn2(b, ends, ctx + {PIn}).value,
                       if both then {Stderr} else {}))
  {
    hide Depth, Find, Quiet, AmpQuiet, Syn3;
    var tail := (if both then [AMP_WORD] else []) + b;
    var seg := a + [PIPE_WORD] + tail;
    FindSeparator(Bars, a, PIPE_WORD, tail);
    assert seg[|a| + 1] == tail[0];
    if both {
      assert tail == [AMP_WORD] + b && seg[|a| + 2..] == seg[|a| + 1..][1..] == tail[1..] == b;
    } else {
      assert tail == b && First(b[0]) != AMP;
    }
  }

  lemma ReadThen(a: seq<Strings.Word>, sep: Strings.Word, b: seq<Strings.Word>, ctx: set<Ctx>, ends: bool)
    requires SilentAt(a, 2) && Separator(sep) && Balanced(a + [sep] + b)
    requires Syn1a(a, false, ctx).Ok? && Parse.Syntax(b, ends, ctx).Ok?
    ensures var car, cdr := Syn1a(a, false, ctx).value, Parse.Syntax(b, ends, ctx).value;
            Syn1(a + [sep] + b, ends, ctx) == Ok(if cdr.Null? then List(Null, car) else List(car, cdr))
  {
    hide Depth, Find, Quiet, AmpQuiet, Syn1a, Parse.Syntax;
    FindSeparator(Semis, a, sep, b);
  }

  lemma ReadDetached(a: seq<Strings.Word>, b: seq<Strings.Word>, ctx: set<Ctx>, ends: bool)
    requires SilentAt(a, 1) && Syn1(a, false, ctx).Ok? && Parse.Syntax(b, ends, ctx).Ok?
    ensures Syn0(a + [AMP_WORD] + b, ends, ctx) == Ok(List(Detach(Syn1(a, false, ctx).value), Parse.Syntax(b, ends, ctx).value))
  {
    hide Depth, Find, Quiet, AmpQuiet, Syn1, Parse.Syntax;
    var seg := a + [AMP_WORD] + b;
    assert seg == a + ([AMP_WORD] + b) && seg[..|a|] == a && seg[|a| + 1..] == b;
    AmpFound(a, b, 0);
    assert {NoInterrupt, Ampersand} == {Ampersand, NoInterrupt};
  }

  /** Every level builds the tree that the source stands for. */
  lemma {:induction false} ReadsSource(s: Source, level: nat, ctx: set<Ctx>, ends: bool)
    requires level <= 5 && Good(s, level, ctx)
    ensures SourceSilent(Text(s), level)
    ensures level == 0 ==> Syn0(Text(s), ends, ctx) == Ok(Tree(s, ends))
    ensures level > 0 ==> Reads(level, Text(s), ctx, ends) == Ok(Tree(s, ends))
    decreases s, 5 - level, 1
  {
    hide Depth, Quiet, AmpQuiet, AmpLoose, GoodParts, GatherAll, PartsText, Syn3, Syn2, Syn1b, Syn1a, Syn1, Syn0, Parse.Syntax;
    TextSilent(s, level, ctx);
    if level == 0 && s.Detached? {
      ReadsSource(s.l, 1, ctx, false);
      ReadsRest(s.r, 0, ctx, ends);
      ReadDetached(Text(s.l), Text(s.r), ctx, ends);
    } else if level == 0 {
      ReadsSource(s, 1, ctx, ends);
      ReadAll(Text(s), ctx, ends);
    } else if level == 1 && s.Then? {
      ReadsSource(s.l, 2, ctx, false);
      ReadsRest(s.r, 1, ctx, ends);
      ReadThen(Text(s.l), s.sep, Text(s.r), ctx, ends);
    } else if level == 2 && s.OrElse? {
      ReadsSource(s.l, 3, ctx, false);
      ReadsSource(s.r, 2, ctx, ends);
      ReadOr(Text(s.l), Text(s.r), ctx, ends);
    } else if level == 3 && s.AndThen? {
      ReadsSource(s.l, 4, ctx, false);
      ReadsSource(s.r, 3, ctx, ends);
      ReadAnd(Text(s.l), Text(s.r), ctx, ends);
    } else if level == 4 && s.Piped? {
      ReadsSource(s.l, 5, ctx + {POut} + if s.both then {PErr} else {}, false);
      ReadsSource(s.r, 4, ctx + {PIn}, ends);
      ReadBoth(Text(s.l), s.both, Text(s.r), ctx, ends);
    } else if level < 5 {
      ReadsSource(s, level + 1, ctx, ends);
      ReadThrough(Text(s), level, ctx, ends);
    } else if s.Simply? {
      ReadSimply(s.parts, ctx, ends);
    } else {
      ReadsSource(s.inner, 0, {Here}, true);
      ReadParens(s, ctx, ends);
    }
  }

  /** What is left behind a separator, and a whole command line: separators in front are skipped. */
  lemma {:induction false} ReadsRest(s: Source, level: nat, ctx: set<Ctx>, ends: bool)
    requires level <= 1 && Remains(s, level, ctx)
    ensures Parse.Syntax(Text(s), ends, ctx) == Ok(Tree(s, ends))
    decreases s, 6, 2
  {
    hide Depth, Quiet, AmpQuiet, AmpLoose, Syn1, Syn0;
    if s.Skipping? {
      ReadsRest(s.r, level, ctx, ends);
      assert ([s.sep] + Text(s.r))[1..] == Text(s.r);
    } else if !s.Nothing? {
      ReadsSource(s, level, ctx, ends);
      if level == 1 {
        ReadAll(Text(s), ctx, ends);
      }
    }
  }

  /** The parser gives every command line the tree that it stands for. */
  lemma SyntaxReads(s: Source, ctx: set<Ctx>)
    requires Remains(s, 0, ctx)
    ensures Parse.Syntax(Text(s), false, ctx) == Ok(Tree(s, false))
  {
    ReadsRest(s, 0, ctx, false);
  }
}
