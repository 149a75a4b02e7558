/** The other half of the syntax of commands: whatever the parser of parse.c accepts is written as a source, so that it
    accepts exactly the sources, and every other command line is an error. */
module ParseAccepts {
  import opened Common
  import opened Strings
  import opened Parse
  import opened ParsePrint
  import opened ParseSource

  /** Words as the lexer cuts them: one that starts with a special character is one of the operators. */
  predicate Lexed(seg: seq<Strings.Word>) {
    forall i :: 0 <= i < |seg| ==> IsOperator(seg[i]) || Plain(seg[i])
  }

  predicate IsOperator(w: Strings.Word) {
    || w == [LPAR] || w == [RPAR] || w == [SEMI] || w == [NEWLINE] || w == [BAR] || w == [BAR, BAR]
    || w == [AMP] || w == [AMP, AMP] || w == [GT] || w == [GT, GT] || w == [LT] || w == [LT, LT]
  }

  // ---------------------------------------------------------------- what the scans leave

  /** Outside of parentheses nothing separates, and no ampersand ends a command. */
  predicate Flat(seg: seq<Strings.Word>, l: nat) {
    && Quiet(Semis, seg, l) && Quiet(Ors, seg, l) && Quiet(Ands, seg, l) && Quiet(Bars, seg, l)
    && ScanAmp(seg, l) == End(0)
  }

  lemma FlatStep(seg: seq<Strings.Word>, l: nat)
    requires Lexed(seg) && Flat(seg, l) && seg != []
    ensures First(seg[0]) == RPAR ==> l > 0
    ensures l == 0 ==> Plain(seg[0]) || First(seg[0]) == LPAR || First(seg[0]) == LT || First(seg[0]) == GT
    ensures l > 0 || First(seg[0]) != GT ==> Flat(seg[1..], Inside(seg[0], l))
    ensures l == 0 && First(seg[0]) == GT && !(|seg| > 1 && seg[1] == AND_WORD) ==> Flat(seg[1..], 0)
    ensures l == 0 && First(seg[0]) == GT && |seg| > 1 && seg[1] == AND_WORD ==> Flat(seg[2..], 0)
  {
    if |seg| > 1 {
      assert seg[1..][1..] == seg[2..] && seg[1..][0] == seg[1];
    }
  }

  lemma FlatFrom(seg: seq<Strings.Word>, p: nat, l: nat)
    requires Lexed(seg) && p < |seg| && Flat(seg[p..], l)
    ensures First(seg[p]) == RPAR ==> l > 0
    ensures l == 0 ==> Plain(seg[p]) || First(seg[p]) == LPAR || First(seg[p]) == LT || First(seg[p]) == GT
    ensures l > 0 || First(seg[p]) != GT ==> Flat(seg[p + 1..], Inside(seg[p], l))
    ensures l == 0 && First(seg[p]) == GT && !(p + 1 < |seg| && seg[p + 1] == AND_WORD) ==> Flat(seg[p + 1..], 0)
    ensures l == 0 && First(seg[p]) == GT && p + 1 < |seg| && seg[p + 1] == AND_WORD ==> Flat(seg[p + 2..], 0)
  {
    hide Flat;
    var t := seg[p..];
    assert t[0] == seg[p] && t[1..] == seg[p + 1..];
    if p + 1 < |seg| {
      assert t[1] == seg[p + 1] && t[2..] == seg[p + 2..];
    }
    FlatStep(t, l);
  }

  // ---------------------------------------------------------------- the words of a command

  /** An input redirection that is accepted is one. */
  lemma InAccepted(seg: seq<Strings.Word>, p: nat, ctx: set<Ctx>, s: Partial, g: Gathered, h: Gathered) returns (part: Part)
    requires Lexed(seg) && p < |seg| && First(seg[p]) == LT && s.l == 0 && Flat(seg[p..], 0) && Matches(g, s) && Alike(g, h)
    requires Input(seg, p, ctx, s).Ok?
    ensures part.In? && Permitted(part, h, ctx) && p + 2 <= |seg| && seg[p..p + 2] == PartText(part) && Flat(seg[p + 2..], 0)
  {
    hide Flat, Depth;
    FlatFrom(seg, p, 0);
    FlatFrom(seg, p + 1, 0);
    part := In(seg[p] == [LT, LT], seg[p + 1]);
    assert seg[p] == [LT] || seg[p] == [LT, LT];
  }

  /** The words of an output redirection at p: where its file stands. */
  function FileAt(seg: seq<Strings.Word>, p: nat): nat {
    var q := if p + 1 < |seg| && seg[p + 1] == AND_WORD then p + 1 else p;
    if q + 1 < |seg| && seg[q + 1] == BANG_WORD then q + 2 else q + 1
  }

  lemma OutShape(seg: seq<Strings.Word>, p: nat)
    requires Lexed(seg) && p < |seg| && First(seg[p]) == GT && Flat(seg[p..], 0)
    requires FileAt(seg, p) < |seg| && !RelPar(First(seg[FileAt(seg, p)]))
    ensures var k := FileAt(seg, p); Plain(seg[k]) && Flat(seg[k + 1..], 0)
  {
    hide Flat;
    var q := if p + 1 < |seg| && seg[p + 1] == AND_WORD then p + 1 else p;
    FlatFrom(seg, p, 0);
    FlatFrom(seg, q + 1, 0);
    if seg[q + 1] == BANG_WORD {
      FlatFrom(seg, q + 2, 0);
    }
  }

  lemma OutAccepted(seg: seq<Strings.Word>, p: nat, ctx: set<Ctx>, s: Partial, g: Gathered, h: Gathered) returns (part: Part)
    requires Lexed(seg) && p < |seg| && First(seg[p]) == GT && s.l == 0 && Flat(seg[p..], 0) && Matches(g, s) && Alike(g, h)
    requires Output(seg, p, ctx, s).Ok?
    ensures part.Out? && Permitted(part, h, ctx)
    ensures var q := p + |PartText(part)|; q <= |seg| && seg[p..q] == PartText(part) && Flat(seg[q..], 0)
  {
    hide Flat, Depth;
    var both := p + 1 < |seg| && seg[p + 1] == AND_WORD;
    var q := if both then p + 1 else p;
    var over := q + 1 < |seg| && seg[q + 1] == BANG_WORD;
    var k := FileAt(seg, p);
    OutShape(seg, p);
    part := Out(seg[p] == [GT, GT], both, over, seg[k]);
    assert Permitted(part, h, ctx);
    hide Output, Permitted, Plain;
    OutText(seg, p, part);
  }

  lemma OutText(seg: seq<Strings.Word>, p: nat, part: Part)
    requires Lexed(seg) && p < |seg| && First(seg[p]) == GT && FileAt(seg, p) < |seg|
    requires var both := p + 1 < |seg| && seg[p + 1] == AND_WORD;
             var q := if both then p + 1 else p;
             part == Out(seg[p] == [GT, GT], both, q + 1 < |seg| && seg[q + 1] == BANG_WORD, seg[FileAt(seg, p)])
    ensures p + |PartText(part)| == FileAt(seg, p) + 1 && seg[p..FileAt(seg, p) + 1] == PartText(part)
  {
    assert seg[p] == [GT] || seg[p] == [GT, GT];
  }

  /** A redirection that is accepted, and the step it makes. */
  lemma TakeRedirect(seg: seq<Strings.Word>, p: nat, ctx: set<Ctx>, special: bool, s: Partial, g: Gathered, h: Gathered)
      returns (part: Part, t: Partial)
    requires Lexed(seg) && p < |seg| && Sane(s, p) && s.l == 0 && Depth(seg[p..], 0) == 0 && Flat(seg[p..], 0)
    requires (First(seg[p]) == LT || First(seg[p]) == GT) && Matches(g, s) && Alike(g, h)
    requires Words(seg, p, ctx, special, s).Ok?
    ensures !part.Word? && Permitted(part, h, ctx)
    ensures var q := p + |PartText(part)|;
            p < q <= |seg| && seg[p..q] == PartText(part) && Flat(seg[q..], 0) && Reaches(seg, p, s, ctx, special, q, t)
    ensures Matches(Gather(part, g), t) && t.l == 0 && t.lp == s.lp && t.rp == s.rp
  {
    hide Flat, Depth, Words, Permitted, Input, Output, PartText, Gather, Matches, Alike, Reaches, Plain, IsOperator;
    WordsRedirect(seg, p, ctx, special, s);
    if First(seg[p]) == LT {
      part := InAccepted(seg, p, ctx, s, g, h);
    } else {
      part := OutAccepted(seg, p, ctx, s, g, h);
    }
    var q := p + |PartText(part)|;
    assert forall i :: 0 <= i < q - p ==> seg[p + i] == seg[p..q][i] == PartText(part)[i];
    t := RedirectStep(seg, p, part, ctx, special, s, g, h);
    TextOfPart(part);
  }

  lemma TextOfPart(part: Part)
    ensures |PartText(part)| > 0
  {
  }

  lemma WordGood(w: Strings.Word, rest: seq<Part>, special: bool, l: nat, h: Gathered, ctx: set<Ctx>)
    requires First(w) == RPAR ==> l > 0
    requires l == 0 ==> Plain(w) || (special && First(w) == LPAR)
    requires GoodParts(rest, special, Inside(w, l), Gather(Word(w), h), ctx)
    ensures GoodParts([Word(w)] + rest, special, l, h, ctx) && PartsText([Word(w)] + rest) == [w] + PartsText(rest)
    ensures forall g: Gathered :: GatherAll([Word(w)] + rest, g) == GatherAll(rest, Gather(Word(w), g))
  {
    assert ([Word(w)] + rest)[1..] == rest;
  }

  lemma RedirectGood(part: Part, rest: seq<Part>, special: bool, h: Gathered, ctx: set<Ctx>)
    requires !part.Word? && Permitted(part, h, ctx) && GoodParts(rest, special, 0, Gather(part, h), ctx)
    ensures GoodParts([part] + rest, special, 0, h, ctx) && PartsText([part] + rest) == PartText(part) + PartsText(rest)
    ensures forall g: Gathered :: GatherAll([part] + rest, g) == GatherAll(rest, Gather(part, g))
  {
    assert ([part] + rest)[1..] == rest;
  }

  /** What is accepted is parts, up to the end or to a parenthesis that is not a word. */
  lemma {:induction false} TakeParts(seg: seq<Strings.Word>, p: nat, ctx: set<Ctx>, special: bool, s: Partial, g: Gathered, h: Gathered)
      returns (ps: seq<Part>, n: nat, t: Partial)
    requires Lexed(seg) && p <= |seg| && Sane(s, p) && Depth(seg[p..], s.l) == 0 && Flat(seg[p..], s.l)
    requires Matches(g, s) && Alike(g, h) && Words(seg, p, ctx, special, s).Ok? && (!special ==> s.l == 0)
    ensures p <= n <= |seg| && seg[p..n] == PartsText(ps) && GoodParts(ps, special, s.l, h, ctx)
    ensures Sane(t, n) && t.l == 0 && Depth(seg[n..], 0) == 0 && Flat(seg[n..], 0)
    ensures Matches(GatherAll(ps, g), t) && Alike(GatherAll(ps, g), GatherAll(ps, h))
    ensures Words(seg, p, ctx, special, s) == Words(seg, n, ctx, special, t) && (!special ==> t.lp == s.lp && t.rp == s.rp)
    ensures n == |seg| || (!special && First(seg[n]) == LPAR)
    decreases |seg| - p
  {
    hide Flat, Depth, Words, Permitted, Input, Output, PartText, PartsText, GoodParts, Gather, GatherAll, Matches, Alike;
    if p == |seg| || (!special && First(seg[p]) == LPAR) {
      ps, n, t := [], p, s;
      NoParts(special, h, ctx, g);
      assert s.l == 0 by {
        if p == |seg| { NoDepth(s.l); assert seg[p..] == []; }
      }
      assert seg[p..p] == [];
    } else if s.l == 0 && (First(seg[p]) == LT || First(seg[p]) == GT) {
      var part, u := TakeRedirect(seg, p, ctx, special, s, g, h);
      var q := p + |PartText(part)|;
      AlikeAfter(part, g, h);
      var rest;
      rest, n, t := TakeParts(seg, q, ctx, special, u, Gather(part, g), Gather(part, h));
      ps := [part] + rest;
      RedirectGood(part, rest, special, h, ctx);
      assert seg[p..n] == seg[p..q] + seg[q..n];
    } else {
      var w := seg[p];
      FlatFrom(seg, p, s.l);
      WordsStep(seg, p, ctx, special, s);
      var u := Stored(w, p, special, s);
      StoredMatches(w, p, special, s, g);
      AlikeAfter(Word(w), g, h);
      var rest;
      rest, n, t := TakeParts(seg, p + 1, ctx, special, u, Gather(Word(w), g), Gather(Word(w), h));
      ps := [Word(w)] + rest;
      WordGood(w, rest, special, s.l, h, ctx);
      assert seg[p..n] == [w] + seg[p + 1..n];
    }
  }

  lemma NoParts(special: bool, h: Gathered, ctx: set<Ctx>, g: Gathered)
    ensures GoodParts([], special, 0, h, ctx) && PartsText([]) == [] && GatherAll([], g) == g && GatherAll([], h) == h
  {
  }

  lemma NoDepth(l: nat)
    ensures Depth([], l) == l
  {
  }

  lemma AlikeAfter(part: Part, g: Gathered, h: Gathered)
    requires Alike(g, h)
    ensures Alike(Gather(part, g), Gather(part, h))
  {
  }

  lemma StoredMatches(w: Strings.Word, p: nat, special: bool, s: Partial, g: Gathered)
    requires Matches(g, s) && (First(w) == RPAR ==> s.l > 0) && (special || (s.l == 0 && First(w) != LPAR))
    ensures Matches(Gather(Word(w), g), Stored(w, p, special, s))
    ensures !special ==> Stored(w, p, special, s).lp == s.lp && Stored(w, p, special, s).rp == s.rp
  {
  }

  // ---------------------------------------------------------------- a command

  /** The parenthesis that closes what is open. */
  lemma {:induction false} Close(seg: seq<Strings.Word>, p: nat, l: nat) returns (m: nat)
    requires Lexed(seg) && p <= |seg| && l > 0 && Depth(seg[p..], l) == 0 && Flat(seg[p..], l)
    ensures p <= m < |seg| && seg[m] == RP_WORD && Depth(seg[p..m], l - 1) == 0 && Flat(seg[m + 1..], 0)
    decreases |seg| - p
  {
    hide Flat, Plain;
    assert p < |seg|;
    var w := seg[p];
    FlatFrom(seg, p, l);
    assert seg[p..][1..] == seg[p + 1..];
    if First(w) == RPAR && l == 1 {
      m := p;
      assert seg[p..p] == [];
      assert w == RP_WORD by { Operator(seg, p); }
    } else {
      m := Close(seg, p + 1, Inside(w, l));
      assert seg[p..m][1..] == seg[p + 1..m];
    }
  }

  lemma Operator(seg: seq<Strings.Word>, p: nat)
    requires Lexed(seg) && p < |seg|
    ensures First(seg[p]) == RPAR ==> seg[p] == RP_WORD
    ensures First(seg[p]) == LPAR ==> seg[p] == LP_WORD
    ensures First(seg[p]) == BAR ==> seg[p] == PIPE_WORD || seg[p] == OR_WORD
    ensures First(seg[p]) == AMP ==> seg[p] == AMP_WORD || seg[p] == AND2_WORD
    ensures First(seg[p]) == SEMI ==> seg[p] == SEMI_WORD
    ensures First(seg[p]) == NEWLINE ==> seg[p] == NEWLINE_WORD
  {
  }

  lemma {:induction false} GoodJoin(a: seq<Part>, b: seq<Part>, h: Gathered, ctx: set<Ctx>)
    requires GoodParts(a, false, 0, h, ctx) && GoodParts(b, false, 0, GatherAll(a, h), ctx)
    ensures GoodParts(a + b, false, 0, h, ctx)
    decreases |a|
  {
    hide Permitted;
    if a == [] {
      assert a + b == b;
    } else {
      assert (a + b)[1..] == a[1..] + b;
      FlatParts(a, h, ctx);
      GoodJoin(a[1..], b, Gather(a[0], h), ctx);
    }
  }

  /** What gathers no word consists of redirections. */
  lemma {:induction false} OnlyRedirections(ps: seq<Part>, g: Gathered)
    requires GatherAll(ps, g).av == []
    ensures Redirections(ps) && g.av == []
    decreases |ps|
  {
    if ps != [] {
      OnlyRedirections(ps[1..], Gather(ps[0], g));
      assert forall i :: 0 < i < |ps| ==> ps[i] == ps[1..][i - 1];
    }
  }

  /** A list in parentheses that is accepted: redirections, the list, redirections. */
  lemma ParensTaken(seg: seq<Strings.Word>, ctx: set<Ctx>, ends: bool, before: seq<Part>, n: nat, t1: Partial)
      returns (inner: seq<Strings.Word>, behind: seq<Part>)
    requires Lexed(seg) && Balanced(seg) && !Special(seg) && Depth(seg[0..], 0) == 0 && Syn3(seg, ends, ctx).Ok?
    requires n < |seg| && First(seg[n]) == LPAR && seg[0..n] == PartsText(before) && GoodParts(before, false, 0, Empty(false), ctx)
    requires Sane(t1, n) && t1.l == 0 && t1.lp == -1 && Depth(seg[n..], 0) == 0 && Flat(seg[n..], 0)
    requires Matches(GatherAll(before, Empty(ends)), t1) && Alike(GatherAll(before, Empty(ends)), GatherAll(before, Empty(false)))
    requires Words(seg, 0, ctx, false, Start(ends)) == Words(seg, n, ctx, false, t1)
    ensures seg == PartsText(before) + ([LP_WORD] + inner + [RP_WORD] + PartsText(behind))
    ensures Redirections(before) && Redirections(behind) && GoodParts(before + behind, false, 0, Empty(false), ctx)
    ensures |inner| < |seg| && Lexed(inner) && Balanced(inner) && Syn0(inner, true, {Here}).Ok?
  {
    hide Flat, Depth, Words, Permitted, PartsText, GoodParts, GatherAll, Matches, Alike, Special, Syn0, Plain;
    var g1, h1 := GatherAll(before, Empty(ends)), GatherAll(before, Empty(false));
    Operator(seg, n);
    FlatFrom(seg, n, 0);
    assert Depth(seg[n + 1..], 1) == 0 by { WordsStep(seg, n, ctx, false, t1); }
    var m := Close(seg, n + 1, 1);
    inner := seg[n + 1..m];
    assert seg[n..n + |inner| + 2] == [LP_WORD] + inner + [RP_WORD];
    var t2 := RunInner(seg, n, inner, ctx, t1);
    KeepsMatch(g1, t1, t2);
    var q := m + 1;
    var e, t;
    behind, e, t := TakeParts(seg, q, ctx, false, t2, g1, h1);
    assert e == |seg| by {
      if e < |seg| {
        SecondParen(seg, e, ctx, t);
      }
    }
    WordsEnd(seg, ctx, false, t);
    MatchesFields(GatherAll(behind, g1), t);
    assert t.lp == n + 1 && t.rp == m;
    assert Start(ends).l == 0 && t.av == [] && Syn0(inner, true, {Here}).Ok? by {
      SynParens(seg, ctx, ends, t);
    }
    OnlyRedirections(behind, g1);
    OnlyRedirections(before, Empty(ends));
    GoodJoin(before, behind, Empty(false), ctx);
    assert seg == seg[0..n] + ([LP_WORD] + inner + [RP_WORD] + seg[q..e]);
  }

  lemma SecondParen(seg: seq<Strings.Word>, e: nat, ctx: set<Ctx>, t: Partial)
    requires e < |seg| && First(seg[e]) == LPAR && Sane(t, e) && t.l == 0 && t.lp >= 0 && Depth(seg[e..], 0) == 0
    ensures Words(seg, e, ctx, false, t).Err?
  {
    hide Input, Output, Depth;
  }

  lemma SynParens(seg: seq<Strings.Word>, ctx: set<Ctx>, ends: bool, t: Partial)
    requires Balanced(seg) && !Special(seg) && Syn3(seg, ends, ctx).Ok? && Depth(seg[0..], 0) == 0
    requires Words(seg, 0, ctx, false, Start(ends)) == Ok(t) && t.lp >= 0 && 0 <= t.lp <= t.rp < |seg|
    ensures t.av == [] && Syn0(seg[t.lp..t.rp], true, {Here}).Ok?
  {
    hide Words, Syn0, Special, Depth;
  }

  lemma SynSimply(seg: seq<Strings.Word>, ctx: set<Ctx>, ends: bool, t: Partial)
    requires Balanced(seg) && Syn3(seg, ends, ctx).Ok? && Depth(seg[0..], 0) == 0
    requires Words(seg, 0, ctx, Special(seg), Start(ends)) == Ok(t) && (Special(seg) || t.lp < 0)
    ensures t.av != []
  {
    hide Words, Syn0, Special, Depth;
  }

  // ---------------------------------------------------------------- where the scans stop

  /** In front of the separator that a scan finds, nothing separates. */
  lemma {:induction false} FindQuiet(level: Level, seg: seq<Strings.Word>, l: nat)
    requires Depth(seg, l) == 0
    ensures Quiet(level, seg[..Find(level, seg, l)], l)
    decreases |seg|
  {
    var k := Find(level, seg, l);
    if k == 0 {
      assert seg[..0] == [];
    } else {
      assert First(seg[0]) == RPAR ==> l > 0;
      FindQuiet(level, seg[1..], Inside(seg[0], l));
      assert seg[..k][1..] == seg[1..][..k - 1];
    }
  }

  lemma {:induction false} QuietSplit(level: Level, a: seq<Strings.Word>, b: seq<Strings.Word>, l: nat)
    requires Quiet(level, a + b, l) && Depth(a, l) == 0
    ensures Quiet(level, a, l) && Quiet(level, b, 0)
    decreases |a|
  {
    if a == [] {
      assert a + b == b;
    } else {
      assert (a + b)[1..] == a[1..] + b && (a + b)[0] == a[0];
      QuietSplit(level, a[1..], b, Inside(a[0], l));
    }
  }

  /** A scan without an ampersand to stop at stops on neither side of a word that is no ampersand. */
  lemma {:induction false} AmpSplit(a: seq<Strings.Word>, b: seq<Strings.Word>, l: nat)
    requires ScanAmp(a + b, l) == End(0) && Depth(a, l) == 0 && b != [] && b[0] != AMP_WORD
    ensures ScanAmp(a, l) == End(0) && ScanAmp(b, 0) == End(0)
    decreases |a|
  {
    if a == [] {
      assert a + b == b;
    } else {
      var s := a + b;
      assert s[1..] == a[1..] + b && s[0] == a[0];
      if |a| > 1 {
        assert s[1] == a[1] && a[1..][1..] == a[2..] && s[2..] == a[2..] + b;
      } else {
        assert s[1] == b[0] && a[1..] == [];
      }
      var w := a[0];
      if First(w) != LPAR && First(w) != RPAR && |a| > 1 && s[1] == AND_WORD && (First(w) == GT || (First(w) == BAR && At(w, 1) != BAR)) {
        AmpSplit(a[2..], b, l);
      } else {
        AmpSplit(a[1..], b, if First(w) == LPAR then l + 1 else if First(w) == RPAR then l - 1 else l);
      }
    }
  }

  /** In front of the ampersand that the scan stops at, there is none. */
  lemma {:induction false} AmpPrefix(seg: seq<Strings.Word>, l: nat)
    requires ScanAmp(seg, l).Found?
    ensures var k := ScanAmp(seg, l).k; ScanAmp(seg[..k], l) == End(0) && At(seg[k], 1) != AMP
    decreases |seg|
  {
    var k, w := ScanAmp(seg, l).k, seg[0];
    var pre := seg[..k];
    if First(w) != LPAR && First(w) != RPAR && |seg| > 1 && seg[1] == AND_WORD && (First(w) == GT || (First(w) == BAR && At(w, 1) != BAR)) {
      AmpPrefix(seg[2..], l);
      assert k >= 2 && pre[0] == w && pre[1] == seg[1] && pre[2..] == seg[2..][..k - 2];
    } else if k > 0 {
      AmpPrefix(seg[1..], if First(w) == LPAR then l + 1 else if First(w) == RPAR then l - 1 else l);
      assert pre[0] == w && pre[1..] == seg[1..][..k - 1] && (k > 1 ==> pre[1] == seg[1]);
    } else {
      assert pre == [];
    }
  }

  // ---------------------------------------------------------------- the levels

  /** What is known of a segment when a level takes it up. */
  predicate Enters(seg: seq<Strings.Word>, level: nat) {
    && Lexed(seg)
    && (level > 0 ==> Balanced(seg) && ScanAmp(seg, 0) == End(0))
    && (level > 1 ==> Quiet(Semis, seg, 0))
    && (level > 2 ==> Quiet(Ors, seg, 0))
    && (level > 3 ==> Quiet(Ands, seg, 0))
    && (level > 4 ==> Quiet(Bars, seg, 0))
  }

  function Separating(level: nat): Level
    requires 1 <= level <= 4
  {
    match level case 1 => Semis case 2 => Ors case 3 => Ands case _ => Bars
  }

  /** The two sides of the separator of a level, or the next level. */
  lemma LevelSplit(seg: seq<Strings.Word>, level: nat) returns (k: nat)
    requires 1 <= level <= 4 && Enters(seg, level)
    ensures k == Find(Separating(level), seg, 0) <= |seg|
    ensures k == |seg| ==> Enters(seg, level + 1)
    ensures k < |seg| ==> Separates(Separating(level), seg[k])
    ensures k < |seg| ==> Enters(seg[..k], level + 1) && Enters(seg[k..], level) && seg == seg[..k] + ([seg[k]] + seg[k + 1..])
  {
    hide Quiet, ScanAmp, Find, Depth, Plain, IsOperator;
    var lev := Separating(level);
    k := Find(lev, seg, 0);
    FindIsOutside(lev, seg, 0);
    FindQuiet(lev, seg, 0);
    if k == |seg| {
      assert seg[..k] == seg;
    } else {
      var a, b := seg[..k], seg[k..];
      assert a + b == seg && b[0] == seg[k];
      assert b[0] != AMP_WORD;
      AmpSplit(a, b, 0);
      SplitQuiets(seg, a, b, level);
      DepthAppend(a, b, 0);
    }
  }

  lemma SplitQuiets(seg: seq<Strings.Word>, a: seq<Strings.Word>, b: seq<Strings.Word>, level: nat)
    requires seg == a + b && Depth(a, 0) == 0
    ensures Quiet(Semis, seg, 0) ==> Quiet(Semis, a, 0) && Quiet(Semis, b, 0)
    ensures Quiet(Ors, seg, 0) ==> Quiet(Ors, a, 0) && Quiet(Ors, b, 0)
    ensures Quiet(Ands, seg, 0) ==> Quiet(Ands, a, 0) && Quiet(Ands, b, 0)
  {
    hide Quiet, Depth;
    if Quiet(Semis, seg, 0) { QuietSplit(Semis, a, b, 0); }
    if Quiet(Ors, seg, 0) { QuietSplit(Ors, a, b, 0); }
    if Quiet(Ands, seg, 0) { QuietSplit(Ands, a, b, 0); }
  }

  lemma QuietTail(level: Level, seg: seq<Strings.Word>)
    requires seg != [] && First(seg[0]) != LPAR && First(seg[0]) != RPAR
    ensures Quiet(level, seg, 0) ==> Quiet(level, seg[1..], 0) && !Separates(level, seg[0])
    ensures Depth(seg[1..], 0) == Depth(seg, 0)
  {
  }

  lemma AmpTail(seg: seq<Strings.Word>)
    requires seg != [] && First(seg[0]) != LPAR && First(seg[0]) != RPAR && First(seg[0]) != GT && ScanAmp(seg, 0) == End(0)
    ensures seg[0] != PIPE_WORD || |seg| == 1 || seg[1] != AMP_WORD ==> ScanAmp(seg[1..], 0) == End(0) || At(seg[0], 0) == BAR
    ensures seg[0] == OR_WORD || (seg[0] == PIPE_WORD && (|seg| == 1 || seg[1] != AMP_WORD)) ==> ScanAmp(seg[1..], 0) == End(0)
    ensures seg[0] == PIPE_WORD && |seg| > 1 && seg[1] == AMP_WORD ==> ScanAmp(seg[2..], 0) == End(0)
  {
  }

  /** Behind a word that is no parenthesis; behind a bar an ampersand goes with it. */
  lemma Behind(seg: seq<Strings.Word>, level: nat)
    requires level <= 4 && Enters(seg, level) && seg != [] && First(seg[0]) != LPAR && First(seg[0]) != RPAR && First(seg[0]) != GT
    ensures seg[0] != PIPE_WORD || |seg| == 1 || seg[1] != AMP_WORD ==> Enters(seg[1..], level)
    ensures seg[0] == PIPE_WORD && |seg| > 1 && seg[1] == AMP_WORD ==> Enters(seg[2..], level)
  {
    hide Quiet, ScanAmp, Depth;
    BehindQuiets(seg);
    LexedTails(seg);
    Operator(seg, 0);
    if level > 0 {
      AmpTail(seg);
    }
    if |seg| > 1 && seg[1] == AMP_WORD {
      assert seg[1..][1..] == seg[2..] && seg[1..][0] == seg[1];
      BehindQuiets(seg[1..]);
    }
  }

  lemma LexedTails(seg: seq<Strings.Word>)
    requires Lexed(seg) && seg != []
    ensures Lexed(seg[1..]) && (|seg| > 1 ==> Lexed(seg[2..]))
  {
  }

  lemma BehindQuiets(seg: seq<Strings.Word>)
    requires seg != [] && First(seg[0]) != LPAR && First(seg[0]) != RPAR
    ensures Depth(seg[1..], 0) == Depth(seg, 0)
    ensures Quiet(Semis, seg, 0) ==> Quiet(Semis, seg[1..], 0)
    ensures Quiet(Ors, seg, 0) ==> Quiet(Ors, seg[1..], 0)
    ensures Quiet(Ands, seg, 0) ==> Quiet(Ands, seg[1..], 0)
  {
    hide Quiet, Depth;
    QuietTail(Semis, seg);
    QuietTail(Ors, seg);
    QuietTail(Ands, seg);
  }

  /** What a level asks of the two sides of its separator. */
  lemma LevelReads(seg: seq<Strings.Word>, level: nat, k: nat, ctx: set<Ctx>, ends: bool)
    requires 1 <= level <= 3 && Balanced(seg) && Reads(level, seg, ctx, ends).Ok? && k == Find(Separating(level), seg, 0)
    ensures k == |seg| ==> Reads(level + 1, seg, ctx, ends).Ok?
    ensures k < |seg| ==> Balanced(seg[..k]) && Reads(level + 1, seg[..k], ctx, false).Ok?
    ensures k < |seg| && level == 1 ==> Parse.Syntax(seg[k + 1..], ends, ctx).Ok?
    ensures k < |seg| && level > 1 ==> Balanced(seg[k + 1..]) && Reads(level, seg[k + 1..], ctx, ends).Ok?
  {
    hide Depth, Find, Syn3, Syn2, Parse.Syntax, Separates;
    FindIsOutside(Separating(level), seg, 0);
  }

  lemma PipeParts(seg: seq<Strings.Word>, k: nat, both: bool, ctx: set<Ctx>, ends: bool)
    requires Balanced(seg) && Syn2(seg, ends, ctx).Ok? && k == Find(Bars, seg, 0)
    requires both <==> k + 1 < |seg| && First(seg[k + 1]) == AMP
    ensures k == |seg| ==> Syn3(seg, ends, ctx).Ok?
    ensures k < |seg| ==> Balanced(seg[..k]) && Syn3(seg[..k], false, ctx + {POut} + if both then {PErr} else {}).Ok?
    ensures k < |seg| ==> var rest := seg[if both then k + 2 else k + 1..]; Balanced(rest) && Syn2(rest, ends, ctx + {PIn}).Ok?
  {
    hide Depth, Find, Syn3, First, Separates;
    FindIsOutside(Bars, seg, 0);
    if both {
      assert First(seg[k + 1]) == AMP && seg[k + 1..][0] == seg[k + 1] && seg[k + 1..][1..] == seg[k + 2..];
      AmpDepth(seg[k + 1..]);
    }
  }

  lemma AmpDepth(seg: seq<Strings.Word>)
    requires seg != [] && First(seg[0]) == AMP
    ensures Depth(seg[1..], 0) == Depth(seg, 0)
  {
  }

  lemma BarReads(seg: seq<Strings.Word>, k: nat, ctx: set<Ctx>, ends: bool) returns (both: bool)
    requires Enters(seg, 4) && Balanced(seg) && Syn2(seg, ends, ctx).Ok? && k == Find(Bars, seg, 0)
    requires k < |seg| ==> Balanced(seg[..k]) && Enters(seg[k..], 4)
    ensures k == |seg| ==> Syn3(seg, ends, ctx).Ok?
    ensures both <==> k + 1 < |seg| && seg[k + 1] == AMP_WORD
    ensures k < |seg| ==> seg[k] == PIPE_WORD && Syn3(seg[..k], false, ctx + {POut} + if both then {PErr} else {}).Ok?
    ensures k < |seg| ==> var rest := seg[if both then k + 2 else k + 1..]; Balanced(rest) && Syn2(rest, ends, ctx + {PIn}).Ok?
  {
    both := k + 1 < |seg| && First(seg[k + 1]) == AMP;
    PipeParts(seg, k, both, ctx, ends);
    if k < |seg| {
      assert Lexed(seg) && Separates(Bars, seg[k]);
      hide Enters, Depth, Find, Syn2, Syn3;
      BarOnly(seg, k);
    }
  }

  lemma BarOnly(seg: seq<Strings.Word>, k: nat)
    requires k < |seg| && Enters(seg[k..], 4) && Separates(Bars, seg[k]) && Lexed(seg)
    ensures seg[k] == PIPE_WORD && (k + 1 < |seg| && First(seg[k + 1]) == AMP ==> seg[k + 1] == AMP_WORD)
  {
    var b := seg[k..];
    Operator(seg, k);
    QuietTail(Ors, b);
    QuietTail(Ands, b);
    if k + 1 < |seg| {
      assert b[1..][0] == seg[k + 1];
      Operator(seg, k + 1);
    }
  }

  lemma GoodLower(s: Source, level: nat, to: nat, ctx: set<Ctx>)
    requires Good(s, level, ctx) && to <= level
    ensures Good(s, to, ctx)
  {
  }

  /** A single command that is accepted is one of the two kinds. */
  lemma {:induction false} TakeCommand(seg: seq<Strings.Word>, ctx: set<Ctx>, ends: bool) returns (s: Source)
    requires Enters(seg, 5) && Syn3(seg, ends, ctx).Ok?
    ensures Good(s, 5, ctx) && Text(s) == seg
    decreases |seg|, 0
  {
    hide Quiet, ScanAmp, Depth, Words, Permitted, PartsText, GoodParts, GatherAll, Matches, Alike, Special, Syn0, Syn3, Plain, IsOperator;
    var special := Special(seg);
    assert seg[0..] == seg;
    EmptyAlike(ends);
    WordsOk(seg, ctx, ends);
    var ps, n, t := TakeParts(seg, 0, ctx, special, Start(ends), Empty(ends), Empty(false));
    if n == |seg| {
      assert seg[0..n] == seg;
      WordsEnd(seg, ctx, special, t);
      SynSimply(seg, ctx, ends, t);
      MatchesFields(GatherAll(ps, Empty(ends)), t);
      SameWords(ps, Empty(ends), Empty(false));
      s := Simply(ps);
    } else {
      var inner, behind := ParensTaken(seg, ctx, ends, ps, n, t);
      var x := TakeSource(inner, 0, {Here}, true);
      s := Parens(ps, x, behind);
    }
  }

  lemma WordsOk(seg: seq<Strings.Word>, ctx: set<Ctx>, ends: bool)
    requires Balanced(seg) && Depth(seg[0..], 0) == 0 && Syn3(seg, ends, ctx).Ok?
    ensures Words(seg, 0, ctx, Special(seg), Start(ends)).Ok?
  {
    hide Words, Special, Syn0, Depth;
  }

  lemma ZeroStep(seg: seq<Strings.Word>, ctx: set<Ctx>, ends: bool)
    requires Lexed(seg) && Syn0(seg, ends, ctx).Ok?
    ensures var scan := ScanAmp(seg, 0);
            && !scan.Below?
            && (scan.End? ==> Enters(seg, 1) && Syn1(seg, ends, ctx).Ok?)
            && (scan.Found? ==> && Enters(seg[..scan.k], 1) && Syn1(seg[..scan.k], false, ctx).Ok? && seg[scan.k] == AMP_WORD
                                && Parse.Syntax(seg[scan.k + 1..], ends, ctx).Ok?)
  {
    hide Quiet, Depth, Syn1, Parse.Syntax, ScanAmp, Plain, IsOperator;
    var scan := ScanAmp(seg, 0);
    ScanAmpBalanced(seg, 0);
    if scan.Found? {
      AmpPrefix(seg, 0);
      ScanAmpBalanced(seg[..scan.k], 0);
      Operator(seg, scan.k);
    }
  }

  lemma PipeIs(l: Source, both: bool, r: Source, ctx: set<Ctx>)
    requires Good(l, 5, ctx + {POut} + if both then {PErr} else {}) && Good(r, 4, ctx + {PIn})
    ensures Good(Piped(l, both, r), 4, ctx)
    ensures Text(Piped(l, both, r)) == Text(l) + [PIPE_WORD] + ((if both then [AMP_WORD] else []) + Text(r))
  {
  }

  /** The source with the separator of a level between its two sides. */
  function Joined(l: Source, level: nat, sep: Strings.Word, r: Source): Source {
    if level == 1 then Then(l, sep, r) else if level == 2 then OrElse(l, r) else AndThen(l, r)
  }

  lemma JoinedIs(l: Source, level: nat, sep: Strings.Word, r: Source, ctx: set<Ctx>)
    requires 1 <= level <= 3 && Good(l, level + 1, ctx) && (if level == 1 then Remains(r, 1, ctx) else Good(r, level, ctx))
    requires if level == 1 then Separator(sep) else sep == if level == 2 then OR_WORD else AND2_WORD
    ensures Good(Joined(l, level, sep, r), level, ctx) && Text(Joined(l, level, sep, r)) == Text(l) + [sep] + Text(r)
  {
  }

  lemma DetachedIs(l: Source, r: Source, ctx: set<Ctx>)
    requires Good(l, 1, ctx) && Remains(r, 0, ctx)
    ensures Good(Detached(l, r), 0, ctx) && Text(Detached(l, r)) == Text(l) + [AMP_WORD] + Text(r)
  {
  }

  /** What a level accepts is a source of that level. */
  lemma {:induction false} TakeSource(seg: seq<Strings.Word>, level: nat, ctx: set<Ctx>, ends: bool) returns (s: Source)
    requires level <= 5 && Enters(seg, level)
    requires if level == 0 then Syn0(seg, ends, ctx).Ok? else Reads(level, seg, ctx, ends).Ok?
    ensures Good(s, level, ctx) && Text(s) == seg
    decreases |seg|, 6 - level
  {
    hide Quiet, ScanAmp, Depth, Find, Good, Remains, Text, Syn0, Syn1, Syn1a, Syn1b, Syn2, Syn3, Parse.Syntax, Plain, IsOperator, Separates;
    if level == 5 {
      s := TakeCommand(seg, ctx, ends);
    } else if level == 0 {
      ZeroStep(seg, ctx, ends);
      var scan := ScanAmp(seg, 0);
      if scan.End? {
        s := TakeSource(seg, 1, ctx, ends);
        GoodLower(s, 1, 0, ctx);
      } else {
        var l := TakeSource(seg[..scan.k], 1, ctx, false);
        var r := TakeRest(seg[scan.k + 1..], 0, ctx, ends);
        s := Detached(l, r);
        DetachedIs(l, r, ctx);
        assert seg == seg[..scan.k] + [AMP_WORD] + seg[scan.k + 1..];
      }
    } else {
      var k := LevelSplit(seg, level);
      if level == 4 {
        var both := BarReads(seg, k, ctx, ends);
        if k == |seg| {
          s := TakeSource(seg, 5, ctx, ends);
          GoodLower(s, 5, 4, ctx);
        } else {
          s := TakePipe(seg, k, both, ctx, ends);
        }
      } else {
        LevelReads(seg, level, k, ctx, ends);
        if k == |seg| {
          s := TakeSource(seg, level + 1, ctx, ends);
          GoodLower(s, level + 1, level, ctx);
        } else {
          s := TakeBoth(seg, level, k, ctx, ends);
        }
      }
    }
  }

  /** Both sides of a bar. */
  lemma {:induction false} TakePipe(seg: seq<Strings.Word>, k: nat, both: bool, ctx: set<Ctx>, ends: bool) returns (s: Source)
    requires k < |seg| && seg[k] == PIPE_WORD && Enters(seg[..k], 5) && Enters(seg[k..], 4)
    requires both <==> k + 1 < |seg| && seg[k + 1] == AMP_WORD
    requires Syn3(seg[..k], false, ctx + {POut} + if both then {PErr} else {}).Ok?
    requires var rest := seg[if both then k + 2 else k + 1..]; Balanced(rest) && Syn2(rest, ends, ctx + {PIn}).Ok?
    ensures Good(s, 4, ctx) && Text(s) == seg
    decreases |seg|, 0
  {
    hide Quiet, ScanAmp, Depth, Find, Good, Text, Syn2, Syn3, Plain, IsOperator, Separates;
    var b, n := seg[k..], if both then k + 2 else k + 1;
    var rest := seg[n..];
    assert b[0] == seg[k] && b[n - k..] == rest && (|b| > 1 ==> b[1] == seg[k + 1]);
    Behind(b, 4);
    var l := TakeSource(seg[..k], 5, ctx + {POut} + if both then {PErr} else {}, false);
    var r := TakeSource(rest, 4, ctx + {PIn}, ends);
    s := Piped(l, both, r);
    PipeIs(l, both, r, ctx);
    assert seg == seg[..k] + [PIPE_WORD] + ((if both then [AMP_WORD] else []) + rest);
  }

  lemma SeparatorIs(seg: seq<Strings.Word>, k: nat, level: nat)
    requires 1 <= level <= 3 && k < |seg| && Lexed(seg) && Separates(Separating(level), seg[k])
    ensures var w := seg[k]; if level == 1 then Separator(w) else w == if level == 2 then OR_WORD else AND2_WORD
    ensures First(seg[k]) != LPAR && First(seg[k]) != RPAR && First(seg[k]) != GT && seg[k] != PIPE_WORD
  {
    Operator(seg, k);
  }

  /** Both sides of the separator of a list, `||` or `&&`. */
  lemma {:induction false} TakeBoth(seg: seq<Strings.Word>, level: nat, k: nat, ctx: set<Ctx>, ends: bool) returns (s: Source)
    requires 1 <= level <= 3 && k < |seg| && Separates(Separating(level), seg[k]) && Lexed(seg)
    requires Enters(seg[..k], level + 1) && Enters(seg[k..], level) && Reads(level + 1, seg[..k], ctx, false).Ok?
    requires level == 1 ==> Parse.Syntax(seg[k + 1..], ends, ctx).Ok?
    requires level > 1 ==> Balanced(seg[k + 1..]) && Reads(level, seg[k + 1..], ctx, ends).Ok?
    ensures Good(s, level, ctx) && Text(s) == seg
    decreases |seg|, 0
  {
    hide Quiet, ScanAmp, Depth, Find, Good, Remains, Text, Syn0, Syn1, Syn1a, Syn1b, Syn2, Syn3, Parse.Syntax;
    var b, rest := seg[k..], seg[k + 1..];
    SeparatorIs(seg, k, level);
    assert b[0] == seg[k] && b[1..] == rest;
    hide Plain, IsOperator, Separates;
    Behind(b, level);
    var l := TakeSource(seg[..k], level + 1, ctx, false);
    var r;
    if level == 1 {
      r := TakeRest(rest, 1, ctx, ends);
    } else {
      r := TakeSource(rest, level, ctx, ends);
    }
    s := Joined(l, level, seg[k], r);
    JoinedIs(l, level, seg[k], r, ctx);
    assert seg == seg[..k] + [seg[k]] + rest;
  }

  /** What is accepted behind a separator, or as a whole. */
  lemma {:induction false} TakeRest(seg: seq<Strings.Word>, level: nat, ctx: set<Ctx>, ends: bool) returns (s: Source)
    requires level <= 1 && Enters(seg, level) && Parse.Syntax(seg, ends, ctx).Ok?
    ensures Remains(s, level, ctx) && Text(s) == seg
    decreases |seg|, 7
  {
    hide Quiet, Depth, Find, GoodParts, Syn0, Syn1, Plain, IsOperator;
    if seg == [] {
      s := Nothing;
    } else if !Starts(seg[0]) {
      Operator(seg, 0);
      assert level == 1 ==> seg[0] != AMP_WORD;
      hide ScanAmp;
      Behind(seg, level);
      var r := TakeRest(seg[1..], level, ctx, ends);
      s := Skipping(seg[0], r);
    } else {
      hide ScanAmp;
      if level == 1 {
        ZeroStep(seg, ctx, ends);
      }
      s := TakeSource(seg, level, ctx, ends);
    }
  }

  /** A command line is accepted exactly when it is written as a source, and then it has the tree of that source. */
  lemma {:induction false} AcceptsIff(seg: seq<Strings.Word>, ctx: set<Ctx>)
    requires Lexed(seg)
    ensures Parse.Syntax(seg, false, ctx).Ok? <==> exists s :: Remains(s, 0, ctx) && Text(s) == seg
    ensures forall s :: Remains(s, 0, ctx) && Text(s) == seg ==> Parse.Syntax(seg, false, ctx) == Ok(Tree(s, false))
  {
    hide Remains, Parse.Syntax, Text, Tree;
    if Parse.Syntax(seg, false, ctx).Ok? {
      var s := TakeRest(seg, 0, ctx, false);
    }
    forall s | Remains(s, 0, ctx) && Text(s) == seg
      ensures Parse.Syntax(seg, false, ctx) == Ok(Tree(s, false))
    {
      SyntaxReads(s, ctx);
    }
  }
}
