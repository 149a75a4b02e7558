/** The printer padd of proc.c, and the round trip: parsing what it prints gives the tree back. */
module ParsePrint {
  import opened Common
  import opened Strings
  import opened Parse

  const LP_WORD: Word := [LPAR]
  const RP_WORD: Word := [RPAR]
  const OR_WORD: Word := [BAR, BAR]
  const AND2_WORD: Word := [AMP, AMP]
  const PIPE_WORD: Word := [BAR]
  const SEMI_WORD: Word := [SEMI]

  /** The words padd writes for a redirection. */
  function PrintIn(lef: Option<Word>, flags: set<Flag>): seq<Word> {
    if lef.None? then [] else [if Read in flags then [LT, LT] else [LT], lef.value]
  }

  function PrintOut(rit: Option<Word>, flags: set<Flag>): seq<Word> {
    if rit.None? then []
    else [if Append in flags then [GT, GT] else [GT]] + (if Stderr in flags then [AND_WORD] else []) + [rit.value]
  }

  /** padd. */
  function Print(t: Command): seq<Word> {
    match t
    case Null => []
    case Simple(av, lef, rit, flags) => av + (PrintIn(lef, flags) + PrintOut(rit, flags))
    case Paren(sub, lef, rit, flags) => [LP_WORD] + Print(sub) + [RP_WORD] + (PrintIn(lef, flags) + PrintOut(rit, flags))
    case Pipe(car, cdr, _) => Print(car) + [PIPE_WORD] + Print(cdr)
    case And(car, cdr) => Print(car) + [AND2_WORD] + Print(cdr)
    case Or(car, cdr) => Print(car) + [OR_WORD] + Print(cdr)
    case List(car, cdr) => Print(car) + [SEMI_WORD] + Print(cdr)
  }

  // ---------------------------------------------------------------- canonical trees

  /** A word without a meaning of its own to the parser. */
  predicate Plain(w: Word) {
    var c := First(w);
    c != LPAR && c != RPAR && c != SEMI && c != NEWLINE && c != BAR && c != AMP && c != GT && c != LT
  }

  /** The words of a keyword command: plain, except inside parentheses, which balance. */
  predicate Nested(av: seq<Word>, l: nat) {
    if av == [] then l == 0
    else
      && (First(av[0]) == RPAR ==> l > 0)
      && (l == 0 ==> Plain(av[0]) || First(av[0]) == LPAR)
      && Nested(av[1..], Inside(av[0], l))
  }

  predicate GoodWords(av: seq<Word>) {
    av != [] && if Special(av) then Nested(av, 0) else forall i :: 0 <= i < |av| ==> Plain(av[i])
  }

  /** Redirections the parser accepts here, and flags that go with them; a command right before a closing
      parenthesis is marked not to fork. */
  predicate GoodRedirects(lef: Option<Word>, rit: Option<Word>, flags: set<Flag>, ctx: set<Ctx>, ends: bool) {
    && (lef.Some? ==> Plain(lef.value) && PIn !in ctx && (Read in flags ==> Here !in ctx))
    && (rit.Some? ==> Plain(rit.value) && rit.value != BANG_WORD && POut !in ctx && PErr !in ctx)
    && flags == (if ends then {NoFork} else {}) + (if lef.Some? && Read in flags then {Read} else {})
                + (if rit.Some? && Append in flags then {Append} else {})
                + (if rit.Some? && Stderr in flags then {Stderr} else {})
  }

  /** Trees as the parser builds them without `&` and `|&`: lists, conditionals and pipes nest to the
      right, and each level holds only tighter ones on its left. */
  predicate Canon(t: Command, level: nat, ctx: set<Ctx>, ends: bool)
    decreases t, 5 - level
  {
    match t
    case Null => false
    case List(car, cdr) => level == 1 && Canon(car, 2, ctx, false) && Canon(cdr, 1, ctx, ends)
    case Or(car, cdr) => level <= 2 && Canon(car, 3, ctx, false) && Canon(cdr, 2, ctx, ends)
    case And(car, cdr) => level <= 3 && Canon(car, 4, ctx, false) && Canon(cdr, 3, ctx, ends)
    case Pipe(car, cdr, flags) => level <= 4 && flags == {} && Canon(car, 5, ctx + {POut}, false) && Canon(cdr, 4, ctx + {PIn}, ends)
    case Simple(av, lef, rit, flags) => GoodWords(av) && GoodRedirects(lef, rit, flags, ctx, ends)
    case Paren(sub, lef, rit, flags) => Canon(sub, 1, {Here}, true) && GoodRedirects(lef, rit, flags, ctx, ends)
  }

  // ---------------------------------------------------------------- what a scan passes over

  /** Nothing in the segment separates at this level outside parentheses, and those balance. */
  predicate Quiet(level: Level, seg: seq<Word>, l: nat) {
    if seg == [] then l == 0
    else
      && !(l == 0 && Separates(level, seg[0])) && (First(seg[0]) == RPAR ==> l > 0)
      && Quiet(level, seg[1..], Inside(seg[0], l))
  }

  lemma {:induction false} QuietFind(level: Level, a: seq<Word>, b: seq<Word>, l: nat)
    requires Quiet(level, a, l)
    ensures Find(level, a + b, l) == |a| + Find(level, b, 0)
    ensures Depth(a, l) == 0
    decreases |a|
  {
    if a == [] {
      assert a + b == b;
    } else {
      assert (a + b)[1..] == a[1..] + b;
      QuietFind(level, a[1..], b, Inside(a[0], l));
    }
  }

  lemma {:induction false} QuietAppend(level: Level, a: seq<Word>, b: seq<Word>, l: nat)
    requires Quiet(level, a, l) && Quiet(level, b, 0)
    ensures Quiet(level, a + b, l)
    decreases |a|
  {
    if a == [] {
      assert a + b == b;
    } else {
      assert (a + b)[1..] == a[1..] + b;
      QuietAppend(level, a[1..], b, Inside(a[0], l));
    }
  }

  /** Inside parentheses everything is quiet. */
  lemma {:induction false} QuietInside(level: Level, a: seq<Word>, b: seq<Word>, l: nat)
    requires Depth(a, l) == 0 && Quiet(level, b, 1)
    ensures Quiet(level, a + b, l + 1)
    decreases |a|
  {
    if a == [] {
      assert a + b == b;
    } else {
      assert (a + b)[1..] == a[1..] + b;
      QuietInside(level, a[1..], b, Inside(a[0], l));
    }
  }

  lemma QuietParens(level: Level, a: seq<Word>)
    requires Balanced(a)
    ensures Quiet(level, [LP_WORD] + a + [RP_WORD], 0)
  {
    assert Quiet(level, [RP_WORD], 1) by {
      assert |[RP_WORD][1..]| == 0;
    }
    QuietInside(level, a, [RP_WORD], 0);
    assert ([LP_WORD] + a + [RP_WORD])[1..] == a + [RP_WORD];
  }

  lemma {:induction false} QuietPlain(level: Level, a: seq<Word>)
    requires forall i :: 0 <= i < |a| ==> !Separates(level, a[i]) && First(a[i]) != LPAR && First(a[i]) != RPAR
    ensures Quiet(level, a, 0)
    decreases |a|
  {
    if a != [] {
      QuietPlain(level, a[1..]);
    }
  }

  lemma {:induction false} QuietNested(level: Level, a: seq<Word>, l: nat)
    requires Nested(a, l)
    ensures Quiet(level, a, l)
    decreases |a|
  {
    if a != [] {
      QuietNested(level, a[1..], Inside(a[0], l));
    }
  }

  /** The same for the scan of syn0, which skips an ampersand behind a redirection or a bar. */
  predicate AmpQuiet(seg: seq<Word>, l: nat)
    decreases |seg|
  {
    if seg == [] then l == 0
    else
      var c := First(seg[0]);
      if c == LPAR then AmpQuiet(seg[1..], l + 1)
      else if c == RPAR then l > 0 && AmpQuiet(seg[1..], l - 1)
      else if c == GT || (c == BAR && At(seg[0], 1) != BAR) then
        |seg| > 1 && AmpQuiet(if seg[1] == AND_WORD then seg[2..] else seg[1..], l)
      else !(c == AMP && l == 0 && At(seg[0], 1) != AMP) && AmpQuiet(seg[1..], l)
  }

  lemma {:induction false} AmpQuietScan(a: seq<Word>, l: nat)
    requires AmpQuiet(a, l)
    ensures ScanAmp(a, l) == End(0)
    decreases |a|
  {
    if a != [] {
      var c := First(a[0]);
      if c == LPAR {
        AmpQuietScan(a[1..], l + 1);
      } else if c == RPAR {
        AmpQuietScan(a[1..], l - 1);
      } else if (c == GT || (c == BAR && At(a[0], 1) != BAR)) && a[1] == AND_WORD {
        AmpQuietScan(a[2..], l);
      } else {
        AmpQuietScan(a[1..], l);
      }
    }
  }

  lemma {:induction false} AmpQuietAppend(a: seq<Word>, b: seq<Word>, l: nat)
    requires AmpQuiet(a, l) && AmpQuiet(b, 0)
    ensures AmpQuiet(a + b, l)
    decreases |a|
  {
    if a == [] {
      assert a + b == b;
    } else {
      assert (a + b)[1..] == a[1..] + b && (a + b)[0] == a[0];
      var c := First(a[0]);
      if c == LPAR {
        AmpQuietAppend(a[1..], b, l + 1);
      } else if c == RPAR {
        AmpQuietAppend(a[1..], b, l - 1);
      } else if (c == GT || (c == BAR && At(a[0], 1) != BAR)) && a[1] == AND_WORD {
        assert (a + b)[2..] == a[2..] + b;
        AmpQuietAppend(a[2..], b, l);
      } else {
        AmpQuietAppend(a[1..], b, l);
      }
    }
  }

  lemma {:induction false} AmpQuietInside(a: seq<Word>, b: seq<Word>, l: nat)
    requires AmpQuiet(a, l) && AmpQuiet(b, 1)
    ensures AmpQuiet(a + b, l + 1)
    decreases |a|
  {
    if a == [] {
      assert a + b == b;
    } else {
      assert (a + b)[1..] == a[1..] + b && (a + b)[0] == a[0];
      var c := First(a[0]);
      if c == LPAR {
        AmpQuietInside(a[1..], b, l + 1);
      } else if c == RPAR {
        AmpQuietInside(a[1..], b, l - 1);
      } else if (c == GT || (c == BAR && At(a[0], 1) != BAR)) && a[1] == AND_WORD {
        assert (a + b)[2..] == a[2..] + b;
        AmpQuietInside(a[2..], b, l);
      } else {
        AmpQuietInside(a[1..], b, l);
      }
    }
  }

  lemma {:induction false} AmpQuietNested(a: seq<Word>, l: nat)
    requires Nested(a, l)
    ensures AmpQuiet(a, l)
    decreases |a|
  {
    if a != [] {
      var c := First(a[0]);
      if (c == GT || (c == BAR && At(a[0], 1) != BAR)) && |a| > 1 && a[1] == AND_WORD {
        assert Nested(a[1..][1..], l) && a[1..][1..] == a[2..];
        AmpQuietNested(a[2..], l);
      } else {
        AmpQuietNested(a[1..], Inside(a[0], l));
      }
    }
  }

  // ---------------------------------------------------------------- printed trees are quiet

  /** Every scan passes over the segment. */
  predicate Silent(seg: seq<Word>) {
    && AmpQuiet(seg, 0) && Quiet(Semis, seg, 0) && Quiet(Ors, seg, 0) && Quiet(Ands, seg, 0) && Quiet(Bars, seg, 0)
  }

  lemma SilentAppend(a: seq<Word>, b: seq<Word>)
    requires Silent(a) && Silent(b)
    ensures Silent(a + b)
  {
    hide AmpQuiet, Quiet;
    AmpQuietAppend(a, b, 0);
    QuietAppend(Semis, a, b, 0);
    QuietAppend(Ors, a, b, 0);
    QuietAppend(Ands, a, b, 0);
    QuietAppend(Bars, a, b, 0);
  }

  lemma {:induction false} PlainIsNested(av: seq<Word>)
    requires forall i :: 0 <= i < |av| ==> Plain(av[i])
    ensures Nested(av, 0)
    decreases |av|
  {
    if av != [] {
      PlainIsNested(av[1..]);
    }
  }

  lemma SilentNested(av: seq<Word>)
    requires Nested(av, 0)
    ensures Silent(av)
  {
    hide AmpQuiet, Quiet, Nested;
    AmpQuietNested(av, 0);
    QuietNested(Semis, av, 0);
    QuietNested(Ors, av, 0);
    QuietNested(Ands, av, 0);
    QuietNested(Bars, av, 0);
  }

  lemma SilentRedirects(lef: Option<Word>, rit: Option<Word>, flags: set<Flag>, ctx: set<Ctx>, ends: bool)
    requires GoodRedirects(lef, rit, flags, ctx, ends)
    ensures Silent(PrintIn(lef, flags) + PrintOut(rit, flags))
  {
    var a, b := PrintIn(lef, flags), PrintOut(rit, flags);
    SilentIn(lef, flags);
    SilentOut(rit, flags);
    SilentAppend(a, b);
  }

  lemma SilentIn(lef: Option<Word>, flags: set<Flag>)
    requires lef.Some? ==> Plain(lef.value)
    ensures Silent(PrintIn(lef, flags))
  {
    var a := PrintIn(lef, flags);
    if lef.Some? {
      var file: seq<Word> := [lef.value];
      assert a[1..] == file && |file[1..]| == 0;
      assert AmpQuiet(file, 0);
      QuietPlain(Semis, a);
      QuietPlain(Ors, a);
      QuietPlain(Ands, a);
      QuietPlain(Bars, a);
    }
  }

  lemma SilentOut(rit: Option<Word>, flags: set<Flag>)
    requires rit.Some? ==> Plain(rit.value)
    ensures Silent(PrintOut(rit, flags))
  {
    var a := PrintOut(rit, flags);
    if rit.Some? {
      var file: seq<Word> := [rit.value];
      assert |file[1..]| == 0 && AmpQuiet(file, 0);
      if Stderr in flags {
        assert a[2..] == file && a[1] == AND_WORD;
      } else {
        assert a[1..] == file;
      }
      QuietPlain(Semis, a);
      QuietPlain(Ors, a);
      QuietPlain(Ands, a);
      QuietPlain(Bars, a);
    }
  }

  /** A word that is not skipped in front of a command. */
  predicate Starts(w: Word) {
    First(w) != SEMI && First(w) != AMP && First(w) != NEWLINE
  }

  /** What the scans of the levels below 5 see of a canonical tree of that level. */
  predicate SilentAt(seg: seq<Word>, level: nat) {
    && AmpQuiet(seg, 0) && Balanced(seg) && seg != [] && Starts(seg[0])
    && (level > 1 ==> Quiet(Semis, seg, 0))
    && (level > 2 ==> Quiet(Ors, seg, 0))
    && (level > 3 ==> Quiet(Ands, seg, 0))
    && (level > 4 ==> Quiet(Bars, seg, 0))
  }

  lemma SilentSeparated(a: seq<Word>, w: Word, b: seq<Word>, level: nat)
    requires 1 <= level <= 4 && SilentAt(a, level) && SilentAt(b, level)
    requires match level
             case 1 => w == SEMI_WORD
             case 2 => w == OR_WORD
             case 3 => w == AND2_WORD
             case 4 => w == PIPE_WORD
             case _ => true
    ensures SilentAt(a + [w] + b, level)
  {
    hide Quiet, AmpQuiet, Depth;
    assert a + [w] + b == a + ([w] + b) && (a + [w] + b)[0] == a[0];
    WordInFront(w, b, level);
    AmpQuietAppend(a, [w] + b, 0);
    DepthAppend(a, [w] + b, 0);
    if level > 1 { QuietAppend(Semis, a, [w] + b, 0); }
    if level > 2 { QuietAppend(Ors, a, [w] + b, 0); }
    if level > 3 { QuietAppend(Ands, a, [w] + b, 0); }
  }

  lemma WordInFront(w: Word, b: seq<Word>, level: nat)
    requires 1 <= level <= 4 && SilentAt(b, level)
    requires match level
             case 1 => w == SEMI_WORD
             case 2 => w == OR_WORD
             case 3 => w == AND2_WORD
             case 4 => w == PIPE_WORD
             case _ => true
    ensures AmpQuiet([w] + b, 0) && Balanced([w] + b)
    ensures level > 1 ==> Quiet(Semis, [w] + b, 0)
    ensures level > 2 ==> Quiet(Ors, [w] + b, 0)
    ensures level > 3 ==> Quiet(Ands, [w] + b, 0)
  {
    assert ([w] + b)[1..] == b;
  }

  lemma SilentIsAt(seg: seq<Word>, level: nat)
    requires Silent(seg) && seg != [] && Starts(seg[0])
    ensures SilentAt(seg, level)
  {
    QuietFind(Semis, seg, [], 0);
  }

  lemma {:induction false} PrintIsSilent(t: Command, level: nat, ctx: set<Ctx>, ends: bool)
    requires 1 <= level <= 5 && Canon(t, level, ctx, ends)
    ensures SilentAt(Print(t), level)
    decreases t, 5 - level
  {
    hide Quiet, AmpQuiet, Depth, SilentAt, Silent, GoodRedirects;
    match t
    case List(car, cdr) =>
      PrintIsSilent(car, 2, ctx, false);
      PrintIsSilent(cdr, 1, ctx, ends);
      Lower(Print(car), 2, 1);
      SilentSeparated(Print(car), SEMI_WORD, Print(cdr), 1);
    case Or(car, cdr) =>
      PrintIsSilent(car, 3, ctx, false);
      PrintIsSilent(cdr, 2, ctx, ends);
      Lower(Print(car), 3, 2);
      SilentSeparated(Print(car), OR_WORD, Print(cdr), 2);
      Lower(Print(t), 2, level);
    case And(car, cdr) =>
      PrintIsSilent(car, 4, ctx, false);
      PrintIsSilent(cdr, 3, ctx, ends);
      Lower(Print(car), 4, 3);
      SilentSeparated(Print(car), AND2_WORD, Print(cdr), 3);
      Lower(Print(t), 3, level);
    case Pipe(car, cdr, _) =>
      PrintIsSilent(car, 5, ctx + {POut}, false);
      PrintIsSilent(cdr, 4, ctx + {PIn}, ends);
      Lower(Print(car), 5, 4);
      SilentSeparated(Print(car), PIPE_WORD, Print(cdr), 4);
      Lower(Print(t), 4, level);
    case Simple(av, lef, rit, flags) =>
      GoodIsNested(av);
      SilentNested(av);
      SilentRedirects(lef, rit, flags, ctx, ends);
      SilentAppend(av, PrintIn(lef, flags) + PrintOut(rit, flags));
      SilentIsAt(Print(t), level);
    case Paren(sub, lef, rit, flags) =>
      PrintIsSilent(sub, 1, {Here}, true);
      SilentParens(Print(sub));
      SilentRedirects(lef, rit, flags, ctx, ends);
      SilentAppend([LP_WORD] + Print(sub) + [RP_WORD], PrintIn(lef, flags) + PrintOut(rit, flags));
      SilentIsAt(Print(t), level);
  }

  lemma GoodIsNested(av: seq<Word>)
    requires GoodWords(av)
    ensures Nested(av, 0) && (Plain(av[0]) || First(av[0]) == LPAR)
  {
    if !Special(av) {
      PlainIsNested(av);
    }
  }

  lemma Lower(seg: seq<Word>, level: nat, to: nat)
    requires SilentAt(seg, level) && to <= level
    ensures SilentAt(seg, to)
  {
  }

  lemma SilentParens(a: seq<Word>)
    requires SilentAt(a, 1)
    ensures Silent([LP_WORD] + a + [RP_WORD])
  {
    QuietParens(Semis, a);
    QuietParens(Ors, a);
    QuietParens(Ands, a);
    QuietParens(Bars, a);
    assert |[RP_WORD][1..]| == 0 && AmpQuiet([RP_WORD], 1);
    AmpQuietInside(a, [RP_WORD], 0);
    assert ([LP_WORD] + a + [RP_WORD])[1..] == a + [RP_WORD];
  }

  // ---------------------------------------------------------------- syn3 reads back a command

  lemma DepthFrom(seg: seq<Word>, p: nat, n: nat, l: nat)
    requires p <= n <= |seg| && Depth(seg[p..n], l) >= 0
    ensures Depth(seg[p..], l) == Depth(seg[n..], Depth(seg[p..n], l))
  {
    assert seg[p..] == seg[p..n] + seg[n..];
    DepthAppend(seg[p..n], seg[n..], l);
  }

  /** The words of the command are stored one by one. */
  lemma {:induction false} RunWords(seg: seq<Word>, n: nat, p: nat, ctx: set<Ctx>, special: bool, s: Partial) returns (s': Partial)
    requires p <= n <= |seg| && Sane(s, p) && Depth(seg[p..], s.l) == 0 && Nested(seg[p..n], s.l)
    requires !special ==> s.l == 0 && forall i :: p <= i < n ==> Plain(seg[i])
    ensures s'.l == 0 && Sane(s', n) && Depth(seg[n..], 0) == 0
    ensures Words(seg, p, ctx, special, s) == Words(seg, n, ctx, special, s')
    ensures s'.av == s.av + seg[p..n] && s'.lef == s.lef && s'.rit == s.rit && s'.flags == s.flags
    ensures !special ==> s'.lp == s.lp
    decreases n - p
  {
    hide Words, Depth;
    if p == n {
      s' := s;
    } else {
      var w := seg[p];
      assert seg[p..n][1..] == seg[p + 1..n] && seg[p..n][0] == w;
      WordsStep(seg, p, ctx, special, s);
      s' := RunWords(seg, n, p + 1, ctx, special, Stored(w, p, special, s));
      assert [w] + seg[p + 1..n] == seg[p..n];
    }
  }

  /** The words inside parentheses are passed over. */
  lemma {:induction false} SkipInner(seg: seq<Word>, n: nat, p: nat, ctx: set<Ctx>, s: Partial)
    requires p <= n <= |seg| && Sane(s, p) && s.l > 0 && Depth(seg[p..n], s.l - 1) == 0 && Depth(seg[p..], s.l) == 0
    ensures Depth(seg[n..], 1) == 0
    ensures Words(seg, p, ctx, false, s) == Words(seg, n, ctx, false, s.(l := 1))
    decreases n - p
  {
    if p < n {
      var w := seg[p];
      assert seg[p..][1..] == seg[p + 1..] && seg[p..n][1..] == seg[p + 1..n] && seg[p..n][0] == w;
      SkipInner(seg, n, p + 1, ctx,
                s.(l := if First(w) == LPAR then s.l + 1 else if First(w) == RPAR then s.l - 1 else s.l));
    }
  }

  lemma RunIn(seg: seq<Word>, p: nat, ctx: set<Ctx>, special: bool, s: Partial, lef: Option<Word>, flags: set<Flag>)
    requires p <= |seg| && Sane(s, p) && s.l == 0 && Depth(seg[p..], 0) == 0 && s.lef == None
    requires p + |PrintIn(lef, flags)| <= |seg| && seg[p..p + |PrintIn(lef, flags)|] == PrintIn(lef, flags)
    requires Read !in s.flags
    requires lef.Some? ==> Plain(lef.value) && PIn !in ctx && (Read in flags ==> Here !in ctx)
    ensures var q := p + |PrintIn(lef, flags)|;
            var t := s.(lef := lef, flags := s.flags + if lef.Some? && Read in flags then {Read} else {});
            Sane(t, q) && Depth(seg[q..], 0) == 0 && Words(seg, p, ctx, special, s) == Words(seg, q, ctx, special, t)
  {
    hide Depth;
    if lef.Some? {
      assert seg[p] == PrintIn(lef, flags)[0] && seg[p + 1] == PrintIn(lef, flags)[1];
      PlainSegment(seg, p, p + 2);
      var t := s.(lef := lef, flags := s.flags + if lef.Some? && Read in flags then {Read} else {});
      assert Input(seg, p, ctx, s) == Ok(Redirect(t, p + 2));
      WordsRedirect(seg, p, ctx, special, s);
    } else {
      assert s.(lef := lef, flags := s.flags + {}) == s;
    }
  }

  lemma PlainSegment(seg: seq<Word>, p: nat, n: nat)
    requires p <= n <= |seg| && Depth(seg[p..], 0) == 0
    requires forall i :: p <= i < n ==> First(seg[i]) != LPAR && First(seg[i]) != RPAR
    ensures Depth(seg[n..], 0) == 0
  {
    PlainDepth(seg[p..n], 0);
    DepthFrom(seg, p, n, 0);
  }

  lemma RunOut(seg: seq<Word>, p: nat, ctx: set<Ctx>, special: bool, s: Partial, rit: Option<Word>, flags: set<Flag>)
    requires p <= |seg| && Sane(s, p) && s.l == 0 && Depth(seg[p..], 0) == 0
    requires seg[p..] == PrintOut(rit, flags)
    requires rit.Some? ==> Plain(rit.value) && rit.value != BANG_WORD && POut !in ctx && PErr !in ctx && s.rit == None
    requires rit.None? ==> s.rit == None
    ensures Words(seg, p, ctx, special, s) ==
            Ok(s.(rit := rit, flags := s.flags + (if rit.Some? && Append in flags then {Append} else {})
                                               + (if rit.Some? && Stderr in flags then {Stderr} else {})))
  {
    var o := PrintOut(rit, flags);
    if rit.Some? {
      assert forall i :: 0 <= i < |o| ==> seg[p + i] == o[i];
      var n := |seg|;
      PlainDepth(seg[p..n], 0);
      DepthFrom(seg, p, n, 0);
      assert n == p + |o|;
      var r := Output(seg, p, ctx, s);
      assert r.Ok? && r.value.next == n;
      assert r.value.s.flags == s.flags + (if Append in flags then {Append} else {}) + (if Stderr in flags then {Stderr} else {});
    } else {
      assert p == |seg|;
    }
  }

  lemma RunRedirects(seg: seq<Word>, p: nat, ctx: set<Ctx>, special: bool, s: Partial, lef: Option<Word>, rit: Option<Word>,
                     flags: set<Flag>, ends: bool)
    requires p <= |seg| && Sane(s, p) && s.l == 0 && Depth(seg[p..], 0) == 0 && s.lef == None && s.rit == None
    requires seg[p..] == PrintIn(lef, flags) + PrintOut(rit, flags)
    requires GoodRedirects(lef, rit, flags, ctx, ends) && s.flags == if ends then {NoFork} else {}
    ensures Words(seg, p, ctx, special, s) == Ok(s.(lef := lef, rit := rit, flags := flags))
  {
    hide Words, Depth;
    var a, b := PrintIn(lef, flags), PrintOut(rit, flags);
    assert seg[p..p + |a|] == seg[p..][..|a|] == a;
    assert seg[p + |a|..] == seg[p..][|a|..] == b;
    RunIn(seg, p, ctx, special, s, lef, flags);
    var t := s.(lef := lef, flags := s.flags + if lef.Some? && Read in flags then {Read} else {});
    RunOut(seg, p + |a|, ctx, special, t, rit, flags);
  }

  lemma {:induction false} SpecialAppend(av: seq<Word>, r: seq<Word>)
    requires r == [] || First(r[0]) == LT || First(r[0]) == GT
    ensures Special(av + r) == Special(av)
    decreases |av|
  {
    if av == [] {
      assert av + r == r;
    } else {
      assert (av + r)[1..] == av[1..] + r;
      SpecialAppend(av[1..], r);
    }
  }

  lemma ParseSimple(av: seq<Word>, lef: Option<Word>, rit: Option<Word>, flags: set<Flag>, ctx: set<Ctx>, ends: bool)
    requires GoodWords(av) && GoodRedirects(lef, rit, flags, ctx, ends)
    requires Balanced(av + (PrintIn(lef, flags) + PrintOut(rit, flags)))
    ensures Syn3(av + (PrintIn(lef, flags) + PrintOut(rit, flags)), ends, ctx) == Ok(Simple(av, lef, rit, flags))
  {
    hide Words, Depth, Nested, GoodRedirects, Output, Input;
    var r := PrintIn(lef, flags) + PrintOut(rit, flags);
    var seg, n := av + r, |av|;
    var special := Special(av);
    SpecialAppend(av, r);
    GoodIsNested(av);
    assert seg[0..] == seg && seg[0..n] == av && seg[n..] == r;
    var s := RunWords(seg, n, 0, ctx, special, Start(ends));
    RunRedirects(seg, n, ctx, special, s, lef, rit, flags, ends);
    assert [] + av == av;
  }

  lemma ParseParen(sub: seq<Word>, t: Command, lef: Option<Word>, rit: Option<Word>, flags: set<Flag>, ctx: set<Ctx>, ends: bool)
    requires GoodRedirects(lef, rit, flags, ctx, ends) && Balanced(sub)
    requires Balanced([LP_WORD] + sub + [RP_WORD] + (PrintIn(lef, flags) + PrintOut(rit, flags)))
    requires Syn0(sub, true, {Here}) == Ok(t)
    ensures Syn3([LP_WORD] + sub + [RP_WORD] + (PrintIn(lef, flags) + PrintOut(rit, flags)), ends, ctx)
            == Ok(Paren(t, lef, rit, flags))
  {
    hide Depth, GoodRedirects, Output, Input, Syn0;
    var r := PrintIn(lef, flags) + PrintOut(rit, flags);
    var seg, n := [LP_WORD] + sub + [RP_WORD] + r, |sub| + 1;
    assert seg[0] == LP_WORD && seg[n] == RP_WORD && seg[1..n] == sub && seg[n + 1..] == r && seg[0..] == seg;
    ParenIsNoKeyword(seg);
    ParenDepths(seg, n);
    var s0 := Start(ends);
    var s1 := s0.(lp := 1, l := 1);
    assert Words(seg, 0, ctx, false, s0) == Words(seg, 1, ctx, false, s1);
    SkipInner(seg, n, 1, ctx, s1);
    var s2 := s1.(rp := n, l := 0);
    assert Words(seg, n, ctx, false, s1) == Words(seg, n + 1, ctx, false, s2);
    RunRedirects(seg, n + 1, ctx, false, s2, lef, rit, flags, ends);
  }

  lemma ParenIsNoKeyword(seg: seq<Word>)
    requires seg != [] && seg[0] == LP_WORD
    ensures !Special(seg)
  {
    assert |Chars("exit")| == 4 && |Chars("else")| == 4 && |Chars("foreach")| == 7 && |Chars("if")| == 2;
    assert Chars("@")[0] == '@' as int && |Chars("set")| == 3 && |Chars("switch")| == 6 && |Chars("while")| == 5;
  }

  lemma ParenDepths(seg: seq<Word>, n: nat)
    requires 1 <= n < |seg| && seg[0] == LP_WORD && seg[n] == RP_WORD && Balanced(seg[1..n]) && Balanced(seg)
    ensures Depth(seg[0..], 0) == 0 && Depth(seg[1..], 1) == 0 && Depth(seg[n..], 1) == 0 && Depth(seg[n + 1..], 0) == 0
  {
    assert seg[0..] == seg && seg[n..][1..] == seg[n + 1..];
    DeeperDepth(seg[1..n], 0);
    DepthFrom(seg, 1, n, 1);
  }

  lemma {:induction false} DeeperDepth(a: seq<Word>, l: nat)
    requires Depth(a, l) >= 0
    ensures Depth(a, l + 1) == Depth(a, l) + 1
    decreases |a|
  {
    if a != [] {
      DeeperDepth(a[1..], if First(a[0]) == LPAR then l + 1 else if First(a[0]) == RPAR then l - 1 else l);
    }
  }

  // ---------------------------------------------------------------- the theorem

  /** At a separator outside parentheses the scan stops. */
  lemma FindSeparator(level: Level, a: seq<Word>, w: Word, b: seq<Word>)
    requires Quiet(level, a, 0) && Separates(level, w)
    ensures var seg := a + [w] + b; Find(level, seg, 0) == |a| && seg[..|a|] == a && seg[|a| + 1..] == b && seg[|a|] == w
  {
    assert a + [w] + b == a + ([w] + b);
    QuietFind(level, a, [w] + b, 0);
  }

  lemma FindNothing(level: Level, a: seq<Word>)
    requires Quiet(level, a, 0)
    ensures Find(level, a, 0) == |a|
  {
    assert a + [] == a;
    QuietFind(level, a, [], 0);
  }

  lemma ReadPipe(a: seq<Word>, b: seq<Word>, ctx: set<Ctx>, ends: bool)
    requires SilentAt(a, 5) && SilentAt(b, 4) && Balanced(a + [PIPE_WORD] + b)
    requires Syn3(a, false, ctx + {POut}).Ok? && Syn2(b, ends, ctx + {PIn}).Ok?
    ensures Syn2(a + [PIPE_WORD] + b, ends, ctx)
            == Ok(Pipe(Syn3(a, false, ctx + {POut}).value, Syn2(b, ends, ctx + {PIn}).value, {}))
  {
    hide Depth, Find, Quiet, AmpQuiet, Syn3;
    FindSeparator(Bars, a, PIPE_WORD, b);
    assert First(b[0]) != AMP && (a + [PIPE_WORD] + b)[|a| + 1] == b[0];
    assert ctx + {POut} + {} == ctx + {POut};
  }

  lemma ReadAnd(a: seq<Word>, b: seq<Word>, ctx: set<Ctx>, ends: bool)
    requires SilentAt(a, 4) && SilentAt(b, 3) && Balanced(a + [AND2_WORD] + b)
    requires Syn2(a, false, ctx).Ok? && Syn1b(b, ends, ctx).Ok?
    ensures Syn1b(a + [AND2_WORD] + b, ends, ctx) == Ok(And(Syn2(a, false, ctx).value, Syn1b(b, ends, ctx).value))
  {
    hide Depth, Find, Quiet, AmpQuiet, Syn2;
    FindSeparator(Ands, a, AND2_WORD, b);
  }

  lemma ReadOr(a: seq<Word>, b: seq<Word>, ctx: set<Ctx>, ends: bool)
    requires SilentAt(a, 3) && SilentAt(b, 2) && Balanced(a + [OR_WORD] + b)
    requires Syn1b(a, false, ctx).Ok? && Syn1a(b, ends, ctx).Ok?
    ensures Syn1a(a + [OR_WORD] + b, ends, ctx) == Ok(Or(Syn1b(a, false, ctx).value, Syn1a(b, ends, ctx).value))
  {
    hide Depth, Find, Quiet, AmpQuiet, Syn1b;
    FindSeparator(Ors, a, OR_WORD, b);
  }

  lemma ReadList(a: seq<Word>, b: seq<Word>, ctx: set<Ctx>, ends: bool)
    requires SilentAt(a, 2) && SilentAt(b, 1) && Balanced(a + [SEMI_WORD] + b)
    requires Syn1a(a, false, ctx).Ok? && Syntax(b, ends, ctx).Ok? && !Syntax(b, ends, ctx).value.Null?
    ensures Syn1(a + [SEMI_WORD] + b, ends, ctx) == Ok(List(Syn1a(a, false, ctx).value, Syntax(b, ends, ctx).value))
  {
    hide Depth, Find, Quiet, AmpQuiet, Syn1a, Syntax;
    FindSeparator(Semis, a, SEMI_WORD, b);
  }

  /** Where nothing separates, each level hands the segment to the next tighter one. */
  lemma ReadThrough(a: seq<Word>, level: nat, ctx: set<Ctx>, ends: bool)
    requires 1 <= level <= 4 && SilentAt(a, level + 1)
    ensures level == 4 ==> Syn2(a, ends, ctx) == Syn3(a, ends, ctx)
    ensures level == 3 ==> Syn1b(a, ends, ctx) == Syn2(a, ends, ctx)
    ensures level == 2 ==> Syn1a(a, ends, ctx) == Syn1b(a, ends, ctx)
    ensures level == 1 ==> Syn1(a, ends, ctx) == Syn1a(a, ends, ctx)
  {
    hide Depth, Find, Quiet, AmpQuiet, Syn3, Syntax, Syn0;
    FindNothing(if level == 4 then Bars else if level == 3 then Ands else if level == 2 then Ors else Semis, a);
  }

  /** Without an ampersand that ends a command, syntax and syn0 go straight on to syn1. */
  lemma ReadAll(a: seq<Word>, ctx: set<Ctx>, ends: bool)
    requires SilentAt(a, 1)
    ensures Syntax(a, ends, ctx) == Syn0(a, ends, ctx) == Syn1(a, ends, ctx)
  {
    hide Depth, Find, Quiet, AmpQuiet, Syn1;
    AmpQuietScan(a, 0);
  }

  /** The level's own parser. */
  function Reads(level: nat, seg: seq<Word>, ctx: set<Ctx>, ends: bool): Parsed<Command>
    requires 1 <= level <= 5 && Balanced(seg)
  {
    match level
    case 1 => Syn1(seg, ends, ctx)
    case 2 => Syn1a(seg, ends, ctx)
    case 3 => Syn1b(seg, ends, ctx)
    case 4 => Syn2(seg, ends, ctx)
    case _ => Syn3(seg, ends, ctx)
  }

  /** Each level of the parser reads back what padd writes for a canonical tree of that level. */
  lemma {:induction false} ReadsPrinted(t: Command, level: nat, ctx: set<Ctx>, ends: bool)
    requires 1 <= level <= 5 && Canon(t, level, ctx, ends)
    ensures SilentAt(Print(t), level) && Reads(level, Print(t), ctx, ends) == Ok(t)
    decreases t, 5 - level
  {
    hide Depth, Quiet, AmpQuiet, GoodRedirects, GoodWords, Syn3, Syn2, Syn1b, Syn1a, Syn1, Syn0, Syntax;
    PrintIsSilent(t, level, ctx, ends);
    if level == 1 && t.List? {
      ReadsPrinted(t.car, 2, ctx, false);
      ReadsPrinted(t.cdr, 1, ctx, ends);
      ReadAll(Print(t.cdr), ctx, ends);
      ReadList(Print(t.car), Print(t.cdr), ctx, ends);
    } else if level == 2 && t.Or? {
      ReadsPrinted(t.car, 3, ctx, false);
      ReadsPrinted(t.cdr, 2, ctx, ends);
      ReadOr(Print(t.car), Print(t.cdr), ctx, ends);
    } else if level == 3 && t.And? {
      ReadsPrinted(t.car, 4, ctx, false);
      ReadsPrinted(t.cdr, 3, ctx, ends);
      ReadAnd(Print(t.car), Print(t.cdr), ctx, ends);
    } else if level == 4 && t.Pipe? {
      ReadsPrinted(t.car, 5, ctx + {POut}, false);
      ReadsPrinted(t.cdr, 4, ctx + {PIn}, ends);
      ReadPipe(Print(t.car), Print(t.cdr), ctx, ends);
    } else if level < 5 {
      ReadsPrinted(t, level + 1, ctx, ends);
      ReadThrough(Print(t), level, ctx, ends);
    } else if t.Simple? {
      ParseSimple(t.av, t.lef, t.rit, t.flags, ctx, ends);
    } else {
      ReadsPrinted(t.sub, 1, {Here}, true);
      ReadAll(Print(t.sub), {Here}, true);
      ParseParen(Print(t.sub), t.sub, t.lef, t.rit, t.flags, ctx, ends);
    }
  }

  /** The round trip: syntax reads back every canonical tree, the empty one included. */
  lemma SyntaxReadsPrinted(t: Command, ctx: set<Ctx>, ends: bool)
    requires t.Null? || Canon(t, 1, ctx, ends)
    ensures Syntax(Print(t), ends, ctx) == Ok(t)
  {
    if !t.Null? {
      hide Canon, Print, Syn1, Depth, Quiet, AmpQuiet;
      ReadsPrinted(t, 1, ctx, ends);
      ReadAll(Print(t), ctx, ends);
    }
  }
}
