/** The routines syntax and syn0 to syn3 of parse.c as they run: loops over the word list between p1 and p2,
    proved to build the tree that module Parse describes. The list is a sequence here; p2 stays a valid word. */
module Parser {
  import opened Common
  import opened Strings
  import opened Parse

  /** The words between p1 and p2. */
  function Segment(words: seq<Word>, p1: nat, p2: nat): seq<Word>
    requires p1 <= p2 < |words|
  {
    words[p1..p2]
  }

  function Ends(words: seq<Word>, p2: nat): bool
    requires p2 < |words|
  {
    First(words[p2]) == RPAR
  }

  lemma SegmentStep(words: seq<Word>, p1: nat, p: nat, p2: nat)
    requires p1 <= p < p2 < |words|
    ensures var seg, rest := Segment(words, p1, p2), Segment(words, p, p2);
            && rest != [] && rest[0] == words[p] && rest[1..] == Segment(words, p + 1, p2) && seg[p - p1] == words[p]
            && seg[..p - p1] == Segment(words, p1, p) && seg[p - p1..] == rest && seg[p - p1 + 1..] == Segment(words, p + 1, p2)
  {
  }

  // ---------------------------------------------------------------- the scans

  /** One turn of a scan: the search goes on behind the word, or stops here. */
  lemma ScanStep(level: Level, words: seq<Word>, p1: nat, p: nat, p2: nat, l: nat)
    requires p1 <= p < p2 < |words| && Depth(Segment(words, p, p2), l) == 0
    requires Find(level, Segment(words, p1, p2), 0) == p - p1 + Find(level, Segment(words, p, p2), l)
    ensures First(words[p]) == RPAR ==> l > 0
    ensures if l == 0 && Separates(level, words[p]) then Find(level, Segment(words, p1, p2), 0) == p - p1
            else && Depth(Segment(words, p + 1, p2), Inside(words[p], l)) == 0
                 && Find(level, Segment(words, p1, p2), 0) == p + 1 - p1 + Find(level, Segment(words, p + 1, p2), Inside(words[p], l))
  {
    SegmentStep(words, p1, p, p2);
  }

  method Syntax(words: seq<Word>, p1: nat, p2: nat, flags: set<Ctx>) returns (r: Parsed<Command>)
    requires p1 <= p2 < |words|
    ensures r == Parse.Syntax(Segment(words, p1, p2), Ends(words, p2), flags)
    decreases p2 - p1, 7
  {
    var p := p1;
    while p != p2
      invariant p1 <= p <= p2
      invariant Parse.Syntax(Segment(words, p, p2), Ends(words, p2), flags)
             == Parse.Syntax(Segment(words, p1, p2), Ends(words, p2), flags)
    {
      SegmentStep(words, p1, p, p2);
      var c := First(words[p]);
      if c == SEMI || c == AMP || c == NEWLINE {
        p := p + 1;
      } else {
        r := Syn0(words, p, p2, flags);
        return;
      }
    }
    r := Ok(Null);
  }

  method Syn0(words: seq<Word>, p1: nat, p2: nat, flags: set<Ctx>) returns (r: Parsed<Command>)
    requires p1 <= p2 < |words|
    ensures r == Parse.Syn0(Segment(words, p1, p2), Ends(words, p2), flags)
    decreases p2 - p1, 6
  {
    hide Parse.Syntax, Parse.Syn1, Depth, ScanAmp;
    ghost var seg := Segment(words, p1, p2);
    ScanAmpBalanced(seg, 0);
    var l: nat, p := 0, p1;
    while p != p2
      invariant p1 <= p <= p2
      invariant ScanAmp(seg, 0) == Later(ScanAmp(Segment(words, p, p2), l), p - p1)
      decreases p2 - p
    {
      SegmentStep(words, p1, p, p2);
      AmpStep(words, p, p2, l);
      var w := words[p];
      var c := First(w);
      if c == LPAR {
        l := l + 1;
      } else if c == RPAR {
        if l == 0 {
          return Err(TooManyRp);
        }
        l := l - 1;
      } else if c == GT || (c == BAR && At(w, 1) != BAR) {
        if p + 1 != p2 && words[p + 1] == AND_WORD {
          p := p + 1;
        }
      } else if c == AMP && l == 0 && At(w, 1) != AMP {
        SkipAmp(words, p, p2, flags);
        var t1 :- Syn1(words, p1, p, flags);
        EmptyFails(flags);
        var cdr :- Syntax(words, p, p2, flags);
        if t1.List? || t1.And? || t1.Or? {
          t1 := Paren(t1, None, None, {Ampersand, NoInterrupt});
        } else {
          t1 := WithFlags(t1, {Ampersand, NoInterrupt});
        }
        return Ok(List(t1, cdr));
      }
      p := p + 1;
    }
    assert ScanAmp(seg, 0) == End(l) by {
      EndOfAmps(words, p2, l);
    }
    if l == 0 {
      r := Syn1(words, p1, p2, flags);
    } else {
      r := Err(TooManyLp);
    }
  }

  /** One turn of the scan of syn0. */
  lemma AmpStep(words: seq<Word>, p: nat, p2: nat, l: nat)
    requires p < p2 < |words|
    ensures var c, scan := First(words[p]), ScanAmp(Segment(words, p, p2), l);
            if c == LPAR then scan == Later(ScanAmp(Segment(words, p + 1, p2), l + 1), 1)
            else if c == RPAR then scan == if l == 0 then Below else Later(ScanAmp(Segment(words, p + 1, p2), l - 1), 1)
            else if (c == GT || (c == BAR && At(words[p], 1) != BAR)) && p + 1 != p2 && words[p + 1] == AND_WORD then
              scan == Later(ScanAmp(Segment(words, p + 2, p2), l), 2)
            else if c == AMP && l == 0 && At(words[p], 1) != AMP then scan == Found(0)
            else scan == Later(ScanAmp(Segment(words, p + 1, p2), l), 1)
  {
    SegmentStep(words, p, p, p2);
    assert Segment(words, p, p2)[1..] == Segment(words, p + 1, p2);
    if p + 1 != p2 {
      assert Segment(words, p, p2)[2..] == Segment(words, p + 2, p2);
    }
  }

  lemma EndOfAmps(words: seq<Word>, p2: nat, l: nat)
    requires p2 < |words|
    ensures ScanAmp(Segment(words, p2, p2), l) == End(l)
  {
  }

  lemma EmptyFails(flags: set<Ctx>)
    ensures Parse.Syn1([], false, flags).Err?
  {
    var s := Parse.Syn3([], false, flags);
    assert s.Err? && Parse.Syn2([], false, flags) == s && Parse.Syn1b([], false, flags) == s
        && Parse.Syn1a([], false, flags) == s;
  }

  lemma SkipAmp(words: seq<Word>, p: nat, p2: nat, flags: set<Ctx>)
    requires p < p2 < |words| && First(words[p]) == AMP
    ensures Parse.Syntax(Segment(words, p, p2), Ends(words, p2), flags)
         == Parse.Syntax(Segment(words, p + 1, p2), Ends(words, p2), flags)
  {
    hide Parse.Syn0;
    SegmentStep(words, p, p, p2);
  }

  /** More flags for a node that has some. */
  function WithFlags(t: Command, f: set<Flag>): Command {
    match t
    case Simple(av, lef, rit, flags) => Simple(av, lef, rit, flags + f)
    case Paren(sub, lef, rit, flags) => Paren(sub, lef, rit, flags + f)
    case Pipe(car, cdr, flags) => Pipe(car, cdr, flags + f)
    case _ => t
  }

  method Syn1(words: seq<Word>, p1: nat, p2: nat, flags: set<Ctx>) returns (r: Parsed<Command>)
    requires p1 <= p2 < |words| && Balanced(Segment(words, p1, p2))
    ensures r == Parse.Syn1(Segment(words, p1, p2), Ends(words, p2), flags)
    decreases p2 - p1, 5
  {
    hide Parse.Syntax, Parse.Syn1a, Depth, Find;
    FindIsOutside(Semis, Segment(words, p1, p2), 0);
    var l: nat := 0;
    ghost var k := Find(Semis, Segment(words, p1, p2), 0);
    for p := p1 to p2
      invariant Depth(Segment(words, p, p2), l) == 0 && k == p - p1 + Find(Semis, Segment(words, p, p2), l)
    {
      ScanStep(Semis, words, p1, p, p2, l);
      SegmentStep(words, p1, p, p2);
      var c := First(words[p]);
      if c == LPAR {
        l := l + 1;
      } else if c == RPAR {
        l := l - 1;
      } else if (c == SEMI || c == NEWLINE) && l == 0 {
        var car :- Syn1a(words, p1, p, flags);
        var cdr :- Syntax(words, p + 1, p2, flags);
        return Ok(if cdr.Null? then List(Null, car) else List(car, cdr));
      }
    }
    EndOfScan(Semis, words, p2, l);
    r := Syn1a(words, p1, p2, flags);
  }

  lemma EndOfScan(level: Level, words: seq<Word>, p2: nat, l: nat)
    requires p2 < |words|
    ensures Find(level, Segment(words, p2, p2), l) == 0
  {
  }

  method Syn1a(words: seq<Word>, p1: nat, p2: nat, flags: set<Ctx>) returns (r: Parsed<Command>)
    requires p1 <= p2 < |words| && Balanced(Segment(words, p1, p2))
    ensures r == Parse.Syn1a(Segment(words, p1, p2), Ends(words, p2), flags)
    decreases p2 - p1, 4
  {
    hide Parse.Syn1b, Depth, Find;
    FindIsOutside(Ors, Segment(words, p1, p2), 0);
    var l: nat := 0;
    ghost var k := Find(Ors, Segment(words, p1, p2), 0);
    for p := p1 to p2
      invariant Depth(Segment(words, p, p2), l) == 0 && k == p - p1 + Find(Ors, Segment(words, p, p2), l)
    {
      ScanStep(Ors, words, p1, p, p2, l);
      SegmentStep(words, p1, p, p2);
      var c := First(words[p]);
      if c == LPAR {
        l := l + 1;
      } else if c == RPAR {
        l := l - 1;
      } else if c == BAR && At(words[p], 1) == BAR && l == 0 {
        var car :- Syn1b(words, p1, p, flags);
        var cdr :- Syn1a(words, p + 1, p2, flags);
        return Ok(Or(car, cdr));
      }
    }
    EndOfScan(Ors, words, p2, l);
    r := Syn1b(words, p1, p2, flags);
  }

  method Syn1b(words: seq<Word>, p1: nat, p2: nat, flags: set<Ctx>) returns (r: Parsed<Command>)
    requires p1 <= p2 < |words| && Balanced(Segment(words, p1, p2))
    ensures r == Parse.Syn1b(Segment(words, p1, p2), Ends(words, p2), flags)
    decreases p2 - p1, 3
  {
    hide Parse.Syn2, Depth, Find;
    FindIsOutside(Ands, Segment(words, p1, p2), 0);
    var l: nat := 0;
    ghost var k := Find(Ands, Segment(words, p1, p2), 0);
    for p := p1 to p2
      invariant Depth(Segment(words, p, p2), l) == 0 && k == p - p1 + Find(Ands, Segment(words, p, p2), l)
    {
      ScanStep(Ands, words, p1, p, p2, l);
      SegmentStep(words, p1, p, p2);
      var c := First(words[p]);
      if c == LPAR {
        l := l + 1;
      } else if c == RPAR {
        l := l - 1;
      } else if c == AMP && At(words[p], 1) == AMP && l == 0 {
        var car :- Syn2(words, p1, p, flags);
        var cdr :- Syn1b(words, p + 1, p2, flags);
        return Ok(And(car, cdr));
      }
    }
    EndOfScan(Ands, words, p2, l);
    r := Syn2(words, p1, p2, flags);
  }

  method Syn2(words: seq<Word>, p1: nat, p2: nat, flags: set<Ctx>) returns (r: Parsed<Command>)
    requires p1 <= p2 < |words| && Balanced(Segment(words, p1, p2))
    ensures r == Parse.Syn2(Segment(words, p1, p2), Ends(words, p2), flags)
    decreases p2 - p1, 2
  {
    hide Parse.Syn3, Depth, Find;
    FindIsOutside(Bars, Segment(words, p1, p2), 0);
    var l: nat := 0;
    ghost var k := Find(Bars, Segment(words, p1, p2), 0);
    for p := p1 to p2
      invariant Depth(Segment(words, p, p2), l) == 0 && k == p - p1 + Find(Bars, Segment(words, p, p2), l)
    {
      ScanStep(Bars, words, p1, p, p2, l);
      SegmentStep(words, p1, p, p2);
      var c := First(words[p]);
      if c == LPAR {
        l := l + 1;
      } else if c == RPAR {
        l := l - 1;
      } else if c == BAR && l == 0 {
        ghost var both := p + 1 != p2 && First(words[p + 1]) == AMP;
        BarSplits(words, p1, p, p2);
        var f, pipeFlags: set<Flag>, q := flags + {POut}, {}, p;
        if p + 1 != p2 && First(words[p + 1]) == AMP {
          f, pipeFlags, q := f + {PErr}, {Stderr}, p + 1;
        }
        assert f == flags + {POut} + if both then {PErr} else {};
        var car :- Syn3(words, p1, p, f);
        var cdr :- Syn2(words, q + 1, p2, flags + {PIn});
        return Ok(Pipe(car, cdr, pipeFlags));
      }
    }
    EndOfScan(Bars, words, p2, l);
    r := Syn3(words, p1, p2, flags);
  }

  /** What follows the bar, and follows a `|&`. */
  lemma BarSplits(words: seq<Word>, p1: nat, p: nat, p2: nat)
    requires p1 <= p < p2 < |words| && Balanced(Segment(words, p1, p2)[p - p1 + 1..])
    ensures var seg, k := Segment(words, p1, p2), p - p1;
            var both := p + 1 != p2 && First(words[p + 1]) == AMP;
            && both == (k + 1 < |seg| && First(seg[k + 1]) == AMP)
            && seg[..k] == Segment(words, p1, p) && seg[k + 1..] == Segment(words, p + 1, p2)
            && (both ==> seg[k + 2..] == Segment(words, p + 2, p2) && Balanced(Segment(words, p + 2, p2)))
  {
    SegmentStep(words, p1, p, p2);
    if p + 1 != p2 {
      SegmentStep(words, p1, p + 1, p2);
    }
  }

  // ---------------------------------------------------------------- syn3

  /** How many words the first loop of syn3 counts from here on. */
  function Count(seg: seq<Word>, l: nat, special: bool): int {
    if seg == [] then 0
    else
      var c := First(seg[0]);
      if c == LPAR then (if special then 1 else 0) + Count(seg[1..], l + 1, special)
      else if c == RPAR then (if special then 1 else 0) + Count(seg[1..], if l > 0 then l - 1 else 0, special)
      else if c == GT || c == LT then
        if l != 0 then (if special then 1 else 0) + Count(seg[1..], l, special)
        else if |seg| == 1 || RelPar(First(seg[1])) then Count(seg[1..], l, special)
        else Count(seg[1..], l, special) - 1
      else (if !special && l != 0 then 0 else 1) + Count(seg[1..], l, special)
  }

  lemma {:induction false} CountIsNat(seg: seq<Word>, l: nat, special: bool)
    ensures Count(seg, l, special) >= 0
    decreases |seg|
  {
    if seg != [] {
      var c := First(seg[0]);
      if (c == GT || c == LT) && l == 0 && |seg| > 1 && !RelPar(First(seg[1])) {
        CountIsNat(seg[2..], l, special);
        assert seg[1..][1..] == seg[2..];
      } else {
        CountIsNat(seg[1..], if c == LPAR then l + 1 else if c == RPAR && l > 0 then l - 1 else l, special);
      }
    }
  }

  /** Plain words outside parentheses are counted one by one. */
  lemma {:induction false} CountPlain(seg: seq<Word>, n: nat, special: bool)
    requires n <= |seg| && forall i :: 0 <= i < n ==> !RelPar(First(seg[i]))
    ensures Count(seg, 0, special) == n + Count(seg[n..], 0, special)
    decreases n
  {
    if n > 0 {
      CountPlain(seg[1..], n - 1, special);
      assert seg[1..][n - 1..] == seg[n..];
    } else {
      assert seg[n..] == seg;
    }
  }

  /** A redirection that is accepted is counted at least as high as what it stores, which is nothing. */
  lemma CountRedirect(seg: seq<Word>, p: nat, next: nat, special: bool)
    requires p + 1 < next <= |seg| && (First(seg[p]) == GT || First(seg[p]) == LT)
    requires forall i :: p < i < next ==> !RelPar(First(seg[i]))
    ensures Count(seg[next..], 0, special) <= Count(seg[p..], 0, special)
  {
    assert seg[p..][1..] == seg[p + 1..] && seg[p..][1] == seg[p + 1];
    CountPlain(seg[p + 1..], next - p - 1, special);
    assert seg[p + 1..][next - p - 1..] == seg[next..];
  }

  lemma CountOutput(seg: seq<Word>, p: nat, ctx: set<Ctx>, special: bool, s: Partial)
    requires p < |seg| && First(seg[p]) == GT && Output(seg, p, ctx, s).Ok?
    ensures Count(seg[Output(seg, p, ctx, s).value.next..], 0, special) <= Count(seg[p..], 0, special)
  {
    hide Count;
    CountRedirect(seg, p, Output(seg, p, ctx, s).value.next, special);
  }

  lemma CountInput(seg: seq<Word>, p: nat, ctx: set<Ctx>, special: bool, s: Partial)
    requires p < |seg| && First(seg[p]) == LT && Input(seg, p, ctx, s).Ok?
    ensures Count(seg[Input(seg, p, ctx, s).value.next..], 0, special) <= Count(seg[p..], 0, special)
  {
    hide Count;
    CountRedirect(seg, p, Input(seg, p, ctx, s).value.next, special);
  }

  /** The test for a leading keyword, behind any number of `else`. */
  method IsSpecial(words: seq<Word>, p1: nat, p2: nat) returns (specp: bool)
    requires p1 <= p2 < |words|
    ensures specp == Special(Segment(words, p1, p2))
  {
    var p := p1;
    while p != p2 && words[p] == Chars("else")
      invariant p1 <= p <= p2
      invariant Special(Segment(words, p, p2)) == Special(Segment(words, p1, p2))
    {
      SegmentStep(words, p1, p, p2);
      p := p + 1;
    }
    if p != p2 {
      SegmentStep(words, p1, p, p2);
    }
    specp := p != p2 && Keyword(words[p]);
  }

  /** The first loop of syn3. */
  method CountWords(words: seq<Word>, p1: nat, p2: nat, specp: bool) returns (n: int)
    requires p1 <= p2 < |words| && Balanced(Segment(words, p1, p2))
    ensures n == Count(Segment(words, p1, p2), 0, specp)
  {
    n := 0;
    var l: nat := 0;
    for p := p1 to p2
      invariant Depth(Segment(words, p, p2), l) == 0
      invariant n + Count(Segment(words, p, p2), l, specp) == Count(Segment(words, p1, p2), 0, specp)
    {
      SegmentStep(words, p1, p, p2);
      var c := First(words[p]);
      if c == LPAR {
        if specp { n := n + 1; }
        l := l + 1;
      } else if c == RPAR {
        if specp { n := n + 1; }
        l := l - 1;
      } else if c == GT || c == LT {
        if l != 0 {
          if specp { n := n + 1; }
        } else if p + 1 != p2 && !RelPar(First(words[p + 1])) {
          n := n - 1;
        }
      } else if specp || l == 0 {
        n := n + 1;
      }
    }
  }

  /** An output redirection in the second loop: p stands at the `>`. */
  method OutputRedirect(words: seq<Word>, p1: nat, p: nat, p2: nat, flags: set<Ctx>, ghost s: Partial, drit: Option<Word>, dflg: set<Flag>)
    returns (r: Parsed<(Word, set<Flag>, nat)>)
    requires p1 <= p < p2 < |words| && First(words[p]) == GT && s.rit == drit && s.flags == dflg
    ensures var out := Output(Segment(words, p1, p2), p - p1, flags, s);
            match r
            case Err(e) => out == Err(e)
            case Ok((file, f, q)) => p < q < p2 && out == Ok(Redirect(s.(rit := Some(file), flags := f), q + 1 - p1))
  {
    ghost var seg := Segment(words, p1, p2);
    assert forall i :: p1 <= i < p2 ==> seg[i - p1] == words[i];
    var f, q := dflg, p;
    ghost var err, over := p + 1 < p2 && words[p + 1] == AND_WORD, false;
    if At(words[p], 1) == GT {
      f := f + {Append};
    }
    if q + 1 != p2 && words[q + 1] == AND_WORD {
      f, q := f + {Stderr}, q + 1;
      if POut in flags || PErr in flags {
        return Err(OutRed);
      }
    }
    if q + 1 != p2 && words[q + 1] == BANG_WORD {
      f, q := f + {Overwrite}, q + 1;
      over := true;
    }
    if q + 1 == p2 {
      return Err(MisRed);
    }
    q := q + 1;
    if RelPar(First(words[q])) {
      return Err(MisRed);
    }
    if POut in flags && (PErr !in flags || drit.Some?) {
      return Err(OutRed);
    }
    assert f == dflg + (if At(words[p], 1) == GT then {Append} else {}) + (if err then {Stderr} else {})
                + (if over then {Overwrite} else {});
    r := Ok((words[q], f, q));
  }

  /** An input redirection. */
  method InputRedirect(words: seq<Word>, p1: nat, p: nat, p2: nat, flags: set<Ctx>, ghost s: Partial, dlef: Option<Word>, dflg: set<Flag>)
    returns (r: Parsed<(Word, set<Flag>, nat)>)
    requires p1 <= p < p2 < |words| && First(words[p]) == LT && s.lef == dlef && s.flags == dflg
    ensures var inp := Input(Segment(words, p1, p2), p - p1, flags, s);
            match r
            case Err(e) => inp == Err(e)
            case Ok((file, f, q)) => p < q < p2 && inp == Ok(Redirect(s.(lef := Some(file), flags := f), q + 1 - p1))
  {
    ghost var seg := Segment(words, p1, p2);
    assert forall i :: p1 <= i < p2 ==> seg[i - p1] == words[i];
    var f := dflg;
    if At(words[p], 1) == LT {
      f := f + {Read};
    }
    assert f == dflg + if At(words[p], 1) == LT then {Read} else {};
    if p + 1 == p2 || RelPar(First(words[p + 1])) {
      return Err(MisRed);
    }
    if Here in flags && Read in f {
      return Err(RedPar);
    } else if PIn in flags || dlef.Some? {
      return Err(InRed);
    }
    r := Ok((words[p + 1], f, p + 1));
  }

  /** A redirection of either kind, and what that leaves to do. */
  method Redirection(words: seq<Word>, p1: nat, p: nat, p2: nat, flags: set<Ctx>, ghost specp: bool, ghost s: Partial,
                     dlef: Option<Word>, drit: Option<Word>, dflg: set<Flag>)
    returns (r: Parsed<(Option<Word>, Option<Word>, set<Flag>, nat)>)
    requires p1 <= p < p2 < |words| && (First(words[p]) == GT || First(words[p]) == LT)
    requires s.lef == dlef && s.rit == drit && s.flags == dflg
    requires Sane(s, p - p1) && s.l == 0 && Depth(Segment(words, p1, p2)[p - p1..], 0) == 0
    ensures var seg := Segment(words, p1, p2);
            match r
            case Err(e) => Words(seg, p - p1, flags, specp, s) == Err(e)
            case Ok((lef, rit, f, q)) =>
              var t := s.(lef := lef, rit := rit, flags := f);
              && p < q < p2 && Sane(t, q + 1 - p1) && Depth(seg[q + 1 - p1..], 0) == 0
              && Count(seg[q + 1 - p1..], 0, specp) <= Count(seg[p - p1..], 0, specp)
              && Words(seg, p - p1, flags, specp, s) == Words(seg, q + 1 - p1, flags, specp, t)
  {
    hide Words, Depth, Count, Output, Input;
    ghost var seg := Segment(words, p1, p2);
    assert seg[p - p1] == words[p];
    WordsRedirect(seg, p - p1, flags, specp, s);
    if First(words[p]) == GT {
      var o :- OutputRedirect(words, p1, p, p2, flags, s, drit, dflg);
      CountOutput(seg, p - p1, flags, specp, s);
      r := Ok((dlef, Some(o.0), o.1, o.2));
    } else {
      var o :- InputRedirect(words, p1, p, p2, flags, s, dlef, dflg);
      CountInput(seg, p - p1, flags, specp, s);
      r := Ok((Some(o.0), drit, o.1, o.2));
    }
  }

  /** The second loop of syn3. Words go into av, which the first loop made large enough; lp and rp are
      offsets from p1, -1 when unset. */
  method Collect(words: seq<Word>, p1: nat, p2: nat, flags: set<Ctx>, specp: bool, av: array<Word>)
    returns (r: Parsed<(int, int, Option<Word>, Option<Word>, set<Flag>)>, n: nat)
    requires p1 <= p2 < |words| && Balanced(Segment(words, p1, p2))
    requires Count(Segment(words, p1, p2), 0, specp) < av.Length
    modifies av
    ensures n < av.Length
    ensures assert Segment(words, p1, p2)[0..] == Segment(words, p1, p2);
            var s := Words(Segment(words, p1, p2), 0, flags, specp, Start(Ends(words, p2)));
            match r
            case Err(e) => s == Err(e)
            case Ok((lp, rp, lef, rit, f)) =>
              s == Ok(Partial(av[..n], 0, lp, rp, lef, rit, f)) && -1 <= lp && (lp >= 0 ==> lp <= rp < p2 - p1 && Ends(words, p1 + rp))
  {
    hide Words, Depth, Count, Output, Input;
    ghost var seg := Segment(words, p1, p2);
    assert seg[0..] == seg;
    var dflg: set<Flag> := if First(words[p2]) == RPAR then {NoFork} else {};
    var dlef, drit: Option<Word> := None, None;
    var lp, rp := -1, -1;
    var l: nat, p := 0, p1;
    n := 0;
    ghost var s := Start(Ends(words, p2));
    while p != p2
      invariant p1 <= p <= p2 && n <= av.Length
      invariant s == Partial(av[..n], l, lp, rp, dlef, drit, dflg)
      invariant rp < p - p1 && (rp >= 0 ==> First(words[p1 + rp]) == RPAR)
      invariant Sane(s, p - p1) && Depth(seg[p - p1..], l) == 0
      invariant n + Count(seg[p - p1..], l, specp) < av.Length
      invariant Words(seg, p - p1, flags, specp, s) == Words(seg, 0, flags, specp, Start(Ends(words, p2)))
      decreases p2 - p
    {
      SegmentStep(words, p1, p, p2);
      CountIsNat(seg[p - p1..], l, specp);
      var c := First(words[p]);
      if (c == GT || c == LT) && l == 0 {
        var o :- Redirection(words, p1, p, p2, flags, specp, s, dlef, drit, dflg);
        dlef, drit, dflg, p := o.0, o.1, o.2, o.3;
        s := s.(lef := dlef, rit := drit, flags := dflg);
      } else {
        if c == LPAR && l == 0 && lp >= 0 && !specp {
          BadParen(seg, p - p1, flags, s);
          return Err(BadPlp), n;
        }
        NotClosed(seg[p - p1..], l);
        WordsStep(seg, p - p1, flags, specp, s);
        CountStep(seg[p - p1..], l, specp);
        s := Stored(words[p], p - p1, specp, s);
        if c == LPAR {
          if l == 0 {
            lp := p + 1 - p1;
          }
          l := l + 1;
        } else if c == RPAR {
          l := l - 1;
          if l == 0 {
            rp := p - p1;
          }
        }
        if specp || (l == 0 && c != RPAR) {
          av[n] := words[p];
          n := n + 1;
          assert av[..n] == av[..n - 1] + [words[p]];
        }
      }
      p := p + 1;
    }
    WordsEnd(seg, flags, specp, s);
    CountIsNat(seg[p - p1..], l, specp);
    r := Ok((lp, rp, dlef, drit, dflg));
  }

  lemma NotClosed(rest: seq<Word>, l: nat)
    requires rest != [] && Depth(rest, l) == 0
    ensures First(rest[0]) == RPAR ==> l > 0
  {
  }

  lemma WordsEnd(seg: seq<Word>, ctx: set<Ctx>, special: bool, s: Partial)
    requires Sane(s, |seg|) && Depth(seg[|seg|..], s.l) == 0
    ensures s.l == 0 && Words(seg, |seg|, ctx, special, s) == Ok(s)
  {
  }

  lemma BadParen(seg: seq<Word>, p: nat, ctx: set<Ctx>, s: Partial)
    requires p < |seg| && Sane(s, p) && Depth(seg[p..], s.l) == 0
    requires First(seg[p]) == LPAR && s.l == 0 && s.lp >= 0
    ensures Words(seg, p, ctx, false, s) == Err(BadPlp)
  {
  }

  /** Every word that is stored was counted. */
  lemma CountStep(rest: seq<Word>, l: nat, special: bool)
    requires rest != [] && (l == 0 ==> First(rest[0]) != GT && First(rest[0]) != LT && First(rest[0]) != RPAR)
    ensures var stored := special || (l == 0 && First(rest[0]) != LPAR);
            Count(rest[1..], Inside(rest[0], l), special) + (if stored then 1 else 0) == Count(rest, l, special)
  {
  }

  lemma SubSegment(words: seq<Word>, p1: nat, p2: nat, lp: nat, rp: nat)
    requires p1 <= p2 < |words| && lp <= rp < p2 - p1
    ensures Segment(words, p1, p2)[lp..rp] == Segment(words, p1 + lp, p1 + rp)
  {
    var a, b := words[p1..p2][lp..rp], words[p1 + lp..p1 + rp];
    forall i | 0 <= i < rp - lp ensures a[i] == b[i] {
      assert a[i] == words[p1..p2][lp + i] == words[p1 + lp + i];
    }
    assert a == b;
  }

  method Syn3(words: seq<Word>, p1: nat, p2: nat, flags: set<Ctx>) returns (r: Parsed<Command>)
    requires p1 <= p2 < |words| && Balanced(Segment(words, p1, p2))
    ensures r == Parse.Syn3(Segment(words, p1, p2), Ends(words, p2), flags)
    decreases p2 - p1, 1
  {
    hide Words, Parse.Syn0, Depth, Count;
    ghost var seg := Segment(words, p1, p2);
    assert seg[0..] == seg;
    var specp := IsSpecial(words, p1, p2);
    var n := CountWords(words, p1, p2, specp);
    CountIsNat(seg, 0, specp);
    if n < 0 {
      n := 0;
    }
    var av := new Word[n + 1];
    var s;
    s, n := Collect(words, p1, p2, flags, specp, av);
    if s.Err? {
      return Err(s.error);
    }
    var (lp, rp, lef, rit, dflg) := s.value;
    if lp >= 0 && !specp {
      if n != 0 {
        return Err(BadPlps);
      }
      SubSegment(words, p1, p2, lp, rp);
      var sub :- Syn0(words, p1 + lp, p1 + rp, {Here});
      r := Ok(Paren(sub, lef, rit, dflg));
    } else if n == 0 {
      r := Err(NullCom);
    } else {
      r := Ok(Simple(av[..n], lef, rit, dflg));
    }
  }
}
