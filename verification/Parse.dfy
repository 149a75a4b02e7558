/** The command parser of parse.c on word lists. A segment p1..p2 of the list is a sequence of words and
    the fact whether the word at p2 is a closing parenthesis. After the first error the program goes on
    building a tree that is thrown away; the model stops there. */
module Parse {
  import opened Common
  import opened Strings

  const LPAR := '(' as int
  const RPAR := ')' as int
  const SEMI := ';' as int
  const NEWLINE := '\n' as int
  const BAR := '|' as int
  const AMP := '&' as int
  const GT := '>' as int
  const LT := '<' as int

  const AND_WORD: Word := [AMP]
  const BANG_WORD: Word := ['!' as int]

  // ---------------------------------------------------------------- trees and errors

  datatype Flag = Ampersand | Append | NoFork | NoInterrupt | Stderr | Overwrite | Read

  /** Command trees; Null is the absent branch of a list. */
  datatype Command =
    | Null
    | Simple(av: seq<Word>, lef: Option<Word>, rit: Option<Word>, flags: set<Flag>)
    | Paren(sub: Command, lef: Option<Word>, rit: Option<Word>, flags: set<Flag>)
    | Pipe(car: Command, cdr: Command, flags: set<Flag>)
    | And(car: Command, cdr: Command)
    | Or(car: Command, cdr: Command)
    | List(car: Command, cdr: Command)

  datatype Error = TooManyRp | TooManyLp | BadPlp | BadPlps | OutRed | MisRed | RedPar | InRed | NullCom

  /** A part of the tree, or the first error that is found. */
  type Parsed<T> = Result<T, Error>

  /** PHERE, PIN, POUT and PERR. */
  datatype Ctx = Here | PIn | POut | PErr

  // ---------------------------------------------------------------- parentheses

  function First(w: Word): int {
    At(w, 0)
  }

  /** The parenthesis depth behind a segment entered at depth l, or -1 if it falls below 0. */
  function Depth(seg: seq<Word>, l: nat): (d: int)
    ensures d >= -1
  {
    if seg == [] then l
    else if First(seg[0]) == LPAR then Depth(seg[1..], l + 1)
    else if First(seg[0]) == RPAR then if l == 0 then -1 else Depth(seg[1..], l - 1)
    else Depth(seg[1..], l)
  }

  predicate Balanced(seg: seq<Word>) {
    Depth(seg, 0) == 0
  }

  lemma {:induction false} DepthAppend(a: seq<Word>, b: seq<Word>, l: nat)
    ensures Depth(a + b, l) == if Depth(a, l) < 0 then -1 else Depth(b, Depth(a, l))
    decreases |a|
  {
    if a == [] {
      assert a + b == b;
    } else {
      assert (a + b)[1..] == a[1..] + b;
      var w := First(a[0]);
      if w == LPAR {
        DepthAppend(a[1..], b, l + 1);
      } else if w == RPAR {
        if l > 0 {
          DepthAppend(a[1..], b, l - 1);
        }
      } else {
        DepthAppend(a[1..], b, l);
      }
    }
  }

  // ---------------------------------------------------------------- the scans

  /** What the scans of syn1, syn1a, syn1b and syn2 look for. */
  datatype Level = Semis | Ors | Ands | Bars

  predicate Separates(level: Level, w: Word) {
    match level
    case Semis => First(w) == SEMI || First(w) == NEWLINE
    case Ors => First(w) == BAR && At(w, 1) == BAR
    case Ands => First(w) == AMP && At(w, 1) == AMP
    case Bars => First(w) == BAR
  }

  function Inside(w: Word, l: nat): nat {
    if First(w) == LPAR then l + 1 else if First(w) == RPAR && l > 0 then l - 1 else l
  }

  /** The first separator outside parentheses, or the end. */
  function Find(level: Level, seg: seq<Word>, l: nat): (k: nat)
    ensures k <= |seg| && (k < |seg| ==> Separates(level, seg[k]))
  {
    if seg == [] || (l == 0 && Separates(level, seg[0])) then 0
    else 1 + Find(level, seg[1..], Inside(seg[0], l))
  }

  lemma {:induction false} FindIsOutside(level: Level, seg: seq<Word>, l: nat)
    requires Depth(seg, l) == 0
    ensures var k := Find(level, seg, l); Depth(seg[..k], l) == 0 && (k < |seg| ==> Depth(seg[k + 1..], 0) == 0)
    decreases |seg|
  {
    var k := Find(level, seg, l);
    if seg != [] && k > 0 {
      FindIsOutside(level, seg[1..], Inside(seg[0], l));
      assert seg[..k][1..] == seg[1..][..k - 1];
      if k < |seg| {
        assert seg[1..][k..] == seg[k + 1..];
      }
    } else {
      assert seg[..0] == [];
    }
  }

  /** The scan of syn0: an ampersand that is not part of a redirection, `&&` or a `|&`, or the end. */
  datatype Scan = Found(k: nat) | End(l: nat) | Below

  function ScanAmp(seg: seq<Word>, l: nat): (r: Scan)
    ensures r.Found? ==> r.k < |seg| && First(seg[r.k]) == AMP
    decreases |seg|
  {
    if seg == [] then End(l)
    else
      var w := seg[0];
      if First(w) == LPAR then Later(ScanAmp(seg[1..], l + 1), 1)
      else if First(w) == RPAR then if l == 0 then Below else Later(ScanAmp(seg[1..], l - 1), 1)
      else if (First(w) == GT || (First(w) == BAR && At(w, 1) != BAR)) && |seg| > 1 && seg[1] == AND_WORD then
        Later(ScanAmp(seg[2..], l), 2)
      else if First(w) == AMP && l == 0 && At(w, 1) != AMP then Found(0)
      else Later(ScanAmp(seg[1..], l), 1)
  }

  function Later(r: Scan, n: nat): Scan {
    if r.Found? then Found(r.k + n) else r
  }

  /** An ampersand behind a redirection or a bar, which the scan passes over with it. */
  predicate Paired(seg: seq<Word>) {
    && |seg| > 1 && seg[1] == AND_WORD
    && (First(seg[0]) == GT || (First(seg[0]) == BAR && At(seg[0], 1) != BAR))
  }

  lemma PairDepth(seg: seq<Word>, l: nat)
    requires Paired(seg)
    ensures Depth(seg, l) == Depth(seg[2..], l) && First(seg[0]) != LPAR && First(seg[0]) != RPAR
  {
    assert seg[1..][1..] == seg[2..] && seg[1..][0] == seg[1];
  }

  lemma {:induction false} ScanAmpBalanced(seg: seq<Word>, l: nat)
    ensures var r := ScanAmp(seg, l);
            && (r.Found? ==> Depth(seg[..r.k], l) == 0)
            && (r.End? ==> Depth(seg, l) == r.l)
    decreases |seg|
  {
    if seg == [] || (First(seg[0]) == RPAR && l == 0) {
    } else if Paired(seg) {
      var r := ScanAmp(seg[2..], l);
      ScanAmpBalanced(seg[2..], l);
      PairDepth(seg, l);
      if r.Found? {
        var pre := seg[..r.k + 2];
        assert pre[2..] == seg[2..][..r.k] && pre[0] == seg[0] && pre[1] == seg[1];
        PairDepth(pre, l);
      }
    } else {
      ScanAmpBalanced(seg[1..], Inside(seg[0], l));
      var r := ScanAmp(seg[1..], Inside(seg[0], l));
      if r.Found? {
        assert seg[..r.k + 1][1..] == seg[1..][..r.k];
      }
    }
  }

  // ---------------------------------------------------------------- syn3

  /** Keywords whose parentheses are words of the command. */
  predicate Keyword(w: Word) {
    || w == Chars("exit") || w == Chars("foreach") || w == Chars("if") || w == Chars("@")
    || w == Chars("set") || w == Chars("switch") || w == Chars("while")
  }

  function Special(seg: seq<Word>): bool {
    if seg == [] then false
    else if seg[0] == Chars("else") then Special(seg[1..])
    else Keyword(seg[0])
  }

  /** The characters that start a redirection or a parenthesis. */
  predicate RelPar(c: int) {
    c == LT || c == GT || c == LPAR || c == RPAR
  }

  /** The words stored so far, the depth, the parenthesised part (from lp, to rp; -1 when there is none),
      the redirections and the flags. */
  datatype Partial = Partial(av: seq<Word>, l: nat, lp: int, rp: int, lef: Option<Word>, rit: Option<Word>, flags: set<Flag>)

  predicate Sane(s: Partial, p: nat) {
    -1 <= s.lp <= p && (s.lp >= 0 && s.l == 0 ==> s.lp <= s.rp < p) && (s.l > 0 ==> s.lp >= 0)
  }

  function Store(s: Partial, w: Word, store: bool): Partial {
    if store then s.(av := s.av + [w]) else s
  }

  lemma {:induction false} PlainDepth(seg: seq<Word>, l: nat)
    requires forall i :: 0 <= i < |seg| ==> First(seg[i]) != LPAR && First(seg[i]) != RPAR
    ensures Depth(seg, l) == l
    decreases |seg|
  {
    if seg != [] {
      PlainDepth(seg[1..], l);
    }
  }

  /** An output redirection at p: what is left to do goes on at `next`. */
  datatype Redirect = Redirect(s: Partial, next: nat)

  function Output(seg: seq<Word>, p: nat, ctx: set<Ctx>, s: Partial): (r: Parsed<Redirect>)
    requires p < |seg| && First(seg[p]) == GT
    ensures r.Ok? ==> p + 1 < r.value.next <= |seg| && r.value.s.l == s.l && r.value.s.lp == s.lp && r.value.s.rp == s.rp
    ensures r.Ok? ==> r.value.s.av == s.av && Depth(seg[p..r.value.next], s.l) == s.l
  {
    var err := p + 1 < |seg| && seg[p + 1] == AND_WORD;
    var q := if err then p + 1 else p;
    if err && (POut in ctx || PErr in ctx) then Err(OutRed)
    else
      var over := q + 1 < |seg| && seg[q + 1] == BANG_WORD;
      var t := if over then q + 2 else q + 1;
      if t == |seg| || RelPar(First(seg[t])) then Err(MisRed)
      else if POut in ctx && (PErr !in ctx || s.rit.Some?) then Err(OutRed)
      else
        var flags := s.flags + (if At(seg[p], 1) == GT then {Append} else {})
                     + (if err then {Stderr} else {}) + (if over then {Overwrite} else {});
        PlainDepth(seg[p..t + 1], s.l);
        Ok(Redirect(s.(rit := Some(seg[t]), flags := flags), t + 1))
  }

  /** An input redirection at p. */
  function Input(seg: seq<Word>, p: nat, ctx: set<Ctx>, s: Partial): (r: Parsed<Redirect>)
    requires p < |seg| && First(seg[p]) == LT
    ensures r.Ok? ==> p + 1 < r.value.next <= |seg| && r.value.s.l == s.l && r.value.s.lp == s.lp && r.value.s.rp == s.rp
    ensures r.Ok? ==> r.value.s.av == s.av && Depth(seg[p..r.value.next], s.l) == s.l
  {
    var flags := s.flags + if At(seg[p], 1) == LT then {Read} else {};
    if p + 1 == |seg| || RelPar(First(seg[p + 1])) then Err(MisRed)
    else if Here in ctx && Read in flags then Err(RedPar)
    else if PIn in ctx || s.lef.Some? then Err(InRed)
    else
      PlainDepth(seg[p..p + 2], s.l);
      Ok(Redirect(s.(lef := Some(seg[p + 1]), flags := flags), p + 2))
  }

  /** The second loop of syn3, from p on. */
  function Words(seg: seq<Word>, p: nat, ctx: set<Ctx>, special: bool, s: Partial): (r: Parsed<Partial>)
    requires p <= |seg| && Sane(s, p) && Depth(seg[p..], s.l) == 0
    ensures r.Ok? ==> r.value.l == 0 && Sane(r.value, |seg|)
    decreases |seg| - p
  {
    if p == |seg| then Ok(s)
    else
      var w := seg[p];
      var c := First(w);
      assert seg[p..][1..] == seg[p + 1..];
      if c == LPAR then
        if s.l == 0 && s.lp >= 0 && !special then Err(BadPlp)
        else
          var s := Store(s.(lp := if s.l == 0 then p + 1 else s.lp, l := s.l + 1), w, special);
          Words(seg, p + 1, ctx, special, s)
      else if c == RPAR then
        var s := Store(s.(rp := if s.l == 1 then p else s.rp, l := s.l - 1), w, special);
        Words(seg, p + 1, ctx, special, s)
      else if (c == GT || c == LT) && s.l == 0 then
        var r :- if c == GT then Output(seg, p, ctx, s) else Input(seg, p, ctx, s);
        assert seg[p..] == seg[p..r.next] + seg[r.next..];
        DepthAppend(seg[p..r.next], seg[r.next..], s.l);
        Words(seg, r.next, ctx, special, r.s)
      else
        Words(seg, p + 1, ctx, special, Store(s, w, special || s.l == 0))
  }

  /** One step of Words at a word that is no redirection. */
  function Stored(w: Word, p: nat, special: bool, s: Partial): Partial
    requires First(w) == RPAR ==> s.l > 0
  {
    if First(w) == LPAR then Store(s.(lp := if s.l == 0 then p + 1 else s.lp, l := s.l + 1), w, special)
    else if First(w) == RPAR then Store(s.(rp := if s.l == 1 then p else s.rp, l := s.l - 1), w, special)
    else Store(s, w, special || s.l == 0)
  }

  lemma WordsStep(seg: seq<Word>, p: nat, ctx: set<Ctx>, special: bool, s: Partial)
    requires p < |seg| && Sane(s, p) && Depth(seg[p..], s.l) == 0
    requires s.l == 0 ==> First(seg[p]) != GT && First(seg[p]) != LT && First(seg[p]) != RPAR
    requires s.l == 0 && First(seg[p]) == LPAR ==> special || s.lp < 0
    ensures First(seg[p]) == RPAR ==> s.l > 0
    ensures var t := Stored(seg[p], p, special, s);
            && Sane(t, p + 1) && Depth(seg[p + 1..], t.l) == 0 && t.l == Inside(seg[p], s.l)
            && Words(seg, p, ctx, special, s) == Words(seg, p + 1, ctx, special, t)
  {
    hide Output, Input;
    assert seg[p..][1..] == seg[p + 1..];
  }

  lemma WordsRedirect(seg: seq<Word>, p: nat, ctx: set<Ctx>, special: bool, s: Partial)
    requires p < |seg| && Sane(s, p) && s.l == 0 && Depth(seg[p..], 0) == 0 && (First(seg[p]) == GT || First(seg[p]) == LT)
    ensures var r := if First(seg[p]) == GT then Output(seg, p, ctx, s) else Input(seg, p, ctx, s);
            if r.Err? then Words(seg, p, ctx, special, s) == Err(r.error)
            else && Sane(r.value.s, r.value.next) && Depth(seg[r.value.next..], 0) == 0
                 && Words(seg, p, ctx, special, s) == Words(seg, r.value.next, ctx, special, r.value.s)
  {
    hide Output, Input;
    var r := if First(seg[p]) == GT then Output(seg, p, ctx, s) else Input(seg, p, ctx, s);
    if r.Ok? {
      assert seg[p..] == seg[p..r.value.next] + seg[r.value.next..];
      DepthAppend(seg[p..r.value.next], seg[r.value.next..], 0);
    }
  }

  function Start(ends: bool): Partial {
    Partial([], 0, -1, -1, None, None, if ends then {NoFork} else {})
  }

  /** One command with its redirections: words, words behind a keyword (which may hold parentheses), or a list in
      parentheses. */
  function Syn3(seg: seq<Word>, ends: bool, ctx: set<Ctx>): (r: Parsed<Command>)
    requires Balanced(seg)
    ensures r.Ok? ==> !r.value.Null?
    decreases |seg|, 1
  {
    assert seg[0..] == seg;
    var special := Special(seg);
    var s :- Words(seg, 0, ctx, special, Start(ends));
    if s.lp >= 0 && !special then
      if s.av != [] then Err(BadPlps)
      else
        var sub :- Syn0(seg[s.lp..s.rp], true, {Here});
        Ok(Paren(sub, s.lef, s.rit, s.flags))
    else if s.av == [] then Err(NullCom)
    else Ok(Simple(s.av, s.lef, s.rit, s.flags))
  }

  /** A pipeline: commands joined by bars, nested to the right. */
  function Syn2(seg: seq<Word>, ends: bool, ctx: set<Ctx>): (r: Parsed<Command>)
    requires Balanced(seg)
    ensures r.Ok? ==> !r.value.Null?
    decreases |seg|, 2
  {
    var k := Find(Bars, seg, 0);
    FindIsOutside(Bars, seg, 0);
    if k == |seg| then Syn3(seg, ends, ctx)
    else
      var both := k + 1 < |seg| && First(seg[k + 1]) == AMP;
      var car :- Syn3(seg[..k], false, ctx + {POut} + if both then {PErr} else {});
      var rest := if both then seg[k + 2..] else seg[k + 1..];
      assert both ==> seg[k + 1..][1..] == seg[k + 2..];
      var cdr :- Syn2(rest, ends, ctx + {PIn});
      Ok(Pipe(car, cdr, if both then {Stderr} else {}))
  }

  /** Pipelines of which each is run if the one before succeeded, nested to the right. */
  function Syn1b(seg: seq<Word>, ends: bool, ctx: set<Ctx>): (r: Parsed<Command>)
    requires Balanced(seg)
    ensures r.Ok? ==> !r.value.Null?
    decreases |seg|, 3
  {
    var k := Find(Ands, seg, 0);
    FindIsOutside(Ands, seg, 0);
    if k == |seg| then Syn2(seg, ends, ctx)
    else
      var car :- Syn2(seg[..k], false, ctx);
      var cdr :- Syn1b(seg[k + 1..], ends, ctx);
      Ok(And(car, cdr))
  }

  /** The same for pipelines that are run if what is before failed. */
  function Syn1a(seg: seq<Word>, ends: bool, ctx: set<Ctx>): (r: Parsed<Command>)
    requires Balanced(seg)
    ensures r.Ok? ==> !r.value.Null?
    decreases |seg|, 4
  {
    var k := Find(Ors, seg, 0);
    FindIsOutside(Ors, seg, 0);
    if k == |seg| then Syn1b(seg, ends, ctx)
    else
      var car :- Syn1b(seg[..k], false, ctx);
      var cdr :- Syn1a(seg[k + 1..], ends, ctx);
      Ok(Or(car, cdr))
  }

  /** A list: its first command, and behind the semicolon whatever the parser makes of the rest. */
  function Syn1(seg: seq<Word>, ends: bool, ctx: set<Ctx>): (r: Parsed<Command>)
    requires Balanced(seg)
    ensures r.Ok? ==> !r.value.Null?
    decreases |seg|, 5
  {
    var k := Find(Semis, seg, 0);
    FindIsOutside(Semis, seg, 0);
    if k == |seg| then Syn1a(seg, ends, ctx)
    else
      var car :- Syn1a(seg[..k], false, ctx);
      var cdr :- Syntax(seg[k + 1..], ends, ctx);
      Ok(if cdr.Null? then List(Null, car) else List(car, cdr))
  }

  /** A command to run in the background; lists and conditionals are wrapped first. */
  function Background(t: Command): Command
    requires !t.Null?
  {
    var amp := {Ampersand, NoInterrupt};
    match t
    case Simple(av, lef, rit, flags) => Simple(av, lef, rit, flags + amp)
    case Paren(sub, lef, rit, flags) => Paren(sub, lef, rit, flags + amp)
    case Pipe(car, cdr, flags) => Pipe(car, cdr, flags + amp)
    case _ => Paren(t, None, None, amp)
  }

  /** A list up to an ampersand goes into the background; parsing goes on at the ampersand, which is then skipped. */
  function Syn0(seg: seq<Word>, ends: bool, ctx: set<Ctx>): Parsed<Command>
    decreases |seg|, 6
  {
    var scan := ScanAmp(seg, 0);
    ScanAmpBalanced(seg, 0);
    match scan
    case Below => Err(TooManyRp)
    case End(l) => if l == 0 then Syn1(seg, ends, ctx) else Err(TooManyLp)
    case Found(k) =>
      var t1 :- Syn1(seg[..k], false, ctx);
      var cdr :- Syntax(seg[k + 1..], ends, ctx);
      Ok(List(Background(t1), cdr))
  }

  /** empty, syn0 */
  function Syntax(seg: seq<Word>, ends: bool, ctx: set<Ctx>): Parsed<Command>
    decreases |seg|, 7
  {
    if seg == [] then Ok(Null)
    else
      var c := First(seg[0]);
      if c == SEMI || c == AMP || c == NEWLINE then Syntax(seg[1..], ends, ctx)
      else Syn0(seg, ends, ctx)
  }

  /** The commands whose parentheses are words: any number of `else`, then one of seven keywords. */
  lemma {:induction false} SpecialIs(seg: seq<Word>)
    ensures Special(seg) <==> exists k :: 0 <= k < |seg| && Elses(seg, k) && Named(seg[k])
  {
    hide Chars, Keyword, Named;
    ElseIsNone();
    if seg != [] {
      var e, tail := Chars("else"), seg[1..];
      SpecialIs(tail);
      assert Keyword(seg[0]) <==> Named(seg[0]) by { NamedIs(seg[0]); }
      if seg[0] == e && Special(tail) {
        var k :| 0 <= k < |tail| && Elses(tail, k) && Named(tail[k]);
        assert forall i :: 0 < i < k + 1 ==> seg[i] == tail[i - 1];
        assert Elses(seg, k + 1) && seg[k + 1] == tail[k];
      }
      if k :| 0 <= k < |seg| && Elses(seg, k) && Named(seg[k]) {
        if k > 0 {
          assert seg[0] == e && tail[k - 1] == seg[k] && forall i :: 0 <= i < k - 1 ==> tail[i] == seg[i + 1];
          assert Elses(tail, k - 1);
        }
      }
      if Named(seg[0]) {
        assert Elses(seg, 0);
      }
    }
  }

  predicate Elses(seg: seq<Word>, k: nat)
    requires k <= |seg|
  {
    forall i :: 0 <= i < k ==> seg[i] == Chars("else")
  }

  predicate Named(w: Word) {
    || w == Chars("if") || w == Chars("while") || w == Chars("foreach") || w == Chars("switch")
    || w == Chars("set") || w == Chars("@") || w == Chars("exit")
  }

  lemma NamedIs(w: Word)
    ensures Keyword(w) <==> Named(w)
  {
    hide Chars;
  }

  lemma ElseIsNone()
    ensures !Keyword(Chars("else")) && !Named(Chars("else"))
  {
    assert |Chars("else")| == 4 && |Chars("if")| == 2 && |Chars("while")| == 5 && |Chars("foreach")| == 7;
    assert |Chars("switch")| == 6 && |Chars("set")| == 3 && |Chars("@")| == 1;
    assert Chars("exit")[1] == 'x' as int && Chars("else")[1] == 'l' as int;
  }
}
