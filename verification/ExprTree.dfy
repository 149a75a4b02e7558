/** Expression trees: what they print as, what they mean, and the theorem that the evaluator computes the
    meaning of a printed tree. */
module ExprTree {
  import opened Common
  import opened Strings
  import opened Numbers
  import opened Expr

  datatype Tree =
    | Bin(op: Op, l: Tree, r: Tree)
    | Not(e: Tree)
    | Compl(e: Tree)
    | Group(e: Tree)
    | Braces(command: seq<Word>)
    | Test(what: Word, file: Word)
    | Leaf(word: Word)
    | Absent

  function Token(op: Op): seq<Word> {
    match op
    case OrOr => [Chars("||")] case AndAnd => [Chars("&&")] case BitOr => [Chars("|")] case Xor => [Chars("^")]
    case BitAnd => [Chars("&")] case EqEq => [Chars("==")] case NotEq => [Chars("!=")] case Match => [Chars("=~")]
    case NotMatch => [Chars("!~")] case Shl => [Chars("<<")] case Shr => [Chars(">>")] case Plus => [Chars("+")]
    case Minus => [Chars("-")] case Times => [Chars("*")] case Div => [Chars("/")] case Mod => [Chars("%")]
    case Rel(less, orEq) => [Chars(if less then "<" else ">")] + if orEq then [Chars("=")] else []
  }

  function Print(t: Tree): seq<Word> {
    match t
    case Bin(op, l, r) => Print(l) + (Token(op) + Print(r))
    case Not(e) => [Chars("!")] + Print(e)
    case Compl(e) => [Chars("~")] + Print(e)
    case Group(e) => [Chars("(")] + (Print(e) + [Chars(")")])
    case Braces(command) => [Chars("{")] + (command + [Chars("}")])
    case Test(what, file) => [what, file]
    case Leaf(w) => [w]
    case Absent => []
  }

  /** A word that stands for itself. */
  predicate Plain(w: Word) {
    !AnyOp(w) && w != Chars("{") && !IsTest(w)
  }

  /** Behind a `<` this would be read as part of the operator. */
  predicate StartsEq(t: Tree) {
    Print(t) != [] && Print(t)[0] == Chars("=")
  }

  /** Trees as the grammar of the levels derives them: operators nest to the right, comparisons of words do
      not chain, and the left operand of an operator with a character of its own may be absent. */
  predicate Canon(t: Tree, level: nat)
    decreases t
  {
    match t
    case Bin(op, l, r) =>
      && level <= Level(op)
      && (if l == Absent then AnyOp(Token(op)[0]) else Canon(l, Level(op) + 1))
      && Canon(r, RightLevel(Level(op)))
      && (op.Rel? && !op.orEq ==> !StartsEq(r))
    case Not(e) => Canon(e, 10)
    case Compl(e) => Canon(e, 10)
    case Group(e) => Canon(e, 0)
    case Braces(command) => forall i :: 0 <= i < |command| ==> command[i] != Chars("}")
    case Test(what, file) => IsTest(what) && |what| == 2 && !AnyOp(what)
    case Leaf(w) => Plain(w)
    case Absent => false
  }

  // ---------------------------------------------------------------- meaning

  /** A value and the effects so far. */
  datatype Meaning = Meaning(v: Val, tr: seq<Effect>)

  function MeaningAt(r: Result<Meaning, Failure>, level: nat): Result<Meaning, Failure> {
    if r.Ok? && level <= 5 then
      var i :- After(r.value.tr, Number(r.value.v));
      Ok(Meaning(Int(i), r.value.tr))
    else r
  }

  /** An operand that is passed over: the value standing in for it, or the error it raises. Its words are still
      expanded and its misplaced operators looked up, but nothing is run and no file test made. */
  function Dry(env: Env, t: Tree, noglob: bool, tr: seq<Effect>): Result<Meaning, Failure> {
    match t
    case Bin(op, l, r) =>
      var a :- MeaningAt(Dry(env, l, noglob, tr), Level(op) + 1);
      var b :- MeaningAt(Dry(env, r, RightMode(op, a.v, Mode(true, noglob)).noglob, a.tr), RightLevel(Level(op)));
      var v :- After(b.tr, Idle(env, op, a.v, b.v));
      Ok(Meaning(v, b.tr))
    case Not(e) =>
      var a :- Dry(env, e, noglob, tr);
      var i :- After(a.tr, Number(a.v));
      Ok(Meaning(Str(Decimal(Truth(i == 0))), a.tr))
    case Compl(e) =>
      var a :- Dry(env, e, noglob, tr);
      var i :- After(a.tr, Number(a.v));
      Ok(Meaning(Str(Decimal(-1 - i)), a.tr))
    case Group(e) =>
      var a :- MeaningAt(Dry(env, e, noglob, tr), 0);
      var i :- After(a.tr, Number(a.v));
      Ok(Meaning(Str(Decimal(i)), a.tr))
    case Braces(_) => Ok(Meaning(Str([]), tr))
    case Test(_, file) =>
      if AnyOp(file) && !env.present(tr + Probes(file)) then Err(Failure(FileName, tr + Probes(file)))
      else Ok(Meaning(Str([]), tr + Probes(file)))
    case Leaf(w) => Named(env, w, noglob, tr)
    case Absent => Ok(Meaning(Str([]), tr))
  }

  /** A word and its expansion. */
  function Named(env: Env, w: Word, noglob: bool, tr: seq<Effect>): Result<Meaning, Failure> {
    if noglob then Ok(Meaning(Str(w), tr))
    else
      var name :- Expand(env, w, tr);
      Ok(Meaning(Str(name), tr + [Glob(w)]))
  }

  /** The value of a tree. The right operand of `||` and `&&` only counts when the left one leaves the question
      open; otherwise it is passed over. */
  function Eval(env: Env, t: Tree, noglob: bool, tr: seq<Effect>): Result<Meaning, Failure> {
    match t
    case Bin(op, l, r) =>
      var a :- MeaningAt(Eval(env, l, noglob, tr), Level(op) + 1);
      if (op == OrOr && a.v != Int(0)) || (op == AndAnd && a.v == Int(0)) then
        var passed :- MeaningAt(Dry(env, r, false, a.tr), Level(op));
        Ok(Meaning(Int(Truth(op == OrOr)), passed.tr))
      else
        var b :- MeaningAt(Eval(env, r, if Level(op) < 2 then false else noglob || op == Match || op == NotMatch, a.tr), RightLevel(Level(op)));
        var v :- After(b.tr, Apply(env, op, a.v, b.v));
        Ok(Meaning(v, b.tr))
    case Not(e) =>
      var a :- Eval(env, e, noglob, tr);
      var i :- After(a.tr, Number(a.v));
      Ok(Meaning(Str(Decimal(Truth(i == 0))), a.tr))
    case Compl(e) =>
      var a :- Eval(env, e, noglob, tr);
      var i :- After(a.tr, Number(a.v));
      Ok(Meaning(Str(Decimal(-1 - i)), a.tr))
    case Group(e) =>
      var a :- MeaningAt(Eval(env, e, noglob, tr), 0);
      var i :- After(a.tr, Number(a.v));
      Ok(Meaning(Str(Decimal(i)), a.tr))
    case Braces(command) =>
      var tr := tr + [Run(command)];
      Ok(Meaning(Str(Decimal(Truth(env.answer(tr) == 0))), tr))
    case Test(what, file) =>
      if |what| < 2 then Err(Failure(FileInq, tr))
      else
        var tr := tr + Probes(file);
        if AnyOp(file) && !env.present(tr) then Err(Failure(FileName, tr))
        else
          var name :- Expand(env, file, tr);
          var tr := tr + [Glob(file), Look(what[1], name)];
          Ok(Meaning(Str(Decimal(Truth(env.answer(tr) != 0))), tr))
    case Leaf(w) => Named(env, w, noglob, tr)
    case Absent => Ok(Meaning(Str([]), tr))
  }

  // ---------------------------------------------------------------- the words around a tree

  /** No level from this one on goes on at q. */
  predicate Stops(level: nat, ws: seq<Word>, q: nat) {
    forall k: nat :: level <= k <= 9 ==> Operator(k, ws, q) == None
  }

  lemma StopsFrom(level: nat, to: nat, ws: seq<Word>, q: nat)
    requires Stops(level, ws, q) && level <= to
    ensures Stops(to, ws, q)
  {
  }

  /** An operator is seen by its own level and by no tighter one. */
  lemma OpSeen(op: Op, ws: seq<Word>, q: nat)
    requires q + |Token(op)| <= |ws| && ws[q..q + |Token(op)|] == Token(op)
    requires op.Rel? && !op.orEq && q + 1 < |ws| ==> ws[q + 1] != Chars("=")
    ensures Operator(Level(op), ws, q) == Some((op, q + |Token(op)|))
    ensures Stops(Level(op) + 1, ws, q)
  {
    var w := ws[q];
    assert w == ws[q..q + |Token(op)|][0] == Token(op)[0];
    if op.Rel? {
      assert w == Chars(if op.less then "<" else ">");
      if op.orEq {
        assert ws[q + 1] == ws[q..q + 2][1];
      }
    } else {
      TokenIs(op, ws, q);
    }
  }

  lemma TokenIs(op: Op, ws: seq<Word>, q: nat)
    requires !op.Rel? && q < |ws| && ws[q] == Token(op)[0]
    ensures Operator(Level(op), ws, q) == Some((op, q + 1))
    ensures forall k: nat :: Level(op) < k <= 9 ==> Operator(k, ws, q) == None
  {
    hide Chars;
    var w := ws[q];
    Spelled();
    match op {
      case OrOr => assert w == ['|' as int, '|' as int];
      case AndAnd => assert w == ['&' as int, '&' as int];
      case BitOr => assert w == ['|' as int];
      case Xor => assert w == ['^' as int];
      case BitAnd => assert w == ['&' as int];
      case EqEq => assert w == ['=' as int, '=' as int];
      case NotEq => assert w == ['!' as int, '=' as int];
      case Match => assert w == ['=' as int, '~' as int];
      case NotMatch => assert w == ['!' as int, '~' as int];
      case Shl => assert w == ['<' as int, '<' as int];
      case Shr => assert w == ['>' as int, '>' as int];
      case Plus => assert w == ['+' as int];
      case Minus => assert w == ['-' as int];
      case Times => assert w == ['*' as int];
      case Div => assert w == ['/' as int];
      case Mod => assert w == ['%' as int];
    }
  }

  lemma Spelled()
    ensures Chars("==") == ['=' as int, '=' as int] && Chars("!=") == ['!' as int, '=' as int]
    ensures Chars("=~") == ['=' as int, '~' as int] && Chars("!~") == ['!' as int, '~' as int]
    ensures Chars("+") == ['+' as int] && Chars("-") == ['-' as int] && Chars("*") == ['*' as int]
    ensures Chars("/") == ['/' as int] && Chars("%") == ['%' as int]
    ensures Chars("<<") == ['<' as int, '<' as int] && Chars(">>") == ['>' as int, '>' as int]
    ensures Chars("||") == ['|' as int, '|' as int] && Chars("&&") == ['&' as int, '&' as int]
    ensures Chars("<") == ['<' as int] && Chars(">") == ['>' as int] && Chars("=") == ['=' as int]
    ensures Chars("|") == ['|' as int] && Chars("&") == ['&' as int] && Chars("^") == ['^' as int]
  {
  }

  // ---------------------------------------------------------------- evaluating a printed tree

  /** The words of t stand at p. */
  predicate Stands(t: seq<Word>, ws: seq<Word>, p: nat) {
    p + |t| <= |ws| && ws[p..p + |t|] == t
  }

  lemma StandsParts(a: seq<Word>, b: seq<Word>, ws: seq<Word>, p: nat)
    requires Stands(a + b, ws, p)
    ensures Stands(a, ws, p) && Stands(b, ws, p + |a|)
  {
    var c := ws[p..p + |a + b|];
    assert c[..|a|] == ws[p..p + |a|] && c[|a|..] == ws[p + |a|..p + |a| + |b|];
    assert (a + b)[..|a|] == a && (a + b)[|a|..] == b;
  }

  lemma StandsOne(w: Word, ws: seq<Word>, p: nat)
    requires Stands([w], ws, p)
    ensures p < |ws| && ws[p] == w
  {
    assert ws[p..p + 1][0] == w;
  }

  /** What the evaluator should give for a tree: its meaning, or what stands in for it. */
  function Expected(env: Env, t: Tree, level: nat, m: Mode, tr: seq<Effect>, q: nat): Result<Out, Failure> {
    var r :- MeaningAt(if m.skip then Dry(env, t, m.noglob, tr) else Eval(env, t, m.noglob, tr), level);
    Ok(Out(r.v, q, r.tr))
  }

  /** An absent operand is read as the empty word, in front of an operator. */
  lemma {:induction false} ReadsAbsent(env: Env, level: nat, ws: seq<Word>, p: nat, m: Mode, tr: seq<Effect>)
    requires p < |ws| && AnyOp(ws[p]) && level <= 10 && Stops(level, ws, p)
    requires ws[p] != Chars("!") && ws[p] != Chars("~") && ws[p] != Chars("(") && ws[p] != Chars("{")
    ensures Exp(env, level, ws, p, m, tr) == Expected(env, Absent, level, m, tr, p)
    decreases 10 - level
  {
    hide AnyOp, Chars, Operator;
    if level < 10 {
      ReadsAbsent(env, level + 1, ws, p, m, tr);
    }
  }

  /** Where no operator of this level follows, the tighter level's result is passed on. */
  lemma PassOn(env: Env, t: Tree, level: nat, ws: seq<Word>, p: nat, m: Mode, tr: seq<Effect>, q: nat)
    requires p <= q <= |ws| && level < 10 && Stops(level, ws, q)
    requires Exp(env, level + 1, ws, p, m, tr) == Expected(env, t, level + 1, m, tr, q)
    ensures Exp(env, level, ws, p, m, tr) == Expected(env, t, level, m, tr, q)
  {
    hide Dry, Eval, Operator, Egetn;
    assert Operator(level, ws, q) == None;
  }

  /** An operator between two operands that are read as expected. */
  predicate Between(env: Env, op: Op, l: Tree, r: Tree, ws: seq<Word>, p: nat, k: nat, q: nat, end: nat, m: Mode, tr: seq<Effect>) {
    && p <= k <= |ws| && q <= |ws| && Operator(Level(op), ws, k) == Some((op, q))
    && var a := Exp(env, Level(op) + 1, ws, p, m, tr);
    && a == Expected(env, l, Level(op) + 1, m, tr, k)
    && (a.Ok? ==>
          var rm := RightMode(op, a.value.v, m);
          Exp(env, RightLevel(Level(op)), ws, q, rm, a.value.tr)
          == Expected(env, r, RightLevel(Level(op)), rm, a.value.tr, end))
  }

  lemma {:induction false} CombineSkip(env: Env, op: Op, l: Tree, r: Tree, ws: seq<Word>, p: nat, k: nat, q: nat, end: nat, m: Mode, tr: seq<Effect>)
    requires Between(env, op, l, r, ws, p, k, q, end, m, tr) && m.skip
    ensures Exp(env, Level(op), ws, p, m, tr) == Expected(env, Bin(op, l, r), Level(op), m, tr, end)
  {
    hide Operator, Egetn, Apply, Idle, Level, RightLevel, RightMode, Number;
    var a := MeaningAt(Dry(env, l, m.noglob, tr), Level(op) + 1);
    if a.Ok? {
      SkipMode(op, a.value.v, m);
      var b := MeaningAt(Dry(env, r, RightMode(op, a.value.v, m).noglob, a.value.tr), RightLevel(Level(op)));
      if b.Ok? {
        IdleKind(env, op, a.value.v, b.value.v);
        Stays(Idle(env, op, a.value.v, b.value.v), b.value.tr, Level(op));
      }
    }
  }

  lemma SkipMode(op: Op, v: Val, m: Mode)
    requires m.skip
    ensures RightMode(op, v, m).skip && RightMode(op, v, Mode(true, m.noglob)) == RightMode(op, v, m)
  {
  }

  lemma Stays(v: Res<Val>, tr: seq<Effect>, level: nat)
    requires v.Ok? && level <= 5 ==> v.value.Int?
    ensures v.Ok? ==> MeaningAt(Ok(Meaning(v.value, tr)), level) == Ok(Meaning(v.value, tr))
  {
  }

  /** Levels up to 5 make integers of what they compute. */
  lemma IdleKind(env: Env, op: Op, a: Val, b: Val)
    ensures var v := Idle(env, op, a, b); v.Ok? && Level(op) <= 5 ==> v.value.Int?
  {
    ApplyKind(env, op, a, b);
  }

  lemma ApplyKind(env: Env, op: Op, a: Val, b: Val)
    ensures var v := Apply(env, op, a, b); v.Ok? && Level(op) <= 5 ==> v.value.Int?
  {
  }

  predicate Settles(op: Op, v: Val) {
    (op == OrOr && v != Int(0)) || (op == AndAnd && v == Int(0))
  }

  lemma {:induction false} CombineShort(env: Env, op: Op, l: Tree, r: Tree, ws: seq<Word>, p: nat, k: nat, q: nat, end: nat, m: Mode, tr: seq<Effect>)
    requires Between(env, op, l, r, ws, p, k, q, end, m, tr) && !m.skip
    requires var a := MeaningAt(Eval(env, l, m.noglob, tr), Level(op) + 1); a.Ok? && Settles(op, a.value.v)
    ensures Exp(env, Level(op), ws, p, m, tr) == Expected(env, Bin(op, l, r), Level(op), m, tr, end)
  {
    hide Operator, Egetn;
  }

  lemma {:induction false} CombineStrict(env: Env, op: Op, l: Tree, r: Tree, ws: seq<Word>, p: nat, k: nat, q: nat, end: nat, m: Mode, tr: seq<Effect>)
    requires Between(env, op, l, r, ws, p, k, q, end, m, tr) && !m.skip
    requires var a := MeaningAt(Eval(env, l, m.noglob, tr), Level(op) + 1); a.Ok? ==> !Settles(op, a.value.v)
    ensures Exp(env, Level(op), ws, p, m, tr) == Expected(env, Bin(op, l, r), Level(op), m, tr, end)
  {
    hide Operator, Egetn, Apply, Level, RightLevel, RightMode, Number;
    var a := MeaningAt(Eval(env, l, m.noglob, tr), Level(op) + 1);
    if a.Ok? {
      StrictMode(op, a.value.v, m);
      var b := MeaningAt(Eval(env, r, RightMode(op, a.value.v, m).noglob, a.value.tr), RightLevel(Level(op)));
      if b.Ok? {
        ApplyKind(env, op, a.value.v, b.value.v);
        Stays(Apply(env, op, a.value.v, b.value.v), b.value.tr, Level(op));
      }
    }
  }

  lemma StrictMode(op: Op, v: Val, m: Mode)
    requires !m.skip && !Settles(op, v)
    ensures RightMode(op, v, m) == Mode(false, if Level(op) < 2 then false else m.noglob || op == Match || op == NotMatch)
  {
  }

  lemma Combine(env: Env, op: Op, l: Tree, r: Tree, ws: seq<Word>, p: nat, k: nat, q: nat, end: nat, m: Mode, tr: seq<Effect>)
    requires Between(env, op, l, r, ws, p, k, q, end, m, tr)
    ensures Exp(env, Level(op), ws, p, m, tr) == Expected(env, Bin(op, l, r), Level(op), m, tr, end)
  {
    hide *;
    if m.skip {
      CombineSkip(env, op, l, r, ws, p, k, q, end, m, tr);
    } else {
      var a := MeaningAt(Eval(env, l, m.noglob, tr), Level(op) + 1);
      if a.Ok? && Settles(op, a.value.v) {
        CombineShort(env, op, l, r, ws, p, k, q, end, m, tr);
      } else {
        CombineStrict(env, op, l, r, ws, p, k, q, end, m, tr);
      }
    }
  }

  /** The words of exp6: each kind of operand is read as expected. */
  lemma ReadsNot(env: Env, e: Tree, ws: seq<Word>, p: nat, m: Mode, tr: seq<Effect>, end: nat)
    requires p < |ws| && ws[p] == Chars("!")
    requires Exp6(env, ws, p + 1, m, tr) == Expected(env, e, 10, m, tr, end)
    ensures Exp6(env, ws, p, m, tr) == Expected(env, Not(e), 10, m, tr, end)
  {
    hide Number, AnyOp, IsTest, Exp, Chars, Decimal, Apply, Idle, Level, RightMode, Closing;
    Brackets();
  }

  lemma ReadsCompl(env: Env, e: Tree, ws: seq<Word>, p: nat, m: Mode, tr: seq<Effect>, end: nat)
    requires p < |ws| && ws[p] == Chars("~")
    requires Exp6(env, ws, p + 1, m, tr) == Expected(env, e, 10, m, tr, end)
    ensures Exp6(env, ws, p, m, tr) == Expected(env, Compl(e), 10, m, tr, end)
  {
    hide Number, AnyOp, IsTest, Exp, Chars, Decimal, Apply, Idle, Level, RightMode, Closing;
    Brackets();
  }

  lemma Brackets()
    ensures Chars("!") == ['!' as int] && Chars("~") == ['~' as int] && Chars("(") == ['(' as int] && Chars(")") == [')' as int]
    ensures Chars("{") == ['{' as int] && Chars("}") == ['}' as int]
  {
  }

  lemma ReadsGroup(env: Env, e: Tree, ws: seq<Word>, p: nat, m: Mode, tr: seq<Effect>, end: nat)
    requires p < end < |ws| && ws[p] == Chars("(") && ws[end] == Chars(")")
    requires Exp(env, 0, ws, p + 1, m, tr) == Expected(env, e, 0, m, tr, end)
    ensures Exp6(env, ws, p, m, tr) == Expected(env, Group(e), 10, m, tr, end + 1)
  {
    hide Egetn, AnyOp, IsTest, Exp, Chars, Decimal;
    Brackets();
  }

  lemma Grouped(s: seq<Word>, ws: seq<Word>, p: nat)
    requires Stands([Chars("(")] + (s + [Chars(")")]), ws, p)
    ensures p + 1 + |s| < |ws| && ws[p] == Chars("(") && Stands(s, ws, p + 1) && ws[p + 1 + |s|] == Chars(")")
  {
    hide Chars;
    StandsParts([Chars("(")], s + [Chars(")")], ws, p);
    StandsParts(s, [Chars(")")], ws, p + 1);
    StandsOne(Chars("("), ws, p);
    StandsOne(Chars(")"), ws, p + 1 + |s|);
  }

  lemma {:induction false} FindsClosing(command: seq<Word>, ws: seq<Word>, p: nat)
    requires Stands(command + [Chars("}")], ws, p) && forall i :: 0 <= i < |command| ==> command[i] != Chars("}")
    ensures Closing(ws, p) == p + |command|
    decreases |command|
  {
    if command == [] {
      StandsOne(Chars("}"), ws, p);
    } else {
      StandsParts([command[0]], command[1..] + [Chars("}")], ws, p) by {
        assert [command[0]] + (command[1..] + [Chars("}")]) == command + [Chars("}")];
      }
      StandsOne(command[0], ws, p);
      FindsClosing(command[1..], ws, p + 1);
    }
  }

  lemma ReadsBraces(env: Env, command: seq<Word>, ws: seq<Word>, p: nat, m: Mode, tr: seq<Effect>)
    requires (forall i :: 0 <= i < |command| ==> command[i] != Chars("}")) && Stands(Print(Braces(command)), ws, p)
    ensures Exp6(env, ws, p, m, tr) == Expected(env, Braces(command), 10, m, tr, p + |command| + 2)
  {
    hide Egetn, Exp, AnyOp, IsTest, Chars, Closing, Stands, Decimal;
    Brackets();
    BracesThere(command, ws, p);
  }

  lemma BracesThere(command: seq<Word>, ws: seq<Word>, p: nat)
    requires (forall i :: 0 <= i < |command| ==> command[i] != Chars("}")) && Stands(Print(Braces(command)), ws, p)
    ensures p + |command| + 1 < |ws| && ws[p] == Chars("{") && Closing(ws, p + 1) == p + 1 + |command|
    ensures ws[p + 1..p + 1 + |command|] == command
  {
    hide Chars;
    assert Print(Braces(command)) == [Chars("{")] + (command + [Chars("}")]);
    StandsParts([Chars("{")], command + [Chars("}")], ws, p);
    StandsOne(Chars("{"), ws, p);
    FindsClosing(command, ws, p + 1);
    StandsParts(command, [Chars("}")], ws, p + 1);
  }

  lemma ReadsTest(env: Env, what: Word, file: Word, ws: seq<Word>, p: nat, m: Mode, tr: seq<Effect>)
    requires IsTest(what) && |what| == 2 && !AnyOp(what) && Stands([what, file], ws, p)
    ensures Exp6(env, ws, p, m, tr) == Expected(env, Test(what, file), 10, m, tr, p + 2)
  {
    hide Egetn, Exp, AnyOp, Chars;
    Brackets();
    assert ws[p] == ws[p..p + 2][0] && ws[p + 1] == ws[p..p + 2][1];
    assert what[0] == DASH;
  }

  lemma ReadsLeaf(env: Env, w: Word, ws: seq<Word>, p: nat, m: Mode, tr: seq<Effect>)
    requires Plain(w) && Stands([w], ws, p)
    ensures Exp6(env, ws, p, m, tr) == Expected(env, Leaf(w), 10, m, tr, p + 1)
  {
    hide Egetn, Exp, IsTest;
    StandsOne(w, ws, p);
  }

  /** The evaluator, at any level, from a printed canonical tree on: the value is the meaning of the tree, the
      cursor stops behind it, and under IGNORE what stands in for it is all there is. */
  lemma {:induction false} ReadsTree(env: Env, t: Tree, level: nat, ws: seq<Word>, p: nat, m: Mode, tr: seq<Effect>)
    requires Canon(t, level) && level <= 10 && Stands(Print(t), ws, p) && Stops(level, ws, p + |Print(t)|)
    ensures Exp(env, level, ws, p, m, tr) == Expected(env, t, level, m, tr, p + |Print(t)|)
    decreases t, 10 - level, 1
  {
    hide Egetn, Operator, Dry, Eval, AnyOp, IsTest, Chars, Exp6, Print;
    if level == 10 {
      ReadsOperand(env, t, ws, p, m, tr);
    } else if t.Bin? && Level(t.op) == level {
      ReadsBin(env, t.op, t.l, t.r, ws, p, m, tr);
    } else {
      ReadsTree(env, t, level + 1, ws, p, m, tr);
      PassOn(env, t, level, ws, p, m, tr, p + |Print(t)|);
    }
  }

  lemma {:induction false} ReadsOperand(env: Env, t: Tree, ws: seq<Word>, p: nat, m: Mode, tr: seq<Effect>)
    requires Canon(t, 10) && Stands(Print(t), ws, p)
    ensures Exp6(env, ws, p, m, tr) == Expected(env, t, 10, m, tr, p + |Print(t)|)
    decreases t, 0, 0
  {
    hide Egetn, Operator, Dry, Eval, AnyOp, IsTest, Chars, Exp6, Expected;
    match t {
      case Not(e) =>
        StandsParts([Chars("!")], Print(e), ws, p);
        StandsOne(Chars("!"), ws, p);
        ReadsOperand(env, e, ws, p + 1, m, tr);
        ReadsNot(env, e, ws, p, m, tr, p + 1 + |Print(e)|);
      case Compl(e) =>
        StandsParts([Chars("~")], Print(e), ws, p);
        StandsOne(Chars("~"), ws, p);
        ReadsOperand(env, e, ws, p + 1, m, tr);
        ReadsCompl(env, e, ws, p, m, tr, p + 1 + |Print(e)|);
      case Group(e) =>
        ReadsParens(env, e, ws, p, m, tr);
      case Braces(command) =>
        ReadsBraces(env, command, ws, p, m, tr);
      case Test(what, file) =>
        ReadsTest(env, what, file, ws, p, m, tr);
      case Leaf(w) =>
        ReadsLeaf(env, w, ws, p, m, tr);
    }
  }

  lemma {:induction false} ReadsParens(env: Env, e: Tree, ws: seq<Word>, p: nat, m: Mode, tr: seq<Effect>)
    requires Canon(e, 0) && Stands([Chars("(")] + (Print(e) + [Chars(")")]), ws, p)
    ensures Exp6(env, ws, p, m, tr) == Expected(env, Group(e), 10, m, tr, p + |Print(e)| + 2)
    decreases e, 100
  {
    hide Egetn, Operator, Dry, Eval, AnyOp, IsTest, Chars, Exp6, Expected, Print;
    Grouped(Print(e), ws, p);
    ClosingStops(ws, p + 1 + |Print(e)|);
    ReadsTree(env, e, 0, ws, p + 1, m, tr);
    ReadsGroup(env, e, ws, p, m, tr, p + 1 + |Print(e)|);
  }

  lemma ClosingStops(ws: seq<Word>, q: nat)
    requires q < |ws| && ws[q] == Chars(")")
    ensures Stops(0, ws, q)
  {
    hide Chars;
    Brackets();
    Spelled();
  }

  lemma {:induction false} ReadsBin(env: Env, op: Op, l: Tree, r: Tree, ws: seq<Word>, p: nat, m: Mode, tr: seq<Effect>)
    requires Canon(Bin(op, l, r), Level(op)) && Stands(Print(Bin(op, l, r)), ws, p)
    requires Stops(Level(op), ws, p + |Print(Bin(op, l, r))|)
    ensures Exp(env, Level(op), ws, p, m, tr) == Expected(env, Bin(op, l, r), Level(op), m, tr, p + |Print(Bin(op, l, r))|)
    decreases Bin(op, l, r), 10 - Level(op), 0
  {
    hide Egetn, Operator, Dry, Eval, AnyOp, IsTest, Chars, Exp6, Exp, Token, Expected, Stops, Stands, RightMode;
    var level := Level(op);
    var k := p + |Print(l)|;
    var q := k + |Token(op)|;
    var end := p + |Print(Bin(op, l, r))|;
    StandsParts(Print(l), Token(op) + Print(r), ws, p);
    StandsParts(Token(op), Print(r), ws, k);
    PrintsSomething(r, RightLevel(level));
    StopsFrom(level, RightLevel(level), ws, end);
    OpThere(op, r, ws, k);
    if l == Absent {
      TokenPlain(op, ws[k]);
      ReadsAbsent(env, level + 1, ws, p, m, tr);
    } else {
      ReadsTree(env, l, level + 1, ws, p, m, tr);
    }
    var a := Exp(env, level + 1, ws, p, m, tr);
    if a.Ok? {
      ReadsTree(env, r, RightLevel(level), ws, q, RightMode(op, a.value.v, m), a.value.tr);
    }
    Combine(env, op, l, r, ws, p, k, q, end, m, tr);
  }

  /** The operator is seen where it stands, and not taken for an operand. */
  lemma OpThere(op: Op, r: Tree, ws: seq<Word>, k: nat)
    requires Stands(Token(op), ws, k) && Stands(Print(r), ws, k + |Token(op)|)
    requires Print(r) != [] && (op.Rel? && !op.orEq ==> !StartsEq(r))
    ensures Operator(Level(op), ws, k) == Some((op, k + |Token(op)|)) && Stops(Level(op) + 1, ws, k)
    ensures k < |ws| && ws[k] == Token(op)[0]
  {
    var q := k + |Token(op)|;
    assert ws[k..q][0] == ws[k] && ws[q..q + |Print(r)|][0] == ws[q];
    OpSeen(op, ws, k);
  }

  lemma PrintsSomething(t: Tree, level: nat)
    requires Canon(t, level)
    ensures Print(t) != []
  {
    if t.Bin? {
      assert |Token(t.op)| > 0;
    }
  }

  lemma TokenPlain(op: Op, w: Word)
    requires w == Token(op)[0]
    ensures w != Chars("!") && w != Chars("~") && w != Chars("(") && w != Chars("{")
  {
    hide Chars;
    Brackets();
    Spelled();
  }

  /** The whole of it: expr on the words of a tree. */
  lemma ExprEvaluates(env: Env, t: Tree)
    requires Canon(t, 0)
    ensures Exp(env, 0, Print(t), 0, Mode(false, false), []) == Expected(env, t, 0, Mode(false, false), [], |Print(t)|)
  {
    assert Print(t)[0..|Print(t)|] == Print(t);
    ReadsTree(env, t, 0, Print(t), 0, Mode(false, false), []);
  }
}
