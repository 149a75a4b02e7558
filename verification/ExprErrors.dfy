/** What exp.c refuses and what it passes over: words that are no numbers, parentheses and braces that are not closed,
    file tests without a file, patterns, and the operand that `||` and `&&` do not need. */
module ExprErrors {
  import opened Common
  import opened Strings
  import opened Numbers
  import opened Expr
  import opened ExprValues
  import ExprTree

  // ---------------------------------------------------------------- errors of an operand

  /** What goes wrong where an operand stands goes wrong at every level. */
  lemma {:induction false} ErrorRises(env: Env, level: nat, ws: seq<Word>, p: nat, m: Mode, tr: seq<Effect>)
    requires p <= |ws| && level <= 10 && Exp6(env, ws, p, m, tr).Err?
    ensures Exp(env, level, ws, p, m, tr) == Exp6(env, ws, p, m, tr)
    decreases 10 - level
  {
    hide Exp6, Operator, Apply, Idle;
    if level < 10 {
      ErrorRises(env, level + 1, ws, p, m, tr);
    }
  }

  lemma OperandFails(env: Env, ws: seq<Word>, e: Error)
    requires var r := Exp6(env, ws, 0, Mode(false, false), []); r.Err? && r.error.error == e
    ensures Fails(env, ws, e)
  {
    hide Exp, Exp6;
    ErrorRises(env, 0, ws, 0, Mode(false, false), []);
  }

  /** An operand has to be there. */
  lemma NothingThere(env: Env)
    ensures Fails(env, [], Expression)
  {
    OperandFails(env, [], Expression);
  }

  lemma Openers()
    ensures Chars("{") == ['{' as int] && Chars("(") == ['(' as int] && Chars("!") == ['!' as int] && Chars("~") == ['~' as int]
  {
  }

  /** Braces without an end are refused, whatever stands behind them; nothing is run. */
  lemma OpenBraces(env: Env, command: seq<Word>)
    requires forall i :: 0 <= i < |command| ==> command[i] != Chars("}")
    ensures var r := Exp(env, 0, [Chars("{")] + command, 0, Mode(false, false), []); r == Err(Failure(Missing, []))
  {
    hide Exp, Chars;
    var ws := [Chars("{")] + command;
    NoClosing(ws, 1);
    Openers();
    ErrorRises(env, 0, ws, 0, Mode(false, false), []);
  }

  lemma {:induction false} NoClosing(ws: seq<Word>, p: nat)
    requires p <= |ws| && forall i :: p <= i < |ws| ==> ws[i] != Chars("}")
    ensures Closing(ws, p) == |ws|
    decreases |ws| - p
  {
    hide Chars;
    if p < |ws| {
      NoClosing(ws, p + 1);
    }
  }

  /** The expression in parentheses has to end at a word that starts with a closing one. */
  lemma OpenParens(env: Env, a: int, w: Word)
    requires Keeps(env) && Fits(a) && !AnyOp(w) && w != Chars("||") && w != Chars("&&") && w != Chars("|") && w != Chars("&")
    requires w == [] || w[0] != ')' as int
    ensures Fails(env, [Chars("("), Decimal(a)], Expression)
    ensures Fails(env, [Chars("("), Decimal(a), w], Expression)
  {
    hide Exp, Decimal, Chars, Egetn, Exp6, AnyOp, Operator;
    InnerIs(env, a, [Chars("("), Decimal(a)]);
    OperandFails(env, [Chars("("), Decimal(a)], Expression);
    NoOperator(w, [Chars("("), Decimal(a), w]);
    InnerIs(env, a, [Chars("("), Decimal(a), w]);
    OperandFails(env, [Chars("("), Decimal(a), w], Expression);
  }

  lemma NoOperator(w: Word, ws: seq<Word>)
    requires |ws| > 2 && ws[2] == w && !AnyOp(w) && w != Chars("||") && w != Chars("&&") && w != Chars("|") && w != Chars("&")
    ensures ExprTree.Stops(0, ws, 2)
  {
    hide Chars;
  }

  lemma InnerIs(env: Env, a: int, ws: seq<Word>)
    requires Keeps(env) && Fits(a) && |ws| >= 2 && ws[0] == Chars("(") && ws[1] == Decimal(a)
    requires |ws| > 2 ==> At(ws[2], 0) != ')' as int && ExprTree.Stops(0, ws, 2)
    ensures var r := Exp6(env, ws, 0, Mode(false, false), []); r.Err? && r.error.error == Expression
  {
    hide Exp, Decimal, Chars, Egetn, AnyOp, Operator;
    DecimalPlain(a);
    LeafIs(env, a, [], 0);
    var t := ExprTree.Leaf(Decimal(a));
    assert ws[1..2] == [Decimal(a)] == ExprTree.Print(t);
    assert |ws| == 2 ==> ExprTree.Stops(0, ws, 2) by { EndStops(ws); }
    ExprTree.ReadsTree(env, t, 0, ws, 1, Mode(false, false), []);
    Openers();
  }

  lemma EndStops(ws: seq<Word>)
    ensures ExprTree.Stops(0, ws, |ws|)
  {
  }

  /** A file test of more than one letter, without a file, or with an operator for it that is no file. */
  lemma BadTests(env: Env, what: Word, file: Word)
    requires IsTest(what) && AnyOp(file) && !env.present([Probe(file)])
    ensures |what| > 2 ==> Fails(env, [what, file], FileInq)
    ensures |what| == 2 ==> Fails(env, [what], FileName) && Fails(env, [what, file], FileName)
  {
    hide Exp, Chars, AnyOp, IsTest;
    TestIsOther(what);
    assert [] + [Probe(file)] == [Probe(file)];
    if |what| > 2 {
      OperandFails(env, [what, file], FileInq);
    } else if |what| == 2 {
      OperandFails(env, [what], FileName);
      OperandFails(env, [what, file], FileName);
    }
  }

  lemma TestIsOther(w: Word)
    requires IsTest(w)
    ensures |w| >= 2 && !AnyOp(w) && w != Chars("!") && w != Chars("~") && w != Chars("(") && w != Chars("{")
  {
    hide Chars;
    if AnyOp(w) {
      OpStarts(w);
    }
    Openers();
    assert At(w, 1) != EOS by { Letters(w); }
  }

  lemma Letters(w: Word)
    requires IsTest(w)
    ensures At(w, 1) != EOS
  {
    var letters := Chars("erwxfdzopls");
    assert forall i :: 0 <= i < |letters| ==> letters[i] != EOS;
  }

  // ---------------------------------------------------------------- words

  /** A word by itself is its number, or no number, or not even the start of one. */
  lemma OneWord(env: Env, w: Word)
    requires Keeps(env) && ExprTree.Plain(w) && w != []
    ensures w[0] != DASH && !IsDigit(w[0]) ==> Fails(env, [w], Expression)
    ensures w[0] == DASH || IsDigit(w[0]) ==> match Read(w) case Some(n) => Gives(env, [w], n) case None => Fails(env, [w], BadNum)
  {
    hide Exp, Read, ExprTree.Plain;
    var t := ExprTree.Leaf(w);
    assert env.glob([] + [Glob(w)]) == Some(w);
    ExprTree.ExprEvaluates(env, t);
    assert ExprTree.Print(t) == [w];
  }

  /** Words are compared as they are; a pattern is matched, and is not expanded. */
  lemma ComparesWords(env: Env, v: Word, w: Word)
    requires Keeps(env) && ExprTree.Plain(v) && ExprTree.Plain(w)
    ensures Gives(env, [v, Chars("=="), w], if v == w then 1 else 0) && Gives(env, [v, Chars("!="), w], if v != w then 1 else 0)
  {
    hide Exp, ExprTree.Plain, ExprTree.Eval, Chars;
    PairIs(env, v, EqEq, w);
    PairIs(env, v, NotEq, w);
    assert [v] + [Chars("==")] + [w] == [v, Chars("=="), w] && [v] + [Chars("!=")] + [w] == [v, Chars("!="), w];
    TreeGives(env, Pair(v, EqEq, w), if v == w then 1 else 0);
    TreeGives(env, Pair(v, NotEq, w), if v != w then 1 else 0);
  }

  lemma MatchesPattern(env: Env, v: Word, w: Word)
    requires Keeps(env) && ExprTree.Plain(v) && ExprTree.Plain(w)
    ensures match env.gmatch(v, w)
            case Some(m) => Gives(env, [v, Chars("=~"), w], if m then 1 else 0) && Gives(env, [v, Chars("!~"), w], if m then 0 else 1)
            case None => Fails(env, [v, Chars("=~"), w], BadPattern) && Fails(env, [v, Chars("!~"), w], BadPattern)
    ensures History(Exp(env, 0, [v, Chars("=~"), w], 0, Mode(false, false), [])) == [Glob(v)]
  {
    hide Exp, ExprTree.Plain, ExprTree.Eval, Chars;
    PairIs(env, v, Match, w);
    PairIs(env, v, NotMatch, w);
    assert [v] + [Chars("=~")] + [w] == [v, Chars("=~"), w] && [v] + [Chars("!~")] + [w] == [v, Chars("!~"), w];
    ExprTree.ExprEvaluates(env, Pair(v, Match, w));
    ExprTree.ExprEvaluates(env, Pair(v, NotMatch, w));
  }

  function Pair(v: Word, op: Op, w: Word): ExprTree.Tree {
    ExprTree.Bin(op, ExprTree.Leaf(v), ExprTree.Leaf(w))
  }

  lemma PairIs(env: Env, v: Word, op: Op, w: Word)
    requires Keeps(env) && ExprTree.Plain(v) && ExprTree.Plain(w) && Level(op) == 5
    ensures ExprTree.Canon(Pair(v, op, w), 0) && ExprTree.Print(Pair(v, op, w)) == [v] + ExprTree.Token(op) + [w]
    ensures var r := ExprTree.Eval(env, Pair(v, op, w), false, []);
            var tr := if op == Match || op == NotMatch then [Glob(v)] else [Glob(v), Glob(w)];
            match Apply(env, op, Str(v), Str(w))
            case Ok(x) => r == Ok(ExprTree.Meaning(x, tr))
            case Err(e) => r == Err(Failure(e, tr))
  {
    hide Exp, ExprTree.Plain, Apply, Chars;
    assert [] + [Glob(v)] == [Glob(v)] && [Glob(v)] + [Glob(w)] == [Glob(v), Glob(w)];
    assert env.glob([] + [Glob(v)]) == Some(v) && env.glob([Glob(v)] + [Glob(w)]) == Some(w);
  }

  // ---------------------------------------------------------------- what is passed over

  /** The right operand of `||` and `&&` is not computed where the left one decides: no division fails there. */
  lemma PassesOver(env: Env, a: int, b: int)
    requires Keeps(env) && Fits(a) && Fits(b)
    ensures a != 0 ==> Gives(env, [Decimal(a), Chars("||"), Decimal(b), Chars("/"), Decimal(0)], 1)
    ensures a == 0 ==> Gives(env, [Decimal(a), Chars("&&"), Decimal(b), Chars("%"), Decimal(0)], 0)
    ensures a == 0 ==> Fails(env, [Decimal(a), Chars("||"), Decimal(b), Chars("/"), Decimal(0)], Div0)
  {
    hide Exp, Decimal, Chars, ExprTree.Eval, ExprTree.Canon, ExprTree.Print, Egetn, Two;
    if a != 0 {
      Over(env, a, OrOr, b, Div);
      OverTree(a, OrOr, b, Div);
      TreeGives(env, ExprTree.Bin(OrOr, ExprTree.Leaf(Decimal(a)), Two(b, Div, 0)), 1);
    } else {
      Over(env, 0, AndAnd, b, Mod);
      OverTree(0, AndAnd, b, Mod);
      TreeGives(env, ExprTree.Bin(AndAnd, ExprTree.Leaf(Decimal(a)), Two(b, Mod, 0)), 0);
      Reached(env, b);
      OverTree(0, OrOr, b, Div);
      ExprTree.ExprEvaluates(env, ExprTree.Bin(OrOr, ExprTree.Leaf(Decimal(0)), Two(b, Div, 0)));
    }
  }

  lemma OverTree(a: int, o1: Op, b: int, o2: Op)
    requires (o1 == OrOr || o1 == AndAnd) && (o2 == Div || o2 == Mod)
    ensures var t := ExprTree.Bin(o1, ExprTree.Leaf(Decimal(a)), Two(b, o2, 0));
            && ExprTree.Canon(t, 0)
            && ExprTree.Print(t) == [Decimal(a), ExprTree.Token(o1)[0], Decimal(b), ExprTree.Token(o2)[0], Decimal(0)]
  {
    hide Decimal, Chars;
    RightFirst(a, o1, b, o2, 0);
  }

  lemma Over(env: Env, a: int, o1: Op, b: int, o2: Op)
    requires Keeps(env) && Fits(a) && Fits(b) && (o2 == Div || o2 == Mod)
    requires (o1 == OrOr && a != 0) || (o1 == AndAnd && a == 0)
    ensures var r := ExprTree.Eval(env, ExprTree.Bin(o1, ExprTree.Leaf(Decimal(a)), Two(b, o2, 0)), false, []);
            r.Ok? && r.value.v == Int(if o1 == OrOr then 1 else 0)
  {
    hide Decimal, Egetn, ExprTree.Dry;
    LeafIs(env, a, [], Level(o1) + 1);
    DryTwo(env, b, o2, [Glob(Decimal(a))]);
    NumberIs(0);
    assert [] + [Glob(Decimal(a))] == [Glob(Decimal(a))];
  }

  lemma DryTwo(env: Env, b: int, op: Op, tr: seq<Effect>)
    requires Keeps(env) && (op == Div || op == Mod)
    ensures var r := ExprTree.Dry(env, Two(b, op, 0), false, tr); r.Ok? && r.value.v == Str(Decimal(0))
  {
    hide Decimal, Egetn;
    assert env.glob(tr + [Glob(Decimal(b))]) == Some(Decimal(b));
    assert env.glob(tr + [Glob(Decimal(b))] + [Glob(Decimal(0))]) == Some(Decimal(0));
  }

  lemma Reached(env: Env, b: int)
    requires Keeps(env) && Fits(b)
    ensures var r := ExprTree.Eval(env, ExprTree.Bin(OrOr, ExprTree.Leaf(Decimal(0)), Two(b, Div, 0)), false, []);
            r.Err? && r.error.error == Div0
  {
    hide Decimal, Egetn;
    LeafIs(env, 0, [], 1);
    LeafIs(env, b, [Glob(Decimal(0))], 10);
    LeafIs(env, 0, [Glob(Decimal(0))] + [Glob(Decimal(b))], 9);
    NumberIs(0);
    NumberIs(b);
    assert [] + [Glob(Decimal(0))] == [Glob(Decimal(0))];
  }
}
