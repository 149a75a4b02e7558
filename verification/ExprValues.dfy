/** What the operators of exp.c compute, on the words of a command: integer arithmetic, relations, shifts, bits and
    the logical operators, stated without the functions of the evaluator. */
module ExprValues {
  import opened Common
  import opened Strings
  import opened Numbers
  import opened Expr
  import ExprTree

  /** Expanding a word leaves it as it is. */
  ghost predicate Keeps(env: Env) {
    forall tr: seq<Effect>, w: Word :: env.glob(tr + [Glob(w)]) == Some(w)
  }

  predicate Fits(n: int) {
    MIN <= n <= MAX
  }

  /** The words as a whole have the value n. */
  predicate Gives(env: Env, ws: seq<Word>, n: int) {
    var r := Exp(env, 0, ws, 0, Mode(false, false), []);
    r.Ok? && r.value.v == Int(n) && r.value.p == |ws|
  }

  predicate Fails(env: Env, ws: seq<Word>, e: Error) {
    var r := Exp(env, 0, ws, 0, Mode(false, false), []);
    r.Err? && r.error.error == e
  }

  // ---------------------------------------------------------------- decimals as operands

  lemma DecimalStarts(n: int)
    ensures Decimal(n) != [] && (Decimal(n)[0] == DASH || IsDigit(Decimal(n)[0]))
    ensures |Decimal(n)| > 1 ==> IsDigit(Decimal(n)[1])
  {
  }

  lemma DecimalPlain(n: int)
    ensures ExprTree.Plain(Decimal(n)) && Decimal(n) != Chars("=")
  {
    hide Decimal, Digits;
    DecimalStarts(n);
    ShortDash(n);
    if AnyOp(Decimal(n)) {
      OpStarts(Decimal(n));
    }
    assert Chars("{")[0] == '{' as int && Chars("=")[0] == '=' as int;
    if IsTest(Decimal(n)) {
      TestStarts(Decimal(n));
    }
  }

  lemma ShortDash(n: int)
    ensures Decimal(n) != [DASH]
  {
  }

  /** The words that are operators start with no digit, and tests have a letter behind the dash. */
  lemma OpStarts(w: Word)
    requires AnyOp(w)
    ensures w != [] && !IsDigit(w[0]) && (w[0] == DASH ==> w == [DASH])
  {
    hide Chars;
    ExprTree.Spelled();
    RestStarts();
  }

  lemma RestStarts()
    ensures forall w: Word :: RestOp(w) ==> w != [] && !IsDigit(w[0]) && w[0] != DASH
  {
    forall w: Word | RestOp(w) ensures w != [] && !IsDigit(w[0]) && w[0] != DASH {
      assert Chars("(")[0] == '(' as int && Chars(")")[0] == ')' as int && Chars("!")[0] == '!' as int;
      assert Chars("~")[0] == '~' as int && Chars("^")[0] == '^' as int && Chars("\"")[0] == '"' as int;
      assert Chars("|&")[0] == '|' as int && Chars("<<")[0] == '<' as int && Chars(">>")[0] == '>' as int;
    }
  }

  lemma TestStarts(w: Word)
    requires IsTest(w)
    ensures |w| > 1 && !IsDigit(w[1])
  {
    var letters := Chars("erwxfdzopls");
    assert forall i :: 0 <= i < |letters| ==> !IsDigit(letters[i]);
  }

  lemma NumberIs(n: int)
    requires Fits(n)
    ensures Egetn(Decimal(n)) == Ok(n)
  {
    hide Decimal, Read;
    DecimalStarts(n);
    ReadDecimal(n);
  }

  lemma LeafIs(env: Env, a: int, tr: seq<Effect>, level: nat)
    requires Keeps(env) && Fits(a)
    ensures var w := Decimal(a);
            ExprTree.MeaningAt(ExprTree.Eval(env, ExprTree.Leaf(w), false, tr), level)
            == Ok(ExprTree.Meaning(if level <= 5 then Int(a) else Str(w), tr + [Glob(w)]))
  {
    hide Decimal, Egetn;
    NumberIs(a);
  }

  /** The words of an operator between two decimals. */
  function Between(a: int, op: Op, b: int): seq<Word> {
    [Decimal(a)] + (ExprTree.Token(op) + [Decimal(b)])
  }

  /** An operator whose operands are both evaluated. */
  predicate Strict(op: Op) {
    op != OrOr && op != AndAnd && op != Match && op != NotMatch
  }

  function Operand(op: Op, a: int): Val {
    if Level(op) < 5 then Int(a) else Str(Decimal(a))
  }

  lemma EvalIs(env: Env, op: Op, a: int, b: int)
    requires Keeps(env) && Fits(a) && Fits(b) && Strict(op)
    ensures var tr := [Glob(Decimal(a)), Glob(Decimal(b))];
            ExprTree.Eval(env, ExprTree.Bin(op, ExprTree.Leaf(Decimal(a)), ExprTree.Leaf(Decimal(b))), false, [])
            == match Apply(env, op, Operand(op, a), Operand(op, b))
               case Err(e) => Err(Failure(e, tr))
               case Ok(r) => Ok(ExprTree.Meaning(r, tr))
  {
    hide Decimal, Egetn, Apply, ExprTree.MeaningAt;
    LeafIs(env, a, [], Level(op) + 1);
    LeafIs(env, b, [Glob(Decimal(a))], RightLevel(Level(op)));
    assert [] + [Glob(Decimal(a))] == [Glob(Decimal(a))];
    assert [Glob(Decimal(a))] + [Glob(Decimal(b))] == [Glob(Decimal(a)), Glob(Decimal(b))];
  }

  lemma BinaryIs(env: Env, op: Op, a: int, b: int)
    requires Keeps(env) && Fits(a) && Fits(b) && Strict(op)
    ensures match Apply(env, op, Operand(op, a), Operand(op, b))
            case Err(e) => Fails(env, Between(a, op, b), e)
            case Ok(r) => (match Number(r) case Ok(i) => Gives(env, Between(a, op, b), i) case Err(_) => true)
  {
    hide Decimal, Egetn, Apply, Exp, Number, ExprTree.Eval, Operand;
    var l, r := ExprTree.Leaf(Decimal(a)), ExprTree.Leaf(Decimal(b));
    DecimalPlain(a);
    DecimalPlain(b);
    EvalIs(env, op, a, b);
    assert ExprTree.Print(ExprTree.Bin(op, l, r)) == Between(a, op, b);
    ExprTree.ExprEvaluates(env, ExprTree.Bin(op, l, r));
  }

  /** Whatever integer arithmetic makes of the operands is the value of the words. */
  lemma Computes(env: Env, op: Op, a: int, b: int)
    requires Keeps(env) && Fits(a) && Fits(b) && Strict(op) && Level(op) != 5
    ensures match Arith(env, op, a, b)
            case Err(e) => Fails(env, Between(a, op, b), e)
            case Ok(i) => Fits(i) ==> Gives(env, Between(a, op, b), i)
  {
    hide Decimal, Egetn, Gives, Fails, Between;
    BinaryIs(env, op, a, b);
    NumberIs(a);
    NumberIs(b);
    if Arith(env, op, a, b).Ok? && Fits(Arith(env, op, a, b).value) {
      hide Arith;
      NumberIs(Arith(env, op, a, b).value);
    }
  }

  // ---------------------------------------------------------------- arithmetic

  function Words(a: int, token: string, b: int): seq<Word>
    requires forall i :: 0 <= i < |token| ==> 0 < token[i] as int < 0x80
  {
    [Decimal(a), Chars(token), Decimal(b)]
  }

  lemma Adds(env: Env, a: int, b: int)
    requires Keeps(env) && Fits(a) && Fits(b)
    ensures Fits(a + b) ==> Gives(env, Words(a, "+", b), a + b)
    ensures Fits(a - b) ==> Gives(env, Words(a, "-", b), a - b)
    ensures Fits(a * b) ==> Gives(env, Words(a, "*", b), a * b)
  {
    hide Gives, Decimal, Chars;
    Computes(env, Plus, a, b);
    Computes(env, Minus, a, b);
    Computes(env, Times, a, b);
    assert Between(a, Plus, b) == Words(a, "+", b) && Between(a, Minus, b) == Words(a, "-", b);
    assert Between(a, Times, b) == Words(a, "*", b);
  }

  /** Division: the quotient and the remainder make up the dividend, and what remains is smaller than the divisor and
      has the sign of the dividend. */
  lemma Divides(env: Env, a: int, b: int) returns (q: int, m: int)
    requires Keeps(env) && Fits(a) && Fits(b) && b != 0 && !(a == MIN && b == -1)
    ensures Gives(env, Words(a, "/", b), q) && Gives(env, Words(a, "%", b), m)
    ensures a == q * b + m && (if b < 0 then b < m < -b else -b < m < b) && (m == 0 || (m < 0 <==> a < 0))
  {
    hide Gives, Decimal, Chars, Quotient;
    q, m := Quotient(a, b), a - b * Quotient(a, b);
    QuotientIs(a, b);
    Computes(env, Div, a, b);
    Computes(env, Mod, a, b);
    assert Between(a, Div, b) == Words(a, "/", b) && Between(a, Mod, b) == Words(a, "%", b);
  }

  lemma QuotientIs(a: int, b: int)
    requires Fits(a) && Fits(b) && b != 0
    ensures var q := Quotient(a, b);
            var m := a - b * q;
            && a == q * b + m && (if b < 0 then b < m < -b else -b < m < b) && (m == 0 || (m < 0 <==> a < 0))
            && (!(a == MIN && b == -1) ==> Fits(q)) && Fits(m)
  {
    QuotientCutsOff(a, b);
    QuotientShrinks(a, b);
  }

  lemma NoDivisor(env: Env, a: int)
    requires Keeps(env) && Fits(a)
    ensures Fails(env, Words(a, "/", 0), Div0) && Fails(env, Words(a, "%", 0), Mod0)
  {
    hide Fails, Decimal, Chars;
    Computes(env, Div, a, 0);
    Computes(env, Mod, a, 0);
    assert Between(a, Div, 0) == Words(a, "/", 0) && Between(a, Mod, 0) == Words(a, "%", 0);
  }

  // ---------------------------------------------------------------- relations

  lemma Compares(env: Env, a: int, b: int)
    requires Keeps(env) && Fits(a) && Fits(b)
    ensures Gives(env, Words(a, "<", b), if a < b then 1 else 0) && Gives(env, Words(a, ">", b), if a > b then 1 else 0)
    ensures Gives(env, [Decimal(a), Chars("<"), Chars("="), Decimal(b)], if a <= b then 1 else 0)
    ensures Gives(env, [Decimal(a), Chars(">"), Chars("="), Decimal(b)], if a >= b then 1 else 0)
  {
    hide Gives, Decimal, Chars;
    Computes(env, Rel(true, false), a, b);
    Computes(env, Rel(false, false), a, b);
    Computes(env, Rel(true, true), a, b);
    Computes(env, Rel(false, true), a, b);
    assert Between(a, Rel(true, false), b) == Words(a, "<", b) && Between(a, Rel(false, false), b) == Words(a, ">", b);
    assert Between(a, Rel(true, true), b) == [Decimal(a), Chars("<"), Chars("="), Decimal(b)];
    assert Between(a, Rel(false, true), b) == [Decimal(a), Chars(">"), Chars("="), Decimal(b)];
  }

  lemma Equals(env: Env, a: int, b: int)
    requires Keeps(env) && Fits(a) && Fits(b)
    ensures Gives(env, Words(a, "==", b), if a == b then 1 else 0) && Gives(env, Words(a, "!=", b), if a != b then 1 else 0)
  {
    hide Gives, Decimal, Chars;
    ReadDecimal(a);
    ReadDecimal(b);
    BinaryIs(env, EqEq, a, b);
    BinaryIs(env, NotEq, a, b);
    assert Between(a, EqEq, b) == Words(a, "==", b) && Between(a, NotEq, b) == Words(a, "!=", b);
  }

  // ---------------------------------------------------------------- shifts and bits

  lemma Shifts(env: Env, a: int, b: int) returns (q: int)
    requires Keeps(env) && Fits(a) && 0 <= b < 32
    ensures a >= 0 && Fits(a * Power2(b)) ==> Gives(env, Words(a, "<<", b), a * Power2(b))
    ensures Gives(env, Words(a, ">>", b), q) && q * Power2(b) <= a < (q + 1) * Power2(b)
  {
    hide Gives, Decimal, Chars;
    Computes(env, Shl, a, b);
    Computes(env, Shr, a, b);
    assert Between(a, Shl, b) == Words(a, "<<", b) && Between(a, Shr, b) == Words(a, ">>", b);
    q := a / Power2(b);
    Floor(a, Power2(b));
  }

  lemma Floor(a: int, n: nat)
    requires Fits(a) && n > 0
    ensures var q := a / n; q * n <= a < (q + 1) * n && Fits(q)
  {
    var q := a / n;
    assert a == q * n + a % n;
    if q > 0 {
      Grows(q, 1, n);
    } else if q < -1 {
      Grows(-1 - q, 1, n);
      assert (-1 - q) * n == -((q + 1) * n);
    }
  }

  /** Bit k of an integer in two's complement. */
  predicate BitOf(n: int, k: nat) {
    (n / Power2(k)) % 2 == 1
  }

  /** The three operators on bits, and the complement. */
  lemma CombinesBits(env: Env, a: int, b: int) returns (or: int, xor: int, and: int)
    requires Keeps(env) && Fits(a) && Fits(b)
    ensures Gives(env, Words(a, "|", b), or) && Gives(env, Words(a, "^", b), xor) && Gives(env, Words(a, "&", b), and)
    ensures Fits(or) && Fits(xor) && Fits(and)
    ensures forall k :: 0 <= k < 32 ==>
              && (BitOf(or, k) <==> BitOf(a, k) || BitOf(b, k))
              && (BitOf(xor, k) <==> BitOf(a, k) != BitOf(b, k))
              && (BitOf(and, k) <==> BitOf(a, k) && BitOf(b, k))
  {
    hide Gives, Decimal, Chars, BitOf, Bitwise, Wrap;
    Computes(env, BitOr, a, b);
    Computes(env, Xor, a, b);
    Computes(env, BitAnd, a, b);
    assert Between(a, BitOr, b) == Words(a, "|", b) && Between(a, Xor, b) == Words(a, "^", b);
    assert Between(a, BitAnd, b) == Words(a, "&", b);
    or, xor, and := Wrap(Bitwise(BitOr, a, b, 32)), Wrap(Bitwise(Xor, a, b, 32)), Wrap(Bitwise(BitAnd, a, b, 32));
    forall k | 0 <= k < 32
      ensures (BitOf(or, k) <==> BitOf(a, k) || BitOf(b, k)) && (BitOf(xor, k) <==> BitOf(a, k) != BitOf(b, k))
      ensures BitOf(and, k) <==> BitOf(a, k) && BitOf(b, k)
    {
      BitIs(BitOr, a, b, 32, k);
      BitIs(Xor, a, b, 32, k);
      BitIs(BitAnd, a, b, 32, k);
      WrapBit(Bitwise(BitOr, a, b, 32), k);
      WrapBit(Bitwise(Xor, a, b, 32), k);
      WrapBit(Bitwise(BitAnd, a, b, 32), k);
    }
  }

  lemma {:induction false} BitIs(op: Op, a: int, b: int, n: nat, k: nat)
    requires k < n
    ensures BitOf(Bitwise(op, a, b, n), k) <==> Bit(op, BitOf(a, k), BitOf(b, k)) == 1
    decreases n
  {
    var r := Bitwise(op, a, b, n);
    LowestBit(op, a, b, n);
    hide Bitwise, Bit, BitOf;
    if k == 0 {
      Lowest(a);
      Lowest(b);
      Lowest(r);
    } else {
      BitIs(op, a / 2, b / 2, n - 1, k - 1);
      Halve(a, k);
      Halve(b, k);
      Halve(r, k);
    }
  }

  lemma LowestBit(op: Op, a: int, b: int, n: nat)
    requires n > 0
    ensures var r := Bitwise(op, a, b, n);
            r / 2 == Bitwise(op, a / 2, b / 2, n - 1) && (r % 2 == 1 <==> Bit(op, a % 2 == 1, b % 2 == 1) == 1)
  {
    hide Bitwise;
    var d, r := Bit(op, a % 2 == 1, b % 2 == 1), Bitwise(op, a / 2, b / 2, n - 1);
    assert Bitwise(op, a, b, n) == d + 2 * r by {
      Unfolded(op, a, b, n);
    }
  }

  lemma Unfolded(op: Op, a: int, b: int, n: nat)
    requires n > 0
    ensures Bitwise(op, a, b, n) == Bit(op, a % 2 == 1, b % 2 == 1) + 2 * Bitwise(op, a / 2, b / 2, n - 1)
  {
  }

  lemma Lowest(n: int)
    ensures BitOf(n, 0) <==> n % 2 == 1
  {
  }

  lemma Halve(a: int, k: nat)
    requires k > 0
    ensures BitOf(a, k) == BitOf(a / 2, k - 1)
  {
    var n := Power2(k - 1);
    var q := a / 2 / n;
    assert a / 2 == q * n + a / 2 % n;
    assert a == q * (2 * n) + (2 * (a / 2 % n) + a % 2);
    assert 0 <= 2 * (a / 2 % n) + a % 2 < 2 * n;
    OnlyQuotient(a, 2 * n, q, 2 * (a / 2 % n) + a % 2);
  }

  /** Wrapping around keeps the bits. */
  lemma WrapBit(n: int, k: nat)
    requires k < 32
    ensures BitOf(Wrap(n), k) <==> BitOf(n, k)
  {
    hide Wrap, Power2;
    var d := Turns(n);
    PowerSplits(k);
    ManyTurns(n, d, Power2(31 - k), Power2(k));
  }

  lemma Turns(n: int) returns (d: int)
    ensures Wrap(n) == n + d * 0x1_0000_0000
  {
    d := (Wrap(n) - n) / 0x1_0000_0000;
  }

  lemma ManyTurns(n: int, d: int, h: nat, m: nat)
    requires m > 0 && 2 * h * m == 0x1_0000_0000
    ensures (n + d * 0x1_0000_0000) / m % 2 == n / m % 2
  {
    Regroup(d, h, m);
    assert n == n / m * m + n % m;
    Spread(n / m, 2 * (d * h), m);
    OnlyQuotient(n + d * 0x1_0000_0000, m, n / m + 2 * (d * h), n % m);
    EvenMore(n / m, d * h);
  }

  lemma EvenMore(a: int, b: int)
    ensures (a + 2 * b) % 2 == a % 2
  {
  }

  lemma Regroup(d: int, h: int, m: int)
    ensures d * (2 * h * m) == 2 * (d * h) * m
  {
    assert d * (2 * h * m) == d * (2 * (h * m)) == 2 * (d * (h * m));
    assert d * (h * m) == d * h * m;
  }

  lemma Spread(a: int, b: int, m: int)
    ensures (a + b) * m == a * m + b * m
  {
  }

  lemma {:induction false} PowerAdds(k: nat, n: nat)
    ensures Power2(k) * Power2(n) == Power2(k + n)
  {
    if k > 0 {
      PowerAdds(k - 1, n);
      assert 2 * Power2(k - 1) * Power2(n) == 2 * (Power2(k - 1) * Power2(n));
    }
  }

  lemma SmallPowers()
    ensures Power2(7) == 0x80 && Power2(8) == 0x100
  {
  }

  lemma PowerSplits(k: nat)
    requires k < 32
    ensures 2 * Power2(31 - k) * Power2(k) == 0x1_0000_0000
  {
    hide Power2;
    SmallPowers();
    PowerAdds(8, 8);
    PowerAdds(16, 8);
    PowerAdds(24, 7);
    PowerAdds(31 - k, k);
    assert 2 * Power2(31 - k) * Power2(k) == 2 * (Power2(31 - k) * Power2(k));
  }

  // ---------------------------------------------------------------- truth

  /** The value of the words that a tree prints as. */
  lemma TreeGives(env: Env, t: ExprTree.Tree, n: int)
    requires ExprTree.Canon(t, 0)
    requires var r := ExprTree.Eval(env, t, false, []);
             r.Ok? && Number(r.value.v) == Ok(n)
    ensures Gives(env, ExprTree.Print(t), n)
  {
    hide Exp, ExprTree.Eval, ExprTree.Canon, Egetn, ExprTree.Print;
    ExprTree.ExprEvaluates(env, t);
  }

  lemma PrintsOr(a: int, b: int)
    ensures ExprTree.Print(ExprTree.Bin(OrOr, ExprTree.Leaf(Decimal(a)), ExprTree.Leaf(Decimal(b)))) == Words(a, "||", b)
  {
    hide Decimal;
  }

  lemma DecidesOr(env: Env, a: int, b: int)
    requires Keeps(env) && Fits(a) && Fits(b)
    ensures Gives(env, Words(a, "||", b), if a != 0 || b != 0 then 1 else 0)
  {
    hide Decimal, Egetn, Chars, Gives, Exp;
    var l, r := ExprTree.Leaf(Decimal(a)), ExprTree.Leaf(Decimal(b));
    DecimalPlain(a);
    DecimalPlain(b);
    LeafIs(env, a, [], 1);
    LeafIs(env, b, [Glob(Decimal(a))], 0);
    NumberIs(b);
    assert [] + [Glob(Decimal(a))] == [Glob(Decimal(a))];
    TreeGives(env, ExprTree.Bin(OrOr, l, r), if a != 0 || b != 0 then 1 else 0);
    PrintsOr(a, b);
  }

  lemma PrintsAnd(a: int, b: int)
    ensures ExprTree.Print(ExprTree.Bin(AndAnd, ExprTree.Leaf(Decimal(a)), ExprTree.Leaf(Decimal(b)))) == Words(a, "&&", b)
  {
    hide Decimal;
  }

  lemma DecidesAnd(env: Env, a: int, b: int)
    requires Keeps(env) && Fits(a) && Fits(b)
    ensures Gives(env, Words(a, "&&", b), if a != 0 && b != 0 then 1 else 0)
  {
    hide Decimal, Egetn, Chars, Gives, Exp;
    var l, r := ExprTree.Leaf(Decimal(a)), ExprTree.Leaf(Decimal(b));
    DecimalPlain(a);
    DecimalPlain(b);
    LeafIs(env, a, [], 2);
    LeafIs(env, b, [Glob(Decimal(a))], 1);
    NumberIs(b);
    assert [] + [Glob(Decimal(a))] == [Glob(Decimal(a))];
    TreeGives(env, ExprTree.Bin(AndAnd, l, r), if a != 0 && b != 0 then 1 else 0);
    PrintsAnd(a, b);
  }

  lemma Negates(env: Env, a: int) returns (n: int)
    requires Keeps(env) && Fits(a)
    ensures Gives(env, [Chars("!"), Decimal(a)], if a == 0 then 1 else 0)
    ensures Gives(env, [Chars("~"), Decimal(a)], n) && forall k :: 0 <= k < 32 ==> (BitOf(n, k) <==> !BitOf(a, k))
    ensures Gives(env, [Chars("("), Decimal(a), Chars(")")], a)
  {
    hide Decimal, Egetn, Chars, Gives, Exp, BitOf;
    var l := ExprTree.Leaf(Decimal(a));
    n := -1 - a;
    DecimalPlain(a);
    LeafIs(env, a, [], 0);
    LeafIs(env, a, [], 10);
    NumberIs(a);
    NumberIs(n);
    NumberIs(if a == 0 then 1 else 0);
    TreeGives(env, ExprTree.Not(l), if a == 0 then 1 else 0);
    TreeGives(env, ExprTree.Compl(l), n);
    TreeGives(env, ExprTree.Group(l), a);
    assert ExprTree.Print(ExprTree.Not(l)) == [Chars("!"), Decimal(a)];
    assert ExprTree.Print(ExprTree.Compl(l)) == [Chars("~"), Decimal(a)];
    assert ExprTree.Print(ExprTree.Group(l)) == [Chars("("), Decimal(a), Chars(")")];
    forall k | 0 <= k < 32 ensures BitOf(n, k) <==> !BitOf(a, k) {
      FlippedBit(a, k);
    }
  }

  lemma FlippedBit(a: int, k: nat)
    ensures BitOf(-1 - a, k) <==> !BitOf(a, k)
  {
    hide Power2;
    var m := Power2(k);
    var q, r := a / m, a % m;
    assert a == q * m + r;
    Spread(-1, -q, m);
    OnlyQuotient(-1 - a, m, -1 - q, m - 1 - r);
  }

  /** A command in braces is true if it succeeds, a file test if it holds. */
  lemma AsksTheWorld(env: Env, command: seq<Word>, what: Word, file: Word)
    requires Keeps(env) && forall i :: 0 <= i < |command| ==> command[i] != Chars("}")
    requires IsTest(what) && |what| == 2 && !AnyOp(file)
    ensures Gives(env, [Chars("{")] + (command + [Chars("}")]), if env.answer([Run(command)]) == 0 then 1 else 0)
    ensures Gives(env, [what, file], if env.answer([Glob(file), Look(what[1], file)]) != 0 then 1 else 0)
  {
    hide Decimal, Egetn, Gives, Exp, Chars;
    NumberIs(0);
    NumberIs(1);
    assert [] + [Run(command)] == [Run(command)];
    TreeGives(env, ExprTree.Braces(command), if env.answer([Run(command)]) == 0 then 1 else 0);
    assert [] + Probes(file) == [] && [] + [Glob(file), Look(what[1], file)] == [Glob(file), Look(what[1], file)];
    assert env.glob([] + [Glob(file)]) == Some(file);
    TestIsNoOp(what);
    TreeGives(env, ExprTree.Test(what, file), if env.answer([Glob(file), Look(what[1], file)]) != 0 then 1 else 0);
  }

  lemma TestIsNoOp(w: Word)
    requires IsTest(w) && |w| == 2
    ensures !AnyOp(w)
  {
    if AnyOp(w) {
      OpStarts(w);
    }
  }

  // ---------------------------------------------------------------- grouping

  /** The rows of operators from the loosest to the tightest. */
  function Row(op: Op): nat {
    match op
    case OrOr => 1 case AndAnd => 2 case BitOr => 3 case Xor => 4 case BitAnd => 5
    case EqEq => 6 case NotEq => 6 case Match => 6 case NotMatch => 6
    case Rel(_, _) => 7 case Shl => 8 case Shr => 8 case Plus => 9 case Minus => 9
    case Times => 10 case Div => 10 case Mod => 10
  }

  /** Of two operators in a row of words the tighter one groups first, and of one row the right one. */
  lemma GroupsFirst(env: Env, a: int, o1: Op, b: int, o2: Op, c: int)
    requires Row(o1) != 6 || Row(o2) != 6
    ensures var x, y, z := ExprTree.Leaf(Decimal(a)), ExprTree.Leaf(Decimal(b)), ExprTree.Leaf(Decimal(c));
            var t := if Row(o1) > Row(o2) then ExprTree.Bin(o2, ExprTree.Bin(o1, x, y), z)
                     else ExprTree.Bin(o1, x, ExprTree.Bin(o2, y, z));
            var ws := [Decimal(a)] + ExprTree.Token(o1) + [Decimal(b)] + ExprTree.Token(o2) + [Decimal(c)];
            Exp(env, 0, ws, 0, Mode(false, false), [])
            == ExprTree.Expected(env, t, 0, Mode(false, false), [], |ws|)
  {
    hide Exp, ExprTree.Expected, ExprTree.Token, ExprTree.Canon, ExprTree.Print, Decimal;
    if Row(o1) > Row(o2) {
      LeftFirst(a, o1, b, o2, c);
      ExprTree.ExprEvaluates(env, ExprTree.Bin(o2, Two(a, o1, b), ExprTree.Leaf(Decimal(c))));
    } else {
      RightFirst(a, o1, b, o2, c);
      ExprTree.ExprEvaluates(env, ExprTree.Bin(o1, ExprTree.Leaf(Decimal(a)), Two(b, o2, c)));
    }
  }

  function Two(a: int, op: Op, b: int): ExprTree.Tree {
    ExprTree.Bin(op, ExprTree.Leaf(Decimal(a)), ExprTree.Leaf(Decimal(b)))
  }

  lemma TwoIsCanon(a: int, op: Op, b: int, level: nat)
    requires level <= Level(op)
    ensures ExprTree.Canon(Two(a, op, b), level) && ExprTree.Print(Two(a, op, b)) == Between(a, op, b)
    ensures !ExprTree.StartsEq(Two(a, op, b))
  {
    hide Decimal, Chars, ExprTree.Token;
    DecimalPlain(a);
    DecimalPlain(b);
    assert ExprTree.Print(Two(a, op, b)) == Between(a, op, b);
  }

  lemma LeftFirst(a: int, o1: Op, b: int, o2: Op, c: int)
    requires Row(o1) > Row(o2)
    ensures var t := ExprTree.Bin(o2, Two(a, o1, b), ExprTree.Leaf(Decimal(c)));
            && ExprTree.Canon(t, 0)
            && ExprTree.Print(t) == [Decimal(a)] + ExprTree.Token(o1) + [Decimal(b)] + ExprTree.Token(o2) + [Decimal(c)]
  {
    hide Decimal, Chars, ExprTree.Token, Two;
    DecimalPlain(c);
    TwoIsCanon(a, o1, b, Level(o2) + 1);
    assert Two(a, o1, b) != ExprTree.Absent by { TwoIsBin(a, o1, b); }
    var t1, t2 := ExprTree.Token(o1), ExprTree.Token(o2);
    assert Between(a, o1, b) + (t2 + [Decimal(c)]) == [Decimal(a)] + t1 + [Decimal(b)] + t2 + [Decimal(c)];
  }

  lemma RightFirst(a: int, o1: Op, b: int, o2: Op, c: int)
    requires Row(o1) <= Row(o2) && (Row(o1) != 6 || Row(o2) != 6)
    ensures var t := ExprTree.Bin(o1, ExprTree.Leaf(Decimal(a)), Two(b, o2, c));
            && ExprTree.Canon(t, 0)
            && ExprTree.Print(t) == [Decimal(a)] + ExprTree.Token(o1) + [Decimal(b)] + ExprTree.Token(o2) + [Decimal(c)]
  {
    hide Decimal, Chars, ExprTree.Token, Two;
    DecimalPlain(a);
    TwoIsCanon(b, o2, c, RightLevel(Level(o1)));
    var t1, t2 := ExprTree.Token(o1), ExprTree.Token(o2);
    assert [Decimal(a)] + (t1 + Between(b, o2, c)) == [Decimal(a)] + t1 + [Decimal(b)] + t2 + [Decimal(c)];
  }

  lemma TwoIsBin(a: int, op: Op, b: int)
    ensures Two(a, op, b).Bin?
  {
  }
}
