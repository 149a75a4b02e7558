/** What the operators of expr give for the arguments of a command: exact integer arithmetic, comparisons, the choice of
    an operand, lengths, matches and grouping, stated without the functions of the parser. */
module YaccLaws {
  import opened Common
  import opened Strings
  import opened YaccTables
  import opened YaccArith
  import opened YaccParse
  import opened YaccParser
  import Numbers

  // ---------------------------------------------------------------- commands of three words

  lemma Front(args: seq<Word>)
    requires args != [] && args[0] != DASHES
    ensures Stream(args) == Tokens(args)
  {
  }

  /** The value of a command that has a derivation. */
  lemma Derived(env: Env, args: seq<Word>, t: Tree)
    requires args != [] && args[0] != DASHES && Canon(t) && Leaves(t) == Tokens(args)
    ensures Evaluate(env, args) == Value(Actions(env), t)
  {
    hide Canon, Leaves, Value, Stream, Evaluate, Tokens;
    Front(args);
    EvaluatesDerivations(env, args);
  }

  function Leaf(w: Word): Tree {
    Item(Tok(STRING, w))
  }

  /** An operator between two trees that are tight enough. */
  lemma TwoCanon(l: Tree, op: Tok, r: Tree)
    requires Canon(l) && Canon(r) && IsOp(op.kind) && Rank(l) >= Prec(op.kind) && Rank(r) > Prec(op.kind)
    ensures Canon(Binary(l, op, r)) && Rank(Binary(l, op, r)) == Prec(op.kind)
    ensures Leaves(Binary(l, op, r)) == Leaves(l) + [op] + Leaves(r)
  {
  }

  lemma LeafCanon(w: Word)
    ensures Canon(Leaf(w)) && Rank(Leaf(w)) == 7 && Leaves(Leaf(w)) == [Tok(STRING, w)] && Primary(Leaf(w))
  {
  }

  /** An operator between two strings. */
  lemma Three(env: Env, l: Word, op: Word, r: Word)
    requires Kind(l) == STRING && Kind(r) == STRING && l != DASHES && IsOp(Kind(op))
    ensures Evaluate(env, [l, op, r]) == Act(env, Kind(op), l, op, r)
  {
    hide Kind, Act, Stream;
    Front([l, op, r]);
    var t := Binary(Item(Tok(STRING, l)), Tok(Kind(op), op), Item(Tok(STRING, r)));
    assert Leaves(t) == Tokens([l, op, r]);
    assert Canon(t);
    EvaluatesDerivations(env, [l, op, r]);
    assert Evaluate(env, [l, op, r]) == Value(Actions(env), t);
    var ops := Actions(env);
    assert Value(ops, t.left) == Ok(l) && Value(ops, t.right) == Ok(r);
    assert Value(ops, t) == ops(Kind(op), l, op, r);
  }

  lemma DecimalIsString(n: int)
    ensures Kind(Numbers.Decimal(n)) == STRING && Numbers.Decimal(n) != DASHES
  {
    var w := Numbers.Decimal(n);
    DashesAre();
    assert w[0] == DASH || Numbers.IsDigit(w[0]);
    assert |w| > 1 ==> Numbers.IsDigit(w[1]);
    assert w != [DASH];
    assert Chars("length")[0] == 'l' as int;
  }

  lemma KindsAre()
    ensures Kind(Chars("|")) == OR && Kind(Chars("&")) == AND && Kind(Chars(":")) == REG
    ensures Kind(Chars("+")) == ADD && Kind(Chars("-")) == ADD
    ensures Kind(Chars("*")) == MUL && Kind(Chars("/")) == MUL && Kind(Chars("%")) == MUL
    ensures Kind(Chars("=")) == COMPARE && Kind(Chars("<")) == COMPARE && Kind(Chars(">")) == COMPARE
    ensures Kind(Chars("<=")) == COMPARE && Kind(Chars(">=")) == COMPARE && Kind(Chars("!=")) == COMPARE
  {
  }

  // ---------------------------------------------------------------- arithmetic

  function Words(a: int, op: string, b: int): seq<Word>
    requires forall i :: 0 <= i < |op| ==> 0 < op[i] as int < 0x80
  {
    [Numbers.Decimal(a), Chars(op), Numbers.Decimal(b)]
  }

  lemma ArithIs(env: Env, a: int, op: Word, b: int)
    requires Fits(a) && Fits(b) && (Kind(op) == ADD || Kind(op) == MUL)
    ensures Evaluate(env, [Numbers.Decimal(a), op, Numbers.Decimal(b)])
            == (if Divides(At(op, 0)) && b == 0 then Err(ByZero(op))
                else if Fits(Compute(At(op, 0), a, b)) && (At(op, 0) == '%' as int ==> Fits(Numbers.Quotient(a, b))) then
                  Ok(Numbers.Decimal(Compute(At(op, 0), a, b)))
                else Err(Overflow(Numbers.Decimal(a), op, Numbers.Decimal(b))))
  {
    hide Numbers.Decimal, Numbers.Quotient, Scan, Kind, Evaluate;
    DecimalIsString(a);
    DecimalIsString(b);
    ReadsPrinted(a);
    ReadsPrinted(b);
    Three(env, Numbers.Decimal(a), op, Numbers.Decimal(b));
  }

  /** The exact result where 64 bits can hold it, otherwise an error. */
  ghost predicate GivesExactly(env: Env, ws: seq<Word>, n: int) {
    |ws| == 3 && Evaluate(env, ws) == if Fits(n) then Ok(Numbers.Decimal(n)) else Err(Overflow(ws[0], ws[1], ws[2]))
  }

  lemma Computes(env: Env, a: int, b: int)
    requires Fits(a) && Fits(b)
    ensures GivesExactly(env, Words(a, "+", b), a + b)
    ensures GivesExactly(env, Words(a, "-", b), a - b)
    ensures GivesExactly(env, Words(a, "*", b), a * b)
  {
    hide Numbers.Decimal, Kind, Evaluate;
    KindsAre();
    ArithIs(env, a, Chars("+"), b);
    ArithIs(env, a, Chars("-"), b);
    ArithIs(env, a, Chars("*"), b);
  }

  /** Division cuts off towards zero: dividend, quotient and remainder agree, and the remainder is smaller than the
      divisor and has the sign of the dividend. */
  lemma DividesExactly(env: Env, a: int, b: int) returns (q: int, m: int)
    requires Fits(a) && Fits(b) && b != 0
    ensures GivesExactly(env, Words(a, "/", b), q)
    ensures Fits(q) ==> GivesExactly(env, Words(a, "%", b), m)
    ensures a == q * b + m && (if b < 0 then b < m < -b else -b < m < b) && (m == 0 || (m < 0 <==> a < 0))
  {
    hide Numbers.Decimal, Numbers.Quotient, Kind, Evaluate;
    q, m := Numbers.Quotient(a, b), a - b * Numbers.Quotient(a, b);
    Numbers.QuotientCutsOff(a, b);
    KindsAre();
    ArithIs(env, a, Chars("/"), b);
    ArithIs(env, a, Chars("%"), b);
  }

  lemma RefusesZero(env: Env, a: int)
    requires Fits(a)
    ensures Evaluate(env, Words(a, "/", 0)) == Err(ByZero(Chars("/"))) && Evaluate(env, Words(a, "%", 0)) == Err(ByZero(Chars("%")))
  {
    hide Numbers.Decimal, Numbers.Quotient, Kind, Evaluate;
    KindsAre();
    ArithIs(env, a, Chars("/"), 0);
    ArithIs(env, a, Chars("%"), 0);
  }

  // ---------------------------------------------------------------- comparison and choice

  function Truth(b: bool): Result<Word, Failure> {
    Ok(if b then ['1' as int] else ['0' as int])
  }

  lemma Compares(env: Env, a: int, b: int)
    requires Fits(a) && Fits(b)
    ensures Evaluate(env, Words(a, "=", b)) == Truth(a == b) && Evaluate(env, Words(a, "!=", b)) == Truth(a != b)
    ensures Evaluate(env, Words(a, "<", b)) == Truth(a < b) && Evaluate(env, Words(a, "<=", b)) == Truth(a <= b)
    ensures Evaluate(env, Words(a, ">", b)) == Truth(a > b) && Evaluate(env, Words(a, ">=", b)) == Truth(a >= b)
  {
    hide Numbers.Decimal, Kind, Evaluate, Scan, Chars;
    CompareWords(env, a, b);
    Signs();
  }

  lemma CompareWords(env: Env, a: int, b: int)
    requires Fits(a) && Fits(b)
    ensures forall op: Word :: Kind(op) == COMPARE ==>
              Evaluate(env, [Numbers.Decimal(a), op, Numbers.Decimal(b)]) == Truth(Holds(op, a, b))
    ensures Kind(Chars("=")) == Kind(Chars("!=")) == Kind(Chars("<")) == Kind(Chars("<=")) == Kind(Chars(">"))
            == Kind(Chars(">=")) == COMPARE
  {
    hide Numbers.Decimal, Kind, Evaluate, Scan;
    KindsAre();
    DecimalIsString(a);
    DecimalIsString(b);
    ReadsPrinted(a);
    ReadsPrinted(b);
    forall op: Word | Kind(op) == COMPARE
      ensures Evaluate(env, [Numbers.Decimal(a), op, Numbers.Decimal(b)]) == Truth(Holds(op, a, b))
    {
      Three(env, Numbers.Decimal(a), op, Numbers.Decimal(b));
    }
  }

  /** Words of which one is no integer are compared in the collating order. */
  lemma ComparesStrings(env: Env, l: Word, r: Word)
    requires Kind(l) == STRING && Kind(r) == STRING && l != DASHES && !(IsInteger(l) && IsInteger(r))
    ensures var c := env.collate(l, r);
            && Evaluate(env, [l, Chars("="), r]) == Truth(c == 0) && Evaluate(env, [l, Chars("!="), r]) == Truth(c != 0)
            && Evaluate(env, [l, Chars("<"), r]) == Truth(c < 0) && Evaluate(env, [l, Chars("<="), r]) == Truth(c <= 0)
            && Evaluate(env, [l, Chars(">"), r]) == Truth(c > 0) && Evaluate(env, [l, Chars(">="), r]) == Truth(c >= 0)
  {
    hide Kind, Evaluate, Chars, IsInteger;
    KindsAre();
    Signs();
    Three(env, l, Chars("="), r);
    Three(env, l, Chars("!="), r);
    Three(env, l, Chars("<"), r);
    Three(env, l, Chars("<="), r);
    Three(env, l, Chars(">"), r);
    Three(env, l, Chars(">="), r);
  }

  /** Arithmetic refuses a word that is no integer, the left one first. */
  lemma RefusesWords(env: Env, l: Word, r: Word, op: Word)
    requires Kind(l) == STRING && Kind(r) == STRING && l != DASHES && (Kind(op) == ADD || Kind(op) == MUL)
    ensures !IsInteger(l) ==> Evaluate(env, [l, op, r]) == Err(NonInteger(l))
    ensures IsInteger(l) && !IsInteger(r) ==> Evaluate(env, [l, op, r]) == Err(NonInteger(r))
  {
    hide Kind, Evaluate, IsInteger, Exact;
    Three(env, l, op, r);
  }

  /** Blanks, a sign and digits are an integer, as long as nothing stands behind them. */
  lemma Spells(sp: Word, sign: Word, ds: Word, rest: Word)
    requires (forall c <- sp :: IsSpace(c)) && (sign == [] || sign == ['+' as int] || sign == [DASH])
    requires ds != [] && Numbers.AllDigits(ds) && (rest == [] || (!Numbers.IsDigit(rest[0]) && rest[0] != EOS))
    ensures var w := sp + sign + ds + rest;
            Exact(w) == (if sign == [DASH] then -Numbers.Sum(ds) else Numbers.Sum(ds)) && (IsInteger(w) <==> rest == [])
  {
    var w, p := sp + sign + ds + rest, sp + sign;
    assert w == p + ds + rest && forall i :: 0 <= i < |sp| ==> w[i] == sp[i];
    assert w[|p|] == ds[0] && (sign != [] ==> w[|sp|] == sign[0]) && (rest != [] ==> w[|p| + |ds|] == rest[0]);
    BlanksEnd(w, 0, |sp|);
    assert ds[..0] == [];
    Numbers.ValueIsSum(p, ds, 0, rest);
  }

  lemma {:induction false} BlanksEnd(w: Word, i: nat, n: nat)
    requires i <= n < |w| && (forall k :: i <= k < n ==> IsSpace(w[k])) && !IsSpace(w[n])
    ensures Blanks(w, i) == n
    decreases n - i
  {
    if i < n {
      BlanksEnd(w, i + 1, n);
    }
  }

  /** The empty word counts as 0; what starts with neither blanks, a sign nor a digit is no integer. */
  lemma NoInteger(w: Word)
    requires w == [] || (!IsSpace(w[0]) && !IsSign(w[0]) && !Numbers.IsDigit(w[0]) && w[0] != EOS)
    ensures if w == [] then IsInteger(w) && Exact(w) == 0 else !IsInteger(w)
  {
  }

  lemma Signs()
    ensures Chars("=") == ['=' as int] && Chars("!=") == ['!' as int, '=' as int]
    ensures Chars("<") == ['<' as int] && Chars("<=") == ['<' as int, '=' as int]
    ensures Chars(">") == ['>' as int] && Chars(">=") == ['>' as int, '=' as int]
  {
  }

  /** A word counts as false if it is empty or an integer that is 0. */
  predicate False(w: Word) {
    w == [] || (IsInteger(w) && Exact(w) == 0)
  }

  /** `|` gives the first operand that counts as true, or the second; `&` the first if both do, otherwise 0. */
  lemma Chooses(env: Env, l: Word, r: Word)
    requires Kind(l) == STRING && Kind(r) == STRING && l != DASHES
    ensures Evaluate(env, [l, Chars("|"), r]) == Ok(if False(l) then r else l)
    ensures Evaluate(env, [l, Chars("&"), r]) == Ok(if False(l) || False(r) then ['0' as int] else l)
  {
    hide Kind, Evaluate, Scan;
    KindsAre();
    Three(env, l, Chars("|"), r);
    Three(env, l, Chars("&"), r);
  }

  /** 0 counts as false, other integers as true, and so do words that are no integers. */
  lemma FalseIs(n: int, w: Word)
    ensures False(Numbers.Decimal(n)) <==> n == 0
    ensures w != [] && !IsInteger(w) ==> !False(w)
  {
    hide Scan, Numbers.Decimal;
    ReadsPrinted(n);
    assert Numbers.Decimal(n) != [] by { Nonempty(n); }
  }

  lemma Nonempty(n: int)
    ensures Numbers.Decimal(n) != []
  {
  }

  // ---------------------------------------------------------------- matches, lengths, grouping

  /** A match that starts at the front gives its group, or its length; any other, and none, gives 0 or nothing. */
  lemma Matches(env: Env, l: Word, r: Word)
    requires Kind(l) == STRING && Kind(r) == STRING && l != DASHES
    ensures Evaluate(env, [l, Chars(":"), r]) ==
            match env.regex(l, r)
            case Refused => Err(BadPattern)
            case Missed(groups) => Ok(if groups == 0 then ['0' as int] else [])
            case Found(start, length, groups, group) =>
              if start > 0 then Ok(if groups == 0 then ['0' as int] else [])
              else if group.Some? then Ok(group.value) else Ok(Numbers.Decimal(length))
  {
    hide Kind, Evaluate;
    KindsAre();
    Three(env, l, Chars(":"), r);
  }

  lemma Measures(env: Env, w: Word)
    requires Kind(w) == STRING
    ensures Evaluate(env, [Chars("length"), w]) == Ok(Numbers.Decimal(|w|))
  {
    var word := Chars("length");
    DashesAre();
    assert |word| == 6 && Kind(word) == LENGTH;
    hide Kind, Chars, Evaluate, Canon, Leaf;
    LeafCanon(w);
    var t := Length(Tok(LENGTH, word), Leaf(w));
    assert Leaves(t) == [Tok(LENGTH, word), Tok(STRING, w)] == Tokens([word, w]);
    assert Canon(t) by { LengthCanon(Tok(LENGTH, word), Leaf(w)); }
    Derived(env, [word, w], t);
    assert Value(Actions(env), Leaf(w)) == Ok(w) by { LeafValue(env, w); }
  }

  lemma LengthCanon(tok: Tok, t: Tree)
    requires tok.kind == LENGTH && Canon(t) && Primary(t)
    ensures Canon(Length(tok, t))
  {
  }

  lemma ParenCanon(open: Tok, t: Tree, close: Tok)
    requires open.kind == LEFT && Canon(t) && close.kind == RIGHT
    ensures Canon(Paren(open, t, close))
  {
  }

  lemma LeafValue(env: Env, w: Word)
    ensures Value(Actions(env), Leaf(w)) == Ok(w)
  {
  }

  lemma Groups(env: Env, w: Word)
    requires Kind(w) == STRING
    ensures Evaluate(env, [Chars("("), w, Chars(")")]) == Ok(w)
  {
    var open, close := Chars("("), Chars(")");
    DashesAre();
    assert |open| == 1 && |close| == 1 && open[0] == '(' as int && close[0] == ')' as int;
    assert Kind(open) == LEFT && Kind(close) == RIGHT;
    hide Kind, Chars, Evaluate, Canon, Leaf;
    LeafCanon(w);
    var u := Paren(Tok(LEFT, open), Leaf(w), Tok(RIGHT, close));
    assert Leaves(u) == [Tok(LEFT, open), Tok(STRING, w), Tok(RIGHT, close)] == Tokens([open, w, close]);
    ParenCanon(Tok(LEFT, open), Leaf(w), Tok(RIGHT, close));
    Derived(env, [open, w, close], u);
    assert Value(Actions(env), Leaf(w)) == Ok(w) by { LeafValue(env, w); }
  }

  /** The rows of operators from the loosest to the tightest. */
  function Row(op: Word): nat {
    if op == Chars("|") then 1 else if op == Chars("&") then 2 else if IsCompare(op) then 3
    else if op == Chars("+") || op == Chars("-") then 4
    else if op == Chars("*") || op == Chars("/") || op == Chars("%") then 5 else if op == Chars(":") then 6 else 0
  }

  lemma RowIs(op: Word)
    requires Row(op) > 0
    ensures IsOp(Kind(op)) && Prec(Kind(op)) == Row(op)
  {
    hide Kind;
    KindsAre();
    if IsCompare(op) {
      CompareKind(op);
    }
  }

  lemma CompareKind(op: Word)
    requires IsCompare(op)
    ensures Kind(op) == COMPARE
  {
  }

  /** Of two operators the tighter one groups first, and of one row the left one. */
  lemma GroupsFirst(env: Env, a: Word, o1: Word, b: Word, o2: Word, c: Word)
    requires Kind(a) == Kind(b) == Kind(c) == STRING && a != DASHES && Row(o1) > 0 && Row(o2) > 0
    ensures var p, q := Tok(Kind(o1), o1), Tok(Kind(o2), o2);
            var t := if Row(o1) >= Row(o2) then Binary(Binary(Leaf(a), p, Leaf(b)), q, Leaf(c))
                     else Binary(Leaf(a), p, Binary(Leaf(b), q, Leaf(c)));
            Evaluate(env, [a, o1, b, o2, c]) == Value(Actions(env), t)
  {
    hide Kind, Evaluate, Row, Stream, Value, Canon, Leaves, Rank, Leaf;
    RowIs(o1);
    RowIs(o2);
    LeafCanon(a);
    LeafCanon(b);
    LeafCanon(c);
    var x, y, z, p, q := Leaf(a), Leaf(b), Leaf(c), Tok(Kind(o1), o1), Tok(Kind(o2), o2);
    TwoCanon(x, p, y);
    TwoCanon(y, q, z);
    var args := [a, o1, b, o2, c];
    var toks := [Tok(STRING, a), p, Tok(STRING, b), q, Tok(STRING, c)];
    assert Tokens(args) == toks;
    if Row(o1) >= Row(o2) {
      TwoCanon(Binary(x, p, y), q, z);
      assert Leaves(Binary(Binary(x, p, y), q, z)) == toks;
      Derived(env, args, Binary(Binary(x, p, y), q, z));
    } else {
      TwoCanon(x, p, Binary(y, q, z));
      assert Leaves(Binary(x, p, Binary(y, q, z))) == toks;
      Derived(env, args, Binary(x, p, Binary(y, q, z)));
    }
  }
}
