/** The parser of expr (y.tab.c): what its shift and reduce steps do to a stack of open constructs, the derivation
    trees it accepts, and the values it gives them. */
module YaccParse {
  import opened Common
  import opened Strings
  import opened YaccTables
  import opened YaccArith
  import Numbers

  datatype Tok = Tok(kind: int, text: Word)

  /** A derivation by the rules of the grammar: rules 11 to 18, 10, 9, and 3 to 8. */
  datatype Tree = Item(tok: Tok) | Length(tok: Tok, operand: Tree) | Paren(open: Tok, inner: Tree, close: Tok)
                | Binary(left: Tree, op: Tok, right: Tree)

  /** What an operator of a kind, with its text between them, makes of two values. */
  type Operators = (int, Word, Word, Word) -> Result<Word, Failure>

  function Leaves(t: Tree): seq<Tok> {
    match t
    case Item(tok) => [tok]
    case Length(tok, operand) => [tok] + Leaves(operand)
    case Paren(open, inner, close) => [open] + Leaves(inner) + [close]
    case Binary(left, op, right) => Leaves(left) + [op] + Leaves(right)
  }

  /** How tightly the outermost construct binds. */
  function Rank(t: Tree): int {
    if t.Binary? then Prec(t.op.kind) else 7
  }

  /** What LENGTH applies to. */
  predicate Primary(t: Tree) {
    match t case Item(tok) => tok.kind == STRING || tok.kind == LENGTH case Binary(_, _, _) => false case _ => true
  }

  /** Derivations that respect precedence and group operators of one precedence from the left. Every operator is
      also an operand where one is expected. */
  predicate Canon(t: Tree) {
    match t
    case Item(tok) => STRING <= tok.kind <= LENGTH
    case Length(tok, operand) => tok.kind == LENGTH && Canon(operand) && Primary(operand)
    case Paren(open, inner, close) => open.kind == LEFT && Canon(inner) && close.kind == RIGHT
    case Binary(left, op, right) =>
      IsOp(op.kind) && Canon(left) && Canon(right) && Rank(left) >= Prec(op.kind) && Rank(right) > Prec(op.kind)
  }

  /** The value of a derivation, or the first error from the left. */
  function Value(ops: Operators, t: Tree): Result<Word, Failure> {
    match t
    case Item(tok) => Ok(tok.text)
    case Length(_, operand) => var w :- Value(ops, operand); Ok(Numbers.Decimal(|w|))
    case Paren(_, inner, _) => Value(ops, inner)
    case Binary(left, op, right) =>
      var l :- Value(ops, left);
      var r :- Value(ops, right);
      ops(op.kind, l, op.text, r)
  }

  // ---------------------------------------------------------------- shift and reduce

  /** The constructs that are open, from the innermost. */
  datatype Context = Start
                   | InLength(below: Context, tok: Tok)
                   | InParen(below: Context, open: Tok)
                   | InBinary(below: Context, left: Tree, op: Tok)

  function Head(toks: seq<Tok>): int {
    if toks == [] then EOF else toks[0].kind
  }

  /** A token that starts what LENGTH applies to. */
  predicate Opens(c: int) {
    c == STRING || c == LENGTH || c == LEFT
  }

  /** The precedence that an operator has to exceed. */
  function Floor(ctx: Context): int {
    match ctx case InLength(_, _) => 6 case InBinary(_, _, op) => Prec(op.kind) case _ => 0
  }

  /** Parsing where an operand is expected. */
  function Wait(ops: Operators, ctx: Context, toks: seq<Tok>): Result<Tree, Failure>
    decreases |toks|, ctx
  {
    var c := Head(toks);
    if ctx.InLength? && !Opens(c) then Have(ops, ctx.below, Item(ctx.tok), toks)
    else if toks == [] then Err(Syntax)
    else if c == LENGTH then Wait(ops, InLength(ctx, toks[0]), toks[1..])
    else if c == LEFT then Wait(ops, InParen(ctx, toks[0]), toks[1..])
    else if STRING <= c < LENGTH then Have(ops, ctx, Item(toks[0]), toks[1..])
    else Err(Syntax)
  }

  /** Parsing behind an expression: an operator above the floor is shifted, otherwise what is open is closed. */
  function Have(ops: Operators, ctx: Context, t: Tree, toks: seq<Tok>): Result<Tree, Failure>
    decreases |toks|, ctx
  {
    var c := Head(toks);
    if ctx.InLength? then Have(ops, ctx.below, Length(ctx.tok, t), toks)
    else if toks != [] && IsOp(c) && Prec(c) > Floor(ctx) then Wait(ops, InBinary(ctx, t, toks[0]), toks[1..])
    else if ctx.Start? then if toks == [] then Ok(t) else Err(Syntax)
    else if ctx.InParen? then
      if toks != [] && c == RIGHT then Have(ops, ctx.below, Paren(ctx.open, t, toks[0]), toks[1..]) else Err(Syntax)
    else if ctx.op.kind == REG || IsOp(c) || c == EOF || c == RIGHT then
      var b := Binary(ctx.left, ctx.op, t);
      var _ :- Value(ops, b);
      Have(ops, ctx.below, b, toks)
    else Err(Syntax)
  }

  function Parse(ops: Operators, toks: seq<Tok>): Result<Tree, Failure> {
    Wait(ops, Start, toks)
  }

  // ---------------------------------------------------------------- what is accepted is a derivation

  function Opened(ctx: Context): seq<Tok> {
    match ctx
    case Start => []
    case InLength(below, tok) => Opened(below) + [tok]
    case InParen(below, open) => Opened(below) + [open]
    case InBinary(below, left, op) => Opened(below) + Leaves(left) + [op]
  }

  /** Contexts that can become canonical derivations of values. */
  predicate Fine(ops: Operators, ctx: Context) {
    match ctx
    case Start => true
    case InLength(below, tok) => Fine(ops, below) && tok.kind == LENGTH
    case InParen(below, open) => Fine(ops, below) && open.kind == LEFT
    case InBinary(below, left, op) =>
      && Fine(ops, below) && IsOp(op.kind) && !below.InLength? && Floor(below) < Prec(op.kind)
      && Canon(left) && Rank(left) >= Prec(op.kind) && Value(ops, left).Ok?
  }

  /** A derivation that may stand in a context, in front of a token. */
  predicate Suits(ops: Operators, ctx: Context, t: Tree, c: int) {
    && Canon(t) && Value(ops, t).Ok? && Rank(t) > Floor(ctx)
    && (IsOp(c) ==> Rank(t) >= Prec(c)) && (ctx.InLength? ==> Primary(t))
  }

  /** The tree that is accepted has every token as a leaf, in order. */
  lemma {:induction false} WaitLeaves(ops: Operators, ctx: Context, toks: seq<Tok>)
    requires Wait(ops, ctx, toks).Ok?
    ensures Leaves(Wait(ops, ctx, toks).value) == Opened(ctx) + toks
    decreases |toks|, ctx
  {
    hide Value, Floor;
    var c := Head(toks);
    if ctx.InLength? && !Opens(c) {
      HaveLeaves(ops, ctx.below, Item(ctx.tok), toks);
    } else {
      assert toks == [toks[0]] + toks[1..];
      if c == LENGTH {
        WaitLeaves(ops, InLength(ctx, toks[0]), toks[1..]);
      } else if c == LEFT {
        WaitLeaves(ops, InParen(ctx, toks[0]), toks[1..]);
      } else {
        HaveLeaves(ops, ctx, Item(toks[0]), toks[1..]);
      }
    }
  }

  lemma {:induction false} HaveLeaves(ops: Operators, ctx: Context, t: Tree, toks: seq<Tok>)
    requires Have(ops, ctx, t, toks).Ok?
    ensures Leaves(Have(ops, ctx, t, toks).value) == Opened(ctx) + Leaves(t) + toks
    decreases |toks|, ctx
  {
    hide Value, Floor;
    var c := Head(toks);
    if ctx.InLength? {
      HaveLeaves(ops, ctx.below, Length(ctx.tok, t), toks);
      Regroup(Opened(ctx.below), [ctx.tok], Leaves(t), toks);
    } else if toks != [] && IsOp(c) && Prec(c) > Floor(ctx) {
      assert toks == [toks[0]] + toks[1..];
      WaitLeaves(ops, InBinary(ctx, t, toks[0]), toks[1..]);
      assert Opened(ctx) + Leaves(t) + [toks[0]] + toks[1..] == Opened(ctx) + Leaves(t) + toks;
    } else if ctx.InParen? {
      assert toks == [toks[0]] + toks[1..];
      HaveLeaves(ops, ctx.below, Paren(ctx.open, t, toks[0]), toks[1..]);
      Regroup(Opened(ctx.below), [ctx.open], Leaves(t), [toks[0]]);
      Regroup(Opened(ctx.below), [ctx.open] + Leaves(t), [toks[0]], toks[1..]);
      assert Opened(ctx) + Leaves(t) + [toks[0]] + toks[1..] == Opened(ctx) + Leaves(t) + toks;
    } else if ctx.InBinary? {
      HaveLeaves(ops, ctx.below, Binary(ctx.left, ctx.op, t), toks);
      Regroup(Opened(ctx.below), Leaves(ctx.left) + [ctx.op], Leaves(t), toks);
      assert Opened(ctx.below) + (Leaves(ctx.left) + [ctx.op]) == Opened(ctx);
    }
  }

  lemma Regroup(a: seq<Tok>, b: seq<Tok>, c: seq<Tok>, d: seq<Tok>)
    ensures a + (b + c) + d == (a + b) + c + d
    ensures a + (b + c + d) == (a + b) + c + d
  {
  }

  /** The tree that is accepted is canonical and has a value. */
  lemma {:induction false} WaitSound(ops: Operators, ctx: Context, toks: seq<Tok>)
    requires Fine(ops, ctx) && Wait(ops, ctx, toks).Ok?
    ensures Canon(Wait(ops, ctx, toks).value) && Value(ops, Wait(ops, ctx, toks).value).Ok?
    decreases |toks|, ctx
  {
    var c := Head(toks);
    if ctx.InLength? && !Opens(c) {
      HaveSound(ops, ctx.below, Item(ctx.tok), toks);
    } else if c == LENGTH {
      WaitSound(ops, InLength(ctx, toks[0]), toks[1..]);
    } else if c == LEFT {
      WaitSound(ops, InParen(ctx, toks[0]), toks[1..]);
    } else {
      HaveSound(ops, ctx, Item(toks[0]), toks[1..]);
    }
  }

  lemma {:induction false} HaveSound(ops: Operators, ctx: Context, t: Tree, toks: seq<Tok>)
    requires Fine(ops, ctx) && Suits(ops, ctx, t, Head(toks)) && Have(ops, ctx, t, toks).Ok?
    ensures Canon(Have(ops, ctx, t, toks).value) && Value(ops, Have(ops, ctx, t, toks).value).Ok?
    decreases |toks|, ctx
  {
    var c := Head(toks);
    if ctx.InLength? {
      HaveSound(ops, ctx.below, Length(ctx.tok, t), toks);
    } else if toks != [] && IsOp(c) && Prec(c) > Floor(ctx) {
      WaitSound(ops, InBinary(ctx, t, toks[0]), toks[1..]);
    } else if ctx.InParen? {
      HaveSound(ops, ctx.below, Paren(ctx.open, t, toks[0]), toks[1..]);
    } else if ctx.InBinary? {
      HaveSound(ops, ctx.below, Binary(ctx.left, ctx.op, t), toks);
    }
  }

  // ---------------------------------------------------------------- every derivation is found

  /** Going on with a derivation, or with its error. */
  function Onward(ops: Operators, ctx: Context, t: Tree, toks: seq<Tok>): Result<Tree, Failure> {
    match Value(ops, t) case Ok(_) => Have(ops, ctx, t, toks) case Err(e) => Err(e)
  }

  lemma {:induction false} LeavesOpen(t: Tree)
    requires Canon(t)
    ensures Rank(t) > 0 && Leaves(t) != [] && (Primary(t) ==> Opens(Leaves(t)[0].kind))
  {
  }

  /** What may follow a derivation that stands alone: nothing, a parenthesis, or an operator that is not tighter. */
  predicate Ends(t: Tree, rest: seq<Tok>) {
    rest == [] || Head(rest) == RIGHT || (IsOp(Head(rest)) && Prec(Head(rest)) <= Rank(t))
  }

  predicate Stands(ctx: Context, t: Tree) {
    Canon(t) && Rank(t) > Floor(ctx) && (ctx.InLength? ==> Primary(t))
  }

  /** An operator above the floor is shifted, and its right operand ends it. */
  lemma Closes(ops: Operators, ctx: Context, left: Tree, op: Tok, right: Tree, toks: seq<Tok>, rest: seq<Tok>)
    requires var b := Binary(left, op, right); Stands(ctx, b) && Ends(b, rest)
    requires Value(ops, left).Ok?
    ensures Have(ops, ctx, left, [op] + toks) == Wait(ops, InBinary(ctx, left, op), toks)
    ensures Onward(ops, InBinary(ctx, left, op), right, rest) == Onward(ops, ctx, Binary(left, op, right), rest)
  {
    assert ([op] + toks)[1..] == toks;
  }

  /** Where an operand is expected, the parser reads a canonical derivation that fits there as a whole. */
  lemma {:induction false} Complete(ops: Operators, ctx: Context, t: Tree, rest: seq<Tok>)
    requires Stands(ctx, t) && Ends(t, rest)
    ensures Wait(ops, ctx, Leaves(t) + rest) == Onward(ops, ctx, t, rest)
    decreases t
  {
    hide Have;
    var toks := Leaves(t) + rest;
    LeavesOpen(t);
    match t
    case Item(tok) =>
      assert toks[1..] == rest;
    case Length(tok, operand) =>
      LeavesOpen(operand);
      assert toks[1..] == Leaves(operand) + rest;
      Complete(ops, InLength(ctx, tok), operand, rest);
      Unwinds(ops, ctx, t, rest);
    case Paren(open, inner, close) =>
      LeavesOpen(inner);
      assert toks[1..] == Leaves(inner) + ([close] + rest);
      Complete(ops, InParen(ctx, open), inner, [close] + rest);
      Unwinds(ops, ctx, t, rest);
    case Binary(left, op, right) =>
      var more := Leaves(right) + rest;
      assert toks == Leaves(left) + ([op] + more);
      Complete(ops, ctx, left, [op] + more);
      if Value(ops, left).Ok? {
        Closes(ops, ctx, left, op, right, more, rest);
        Complete(ops, InBinary(ctx, left, op), right, rest);
      }
  }

  /** LENGTH and parentheses close behind what is inside. */
  lemma Unwinds(ops: Operators, ctx: Context, t: Tree, rest: seq<Tok>)
    requires Canon(t) && (t.Length? || t.Paren?)
    ensures t.Length? ==> Onward(ops, InLength(ctx, t.tok), t.operand, rest) == Onward(ops, ctx, t, rest)
    ensures t.Paren? ==> Onward(ops, InParen(ctx, t.open), t.inner, [t.close] + rest) == Onward(ops, ctx, t, rest)
  {
    if t.Paren? {
      assert ([t.close] + rest)[1..] == rest;
    }
  }

  /** The parser accepts exactly the canonical derivations that have a value; the leaves are all the tokens. */
  lemma AcceptsIff(ops: Operators, toks: seq<Tok>, t: Tree)
    ensures Parse(ops, toks) == Ok(t) <==> Canon(t) && Leaves(t) == toks && Value(ops, t).Ok?
  {
    if Parse(ops, toks) == Ok(t) {
      WaitSound(ops, Start, toks);
      WaitLeaves(ops, Start, toks);
      assert Opened(Start) + toks == toks;
    }
    if Canon(t) && Leaves(t) == toks {
      LeavesOpen(t);
      Complete(ops, Start, t, []);
      assert Leaves(t) + [] == toks;
    }
  }

  /** A derivation without a value ends the parser with the first error from the left. */
  lemma FailsWith(ops: Operators, t: Tree)
    requires Canon(t) && Value(ops, t).Err?
    ensures Parse(ops, Leaves(t)) == Err(Value(ops, t).error)
  {
    LeavesOpen(t);
    Complete(ops, Start, t, []);
    assert Leaves(t) + [] == Leaves(t);
  }

  /** No token sequence has two canonical derivations. */
  lemma Unambiguous(t: Tree, u: Tree)
    requires Canon(t) && Canon(u) && Leaves(t) == Leaves(u)
    ensures t == u
  {
    var ops: Operators := (k, l, op, r) => Ok([]);
    HasValue(ops, t);
    HasValue(ops, u);
    AcceptsIff(ops, Leaves(t), t);
    AcceptsIff(ops, Leaves(u), u);
  }

  lemma {:induction t} HasValue(ops: Operators, t: Tree)
    requires forall k, l, op, r :: ops(k, l, op, r).Ok?
    ensures Value(ops, t).Ok?
  {
  }
}
