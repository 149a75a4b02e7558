/** expr as it runs (y.tab.c): the lexer over the arguments, and the loop that pushes and pops a stack of states and
    a stack of values. It computes what YaccParse says. */
module YaccParser {
  import opened Common
  import opened Strings
  import opened YaccTables
  import opened YaccArith
  import opened YaccParse
  import Numbers

  // ---------------------------------------------------------------- tokens

  const OPERATORS: Word := Chars("|&=<>+-*/%:()")
  const OPERATORTOKENS: seq<int> :=
    [OR, AND, COMPARE, COMPARE, COMPARE, ADD, ADD, MUL, MUL, MUL, REG, LEFT, RIGHT]
  const DASHES: Word := Chars("--")

  /** The token a word is when it does not stand in front. */
  function Kind(p: Word): (kind: int)
    ensures STRING <= kind <= RIGHT
  {
    if IsCompare(p) then COMPARE
    else if |p| == 1 then CharToken(p[0])
    else if p == Chars("length") then LENGTH
    else STRING
  }

  function CharToken(c: Char): (kind: int)
    ensures STRING <= kind <= RIGHT
  {
    if c == '|' as int then OR
    else if c == '&' as int then AND
    else if c == '+' as int || c == DASH then ADD
    else if c == '*' as int || c == '/' as int || c == '%' as int then MUL
    else if c == ':' as int then REG
    else if c == '(' as int then LEFT
    else if c == ')' as int then RIGHT
    else STRING
  }

  function Tokens(args: seq<Word>): seq<Tok> {
    seq(|args|, i requires 0 <= i < |args| => Tok(Kind(args[i]), args[i]))
  }

  predicate Resumes(kind: int) {
    kind == STRING || kind == LEFT || kind == RIGHT
  }

  /** The tokens of a whole command: `--` in front is left out if what follows is a string or a parenthesis. */
  function Stream(args: seq<Word>): seq<Tok> {
    if args == [] || args[0] != DASHES then Tokens(args)
    else if Resumes(Head(Stream(args[1..]))) then Stream(args[1..])
    else [Tok(STRING, DASHES)] + Tokens(args[1..])
  }

  /** What is left of a command, from its front or not. */
  function Left(front: bool, args: seq<Word>): seq<Tok> {
    if front then Stream(args) else Tokens(args)
  }

  lemma NoTokens(front: bool)
    ensures Left(front, []) == []
  {
  }

  lemma WordFirst(front: bool, args: seq<Word>)
    requires args != [] && !(front && args[0] == DASHES)
    ensures Left(front, args) == [Tok(Kind(args[0]), args[0])] + Left(false, args[1..])
  {
  }

  lemma DashesFirst(args: seq<Word>)
    requires args != [] && args[0] == DASHES
    ensures Left(true, args) == if Resumes(Head(Left(true, args[1..]))) then Left(true, args[1..])
                                else [Tok(STRING, DASHES)] + Left(false, args[1..])
  {
  }

  /** Any number of `--` in front: all are left out if a string or a parenthesis follows, otherwise all but one. */
  lemma {:induction false} DashesDropped(args: seq<Word>, n: nat)
    requires n <= |args| && (forall i :: 0 <= i < n ==> args[i] == DASHES)
    requires n == |args| || args[n] != DASHES
    ensures Stream(args) == if n == 0 || (n < |args| && Resumes(Kind(args[n]))) then Tokens(args[n..])
                            else Tokens(args[n - 1..])
    decreases n
  {
    if n > 0 {
      DashesDropped(args[1..], n - 1);
      assert args[1..][n - 1..] == args[n..];
      DashesAre();
      if n > 1 {
        assert args[1..][n - 2..] == args[n - 1..];
      } else {
        assert Tokens(args) == [Tok(STRING, DASHES)] + Tokens(args[1..]);
      }
    }
  }

  lemma DashesAre()
    ensures |DASHES| == 2 && DASHES[0] == DASH && DASHES[1] == DASH && Kind(DASHES) == STRING
  {
    assert |Chars("length")| == 6;
  }

  function Strchr(s: Word, c: Char, i: nat): (j: Option<nat>)
    requires i <= |s|
    ensures j.Some? ==> i <= j.value < |s| && s[j.value] == c
    decreases |s| - i
  {
    if i == |s| then None else if s[i] == c then Some(i) else Strchr(s, c, i + 1)
  }

  lemma CharKind(c: Char)
    ensures match Strchr(OPERATORS, c, 0)
            case Some(i) => Kind([c]) == OPERATORTOKENS[i]
            case None => Kind([c]) == STRING
  {
    var x := OPERATORS;
    assert x[0] == '|' as int && x[1] == '&' as int && x[2] == '=' as int && x[3] == '<' as int;
    assert x[4] == '>' as int && x[5] == '+' as int && x[6] == DASH && x[7] == '*' as int;
    assert x[8] == '/' as int && x[9] == '%' as int && x[10] == ':' as int && x[11] == '(' as int;
    assert x[12] == ')' as int && |x| == 13;
    From(c, 0);
  }

  lemma {:induction false} From(c: Char, i: nat)
    requires i <= |OPERATORS|
    ensures match Strchr(OPERATORS, c, i)
            case Some(j) => OPERATORS[j] == c
            case None => forall k :: i <= k < |OPERATORS| ==> OPERATORS[k] != c
    decreases |OPERATORS| - i
  {
    if i < |OPERATORS| {
      From(c, i + 1);
    }
  }

  // ---------------------------------------------------------------- the stacks

  /** What is on top of a context: nothing, a token that is an operand, an operand, an expression, parentheses. */
  datatype Config = Waiting(ctx: Context)
                  | Lone(ctx: Context, tok: Tok)
                  | Operand(ctx: Context, tok: Tok)
                  | Having(ctx: Context, t: Tree)
                  | Closed(ctx: Context, open: Tok, t: Tree, close: Tok)

  function Under(ctx: Context): (states: seq<int>)
    ensures states != []
  {
    match ctx
    case Start => [0]
    case InLength(below, _) => Under(below) + [8]
    case InParen(below, _) => Under(below) + [9]
    case InBinary(below, _, op) => Under(below) + [OnExpr(Last(Under(below))), 14 + Prec(op.kind)]
  }

  function Last<T>(s: seq<T>): T
    requires s != []
  {
    s[|s| - 1]
  }

  function States(cfg: Config): (states: seq<int>)
    ensures states != []
  {
    var under := Under(cfg.ctx);
    match cfg
    case Waiting(_) => under
    case Lone(_, tok) => under + [tok.kind - 256]
    case Operand(_, _) => under + [12]
    case Having(_, _) => under + [OnExpr(Last(under))]
    case Closed(_, _, _, _) => under + [9, 14, 21]
  }

  /** The value of a derivation that has one. */
  function Text(ops: Operators, t: Tree): Word {
    match Value(ops, t) case Ok(w) => w case Err(_) => []
  }

  function Beneath(ops: Operators, ctx: Context): seq<Word> {
    match ctx
    case Start => [[]]
    case InLength(below, tok) => Beneath(ops, below) + [tok.text]
    case InParen(below, open) => Beneath(ops, below) + [open.text]
    case InBinary(below, left, op) => Beneath(ops, below) + [Text(ops, left), op.text]
  }

  function Values(ops: Operators, cfg: Config): seq<Word> {
    var beneath := Beneath(ops, cfg.ctx);
    match cfg
    case Waiting(_) => beneath
    case Lone(_, tok) => beneath + [tok.text]
    case Operand(_, tok) => beneath + [tok.text]
    case Having(_, t) => beneath + [Text(ops, t)]
    case Closed(_, open, t, close) => beneath + [open.text, Text(ops, t), close.text]
  }

  function Outcome(ops: Operators, cfg: Config, toks: seq<Tok>): Result<Tree, Failure> {
    match cfg
    case Waiting(ctx) => Wait(ops, ctx, toks)
    case Lone(ctx, tok) => Have(ops, ctx, Item(tok), toks)
    case Operand(ctx, tok) => Have(ops, ctx, Item(tok), toks)
    case Having(ctx, t) => Have(ops, ctx, t, toks)
    case Closed(ctx, open, t, close) => Have(ops, ctx, Paren(open, t, close), toks)
  }

  /** Contexts of operators whose operands have values. */
  predicate Sound(ops: Operators, ctx: Context) {
    match ctx
    case Start => true
    case InLength(below, _) => Sound(ops, below)
    case InParen(below, _) => Sound(ops, below)
    case InBinary(below, left, op) =>
      Sound(ops, below) && !below.InLength? && IsOp(op.kind) && Value(ops, left).Ok?
  }

  predicate Proper(ops: Operators, cfg: Config) {
    && Sound(ops, cfg.ctx)
    && match cfg
       case Waiting(_) => true
       case Lone(_, tok) => STRING <= tok.kind <= REG
       case Operand(_, _) => true
       case Having(_, t) => Value(ops, t).Ok?
       case Closed(_, _, t, _) => Value(ops, t).Ok?
  }

  // ---------------------------------------------------------------- one step

  /** The values on top that a rule replaces, and what it replaces them by. */
  function Reduced(ops: Operators, rule: int, top: seq<Word>): Result<Word, Failure>
    requires |top| == Len(rule)
  {
    if rule == 3 then ops(OR, top[0], top[1], top[2])
    else if rule == 4 then ops(AND, top[0], top[1], top[2])
    else if rule == 5 then ops(REG, top[0], top[1], top[2])
    else if rule == 6 then ops(ADD, top[0], top[1], top[2])
    else if rule == 7 then ops(MUL, top[0], top[1], top[2])
    else if rule == 8 then ops(COMPARE, top[0], top[1], top[2])
    else if rule == 9 then Ok(top[1])
    else if rule == 10 then Ok(Numbers.Decimal(|top[1]|))
    else Ok(top[0])
  }

  /** What a shift or a reduction leaves on top. */
  function Shifted(cfg: Config, tok: Tok): Config {
    if cfg.Waiting? then
      if tok.kind == LENGTH then Waiting(InLength(cfg.ctx, tok))
      else if tok.kind == LEFT then Waiting(InParen(cfg.ctx, tok))
      else Lone(cfg.ctx, tok)
    else if cfg.Having? then
      if IsOp(tok.kind) then Waiting(InBinary(cfg.ctx, cfg.t, tok))
      else if cfg.ctx.InParen? then Closed(cfg.ctx.below, cfg.ctx.open, cfg.t, tok)
      else cfg
    else cfg
  }

  function Replaced(cfg: Config): Config {
    match cfg
    case Waiting(ctx) => if ctx.InLength? then Operand(ctx.below, ctx.tok) else cfg
    case Lone(ctx, tok) => Operand(ctx, tok)
    case Operand(ctx, tok) => Having(ctx, Item(tok))
    case Closed(ctx, open, t, close) => Having(ctx, Paren(open, t, close))
    case Having(ctx, t) =>
      match ctx
      case InLength(below, tok) => Having(below, Length(tok, t))
      case InBinary(below, left, op) => Having(below, Binary(left, op, t))
      case _ => cfg
  }

  predicate Tokened(toks: seq<Tok>) {
    forall i :: 0 <= i < |toks| ==> STRING <= toks[i].kind <= RIGHT
  }

  /** What the action for the state on top and the next token is to the parse. */
  ghost predicate Agrees(ops: Operators, cfg: Config, toks: seq<Tok>, a: Action) {
    match a
    case Reject => Outcome(ops, cfg, toks) == Err(Syntax)
    case Shift(state) =>
      && toks != []
      && var next := Shifted(cfg, toks[0]);
      && Proper(ops, next) && Outcome(ops, cfg, toks) == Outcome(ops, next, toks[1..])
      && States(next) == States(cfg) + [state]
      && Values(ops, next) == Values(ops, cfg) + [toks[0].text]
    case Reduce(rule) =>
      && var states, values := States(cfg), Values(ops, cfg);
      && |states| == |values|
      && if rule == 1 then
           cfg.Having? && Outcome(ops, cfg, toks) == Ok(cfg.t) && Value(ops, cfg.t) == Ok(Last(values))
         else
           && Len(rule) < |states|
           && var n := |states| - Len(rule);
           match Reduced(ops, rule, values[n..])
           case Err(e) => Outcome(ops, cfg, toks) == Err(e)
           case Ok(w) =>
             var next := Replaced(cfg);
             && next != cfg
             && Proper(ops, next) && Outcome(ops, cfg, toks) == Outcome(ops, next, toks)
             && States(next) == states[..n] + [Goto(Lhs(rule), states[n - 1])]
             && Values(ops, next) == values[..n] + [w]
  }

  lemma {:induction false} Depth(ops: Operators, ctx: Context)
    ensures |Under(ctx)| == |Beneath(ops, ctx)|
  {
    if !ctx.Start? {
      Depth(ops, ctx.below);
    }
  }

  lemma UnderWaits(ops: Operators, ctx: Context)
    requires Sound(ops, ctx)
    ensures Waits(Last(Under(ctx)))
    ensures Last(Under(ctx)) == match ctx case Start => 0 case InLength(_, _) => 8 case InParen(_, _) => 9
                                case InBinary(_, _, op) => 14 + Prec(op.kind)
  {
  }

  /** A reduction agrees if what it takes off is what lies on a context. */
  lemma Replaces(ops: Operators, cfg: Config, toks: seq<Tok>, rule: int, below: Context, on: seq<int>, top: seq<Word>)
    requires rule != 1 && |on| == |top| == Len(rule)
    requires States(cfg) == Under(below) + on && Values(ops, cfg) == Beneath(ops, below) + top
    requires match Reduced(ops, rule, top)
             case Err(e) => Outcome(ops, cfg, toks) == Err(e)
             case Ok(w) =>
               var next := Replaced(cfg);
               && next != cfg && Proper(ops, next) && Outcome(ops, cfg, toks) == Outcome(ops, next, toks)
               && States(next) == Under(below) + [Goto(Lhs(rule), Last(Under(below)))]
               && Values(ops, next) == Beneath(ops, below) + [w]
    ensures Agrees(ops, cfg, toks, Reduce(rule))
  {
    hide States, Values, Outcome, Proper, Replaced, Goto, Lhs, Reduced, Len;
    Depth(ops, below);
    var states, values, n := States(cfg), Values(ops, cfg), |Under(below)|;
    assert states[..n] == Under(below) && values[..n] == Beneath(ops, below);
    assert values[n..] == top && n == |states| - |top|;
    assert states[n - 1] == Last(Under(below));
  }

  /** LENGTH with nothing to apply to is an operand. */
  lemma WaitingEnds(ops: Operators, ctx: Context, toks: seq<Tok>)
    requires Sound(ops, ctx) && ctx.InLength? && !Opens(Head(toks))
    ensures Agrees(ops, Waiting(ctx), toks, Reduce(18))
  {
    hide Goto, Lookup, Have, Agrees;
    UnderWaits(ops, ctx.below);
    GotoIsMeant(Last(Under(ctx.below)));
    Replaces(ops, Waiting(ctx), toks, 18, ctx.below, [8], [ctx.tok.text]);
  }

  lemma WaitingShifts(ops: Operators, ctx: Context, toks: seq<Tok>)
    requires Sound(ops, ctx) && toks != [] && Tokened(toks) && toks[0].kind != RIGHT
    requires ctx.InLength? ==> Opens(Head(toks))
    ensures Agrees(ops, Waiting(ctx), toks, Shift(toks[0].kind - 256))
  {
    hide Goto, Lookup, Have, Beneath, Wait;
    assert STRING <= toks[0].kind <= RIGHT;
    if toks[0].kind == LENGTH || toks[0].kind == LEFT {
      var next := Shifted(Waiting(ctx), toks[0]);
      WaitOpens(ops, ctx, toks);
      Pushed(ops, ctx, toks[0]);
      assert Sound(ops, next.ctx) && Under(next.ctx) == Under(ctx) + [toks[0].kind - 256];
      hide Under, Sound;
    } else {
      hide Under, Sound;
      WaitTakes(ops, ctx, toks);
    }
  }

  lemma WaitTakes(ops: Operators, ctx: Context, toks: seq<Tok>)
    requires toks != [] && STRING <= toks[0].kind < LENGTH && (ctx.InLength? ==> Opens(Head(toks)))
    ensures Wait(ops, ctx, toks) == Have(ops, ctx, Item(toks[0]), toks[1..])
  {
    hide Have;
  }

  lemma WaitOpens(ops: Operators, ctx: Context, toks: seq<Tok>)
    requires toks != [] && (toks[0].kind == LENGTH || toks[0].kind == LEFT)
    ensures Wait(ops, ctx, toks) == Outcome(ops, Shifted(Waiting(ctx), toks[0]), toks[1..])
  {
    hide Have;
  }

  lemma Pushed(ops: Operators, ctx: Context, tok: Tok)
    ensures Beneath(ops, InLength(ctx, tok)) == Beneath(ops, InParen(ctx, tok)) == Beneath(ops, ctx) + [tok.text]
  {
  }

  lemma StepWaiting(ops: Operators, ctx: Context, toks: seq<Tok>)
    requires Sound(ops, ctx) && Tokened(toks)
    ensures Agrees(ops, Waiting(ctx), toks, Meant(Last(Under(ctx)), Head(toks)))
  {
    hide Agrees, Lookup, Goto;
    UnderWaits(ops, ctx);
    assert toks != [] ==> STRING <= toks[0].kind <= RIGHT;
    if ctx.InLength? && !Opens(Head(toks)) {
      WaitingEnds(ops, ctx, toks);
    } else if toks == [] || toks[0].kind == RIGHT {
      WaitingRejects(ops, ctx, toks);
    } else {
      WaitingShifts(ops, ctx, toks);
    }
  }

  lemma WaitingRejects(ops: Operators, ctx: Context, toks: seq<Tok>)
    requires !ctx.InLength? && (toks == [] || toks[0].kind == RIGHT)
    ensures Agrees(ops, Waiting(ctx), toks, Reject)
  {
  }

  lemma StepLone(ops: Operators, ctx: Context, tok: Tok, toks: seq<Tok>)
    requires Sound(ops, ctx) && Tokened(toks) && STRING <= tok.kind <= REG
    ensures Agrees(ops, Lone(ctx, tok), toks, Meant(tok.kind - 256, Head(toks)))
  {
    hide Goto, Lookup, Have, Agrees, Under, Beneath;
    UnderWaits(ops, ctx);
    GotoIsMeant(Last(Under(ctx)));
    Replaces(ops, Lone(ctx, tok), toks, Meant(tok.kind - 256, Head(toks)).rule, ctx, [tok.kind - 256], [tok.text]);
  }

  lemma StepOperand(ops: Operators, ctx: Context, tok: Tok, toks: seq<Tok>)
    requires Sound(ops, ctx) && Tokened(toks)
    ensures Agrees(ops, Operand(ctx, tok), toks, Meant(12, Head(toks)))
  {
    hide Goto, Lookup, Have, Agrees, Under, Beneath;
    UnderWaits(ops, ctx);
    GotoIsMeant(Last(Under(ctx)));
    Replaces(ops, Operand(ctx, tok), toks, 2, ctx, [12], [tok.text]);
  }

  lemma StepClosed(ops: Operators, ctx: Context, open: Tok, t: Tree, close: Tok, toks: seq<Tok>)
    requires Proper(ops, Closed(ctx, open, t, close)) && Tokened(toks)
    ensures Agrees(ops, Closed(ctx, open, t, close), toks, Meant(21, Head(toks)))
  {
    hide Goto, Lookup, Have, Agrees, Under, Beneath;
    UnderWaits(ops, ctx);
    GotoIsMeant(Last(Under(ctx)));
    Replaces(ops, Closed(ctx, open, t, close), toks, 9, ctx, [9, 14, 21], [open.text, Text(ops, t), close.text]);
  }

  /** An operator above the floor. */
  lemma HavingShifts(ops: Operators, ctx: Context, t: Tree, toks: seq<Tok>)
    requires Proper(ops, Having(ctx, t)) && toks != [] && Tokened(toks)
    requires !ctx.InLength? && IsOp(toks[0].kind) && Prec(toks[0].kind) > Floor(ctx)
    ensures Agrees(ops, Having(ctx, t), toks, Meant(OnExpr(Last(Under(ctx))), Head(toks)))
  {
    hide Goto, Lookup, Wait;
    UnderWaits(ops, ctx);
    var next := Shifted(Having(ctx, t), toks[0]);
    assert next == Waiting(InBinary(ctx, t, toks[0]));
    assert Meant(OnExpr(Last(Under(ctx))), Head(toks)) == Shift(14 + Prec(toks[0].kind));
    assert States(next) == States(Having(ctx, t)) + [14 + Prec(toks[0].kind)];
    assert Values(ops, next) == Values(ops, Having(ctx, t)) + [toks[0].text];
  }

  /** No operator above the floor behind a right operand. */
  lemma HavingEnds(ops: Operators, ctx: Context, t: Tree, toks: seq<Tok>)
    requires Proper(ops, Having(ctx, t)) && Tokened(toks)
    requires ctx.InBinary? && !(IsOp(Head(toks)) && Prec(Head(toks)) > Floor(ctx))
    ensures Agrees(ops, Having(ctx, t), toks, Meant(OnExpr(Last(Under(ctx))), Head(toks)))
  {
    hide Goto, Lookup;
    UnderWaits(ops, ctx);
    UnderWaits(ops, ctx.below);
    var c, prec := Head(toks), Prec(ctx.op.kind);
    if ctx.op.kind == REG || IsOp(c) || c == EOF || c == RIGHT {
      assert Meant(OnExpr(Last(Under(ctx))), c) == Reduce(RuleOf(prec));
      BinaryEnds(ops, ctx, t, toks);
    } else {
      assert Meant(OnExpr(Last(Under(ctx))), c) == Reject;
    }
  }

  lemma BinaryEnds(ops: Operators, ctx: Context, t: Tree, toks: seq<Tok>)
    requires Proper(ops, Having(ctx, t)) && ctx.InBinary?
    requires var b := Binary(ctx.left, ctx.op, t);
             Have(ops, ctx, t, toks) == match Value(ops, b) case Ok(_) => Have(ops, ctx.below, b, toks) case Err(e) => Err(e)
    ensures Agrees(ops, Having(ctx, t), toks, Reduce(RuleOf(Prec(ctx.op.kind))))
  {
    hide Goto, Lookup, Agrees, Have, Sound, Reduced, Under, Beneath, Value;
    var below := ctx.below;
    BinaryStacks(ops, ctx, t);
    var expr, prec := OnExpr(Last(Under(below))), Prec(ctx.op.kind);
    Replaces(ops, Having(ctx, t), toks, RuleOf(prec), below, [expr, 14 + prec, 21 + prec],
             [Text(ops, ctx.left), ctx.op.text, Text(ops, t)]);
  }

  lemma BinaryStacks(ops: Operators, ctx: Context, t: Tree)
    requires Proper(ops, Having(ctx, t)) && ctx.InBinary?
    ensures var expr, prec := OnExpr(Last(Under(ctx.below))), Prec(ctx.op.kind);
            var top := [Text(ops, ctx.left), ctx.op.text, Text(ops, t)];
            && Sound(ops, ctx.below) && 1 <= prec <= 6
            && States(Having(ctx, t)) == Under(ctx.below) + [expr, 14 + prec, 21 + prec]
            && Values(ops, Having(ctx, t)) == Beneath(ops, ctx.below) + top
            && Value(ops, Binary(ctx.left, ctx.op, t)) == Reduced(ops, RuleOf(prec), top)
            && Goto(1, Last(Under(ctx.below))) == expr
  {
    hide Goto;
    UnderWaits(ops, ctx);
    UnderWaits(ops, ctx.below);
    GotoIsMeant(Last(Under(ctx.below)));
  }

  /** No operator where nothing or a parenthesis is open. */
  lemma HavingWhole(ops: Operators, ctx: Context, t: Tree, toks: seq<Tok>)
    requires Proper(ops, Having(ctx, t)) && Tokened(toks)
    requires (ctx.Start? || ctx.InParen?) && !IsOp(Head(toks))
    ensures Agrees(ops, Having(ctx, t), toks, Meant(OnExpr(Last(Under(ctx))), Head(toks)))
  {
    hide Goto, Lookup;
    UnderWaits(ops, ctx);
    Depth(ops, ctx);
  }

  /** An expression behind LENGTH. */
  lemma HavingLength(ops: Operators, ctx: Context, t: Tree, toks: seq<Tok>)
    requires Proper(ops, Having(ctx, t)) && ctx.InLength?
    ensures Agrees(ops, Having(ctx, t), toks, Meant(OnExpr(Last(Under(ctx))), Head(toks)))
  {
    hide Goto, Lookup, Agrees;
    UnderWaits(ops, ctx.below);
    GotoIsMeant(Last(Under(ctx.below)));
    Replaces(ops, Having(ctx, t), toks, 10, ctx.below, [8, 13], [ctx.tok.text, Text(ops, t)]);
  }

  lemma StepHaving(ops: Operators, ctx: Context, t: Tree, toks: seq<Tok>)
    requires Proper(ops, Having(ctx, t)) && Tokened(toks)
    ensures Agrees(ops, Having(ctx, t), toks, Meant(OnExpr(Last(Under(ctx))), Head(toks)))
  {
    hide Agrees, Meant, Under, OnExpr, Value, Sound;
    if ctx.InLength? {
      HavingLength(ops, ctx, t, toks);
    } else if IsOp(Head(toks)) && Prec(Head(toks)) > Floor(ctx) {
      HavingShifts(ops, ctx, t, toks);
    } else if ctx.InBinary? {
      HavingEnds(ops, ctx, t, toks);
    } else {
      HavingWhole(ops, ctx, t, toks);
    }
  }

  /** Whatever the tables do agrees with the parse. */
  lemma StepAgrees(ops: Operators, cfg: Config, toks: seq<Tok>)
    requires Proper(ops, cfg) && Tokened(toks)
    ensures 0 <= Last(States(cfg)) < 28
    ensures Agrees(ops, cfg, toks, Lookup(Last(States(cfg)), Head(toks)))
  {
    hide Agrees, Lookup, Meant;
    UnderWaits(ops, cfg.ctx);
    match cfg {
      case Waiting(ctx) => StepWaiting(ops, ctx, toks);
      case Lone(ctx, tok) => StepLone(ops, ctx, tok, toks);
      case Operand(ctx, tok) => StepOperand(ops, ctx, tok, toks);
      case Having(ctx, t) => StepHaving(ops, ctx, t, toks);
      case Closed(ctx, open, t, close) => StepClosed(ops, ctx, open, t, close, toks);
    }
    LookupIsMeant(Last(States(cfg)), Head(toks));
  }

  // ---------------------------------------------------------------- the program

  function Actions(env: Env): Operators {
    (kind, left, op, right) => Act(env, kind, left, op, right)
  }

  /** The arguments that are left, the flag and the value of yylex, and the two stacks of yyparse. */
  class Yacc {
    const env: Env
    const args: seq<Word>
    var av: nat
    var handleDdash: bool
    var yylval: Word
    var yychar: int
    var states: seq<int>
    var values: seq<Word>

    constructor (env: Env, args: seq<Word>)
      ensures this.env == env && this.args == args && av == 0 && handleDdash
    {
      this.env := env;
      this.args := args;
      av := 0;
      handleDdash := true;
      yylval := [];
      yychar := -1;
      states := [];
      values := [];
    }

    /** The tokens yylex has not returned yet. */
    function Unread(): (toks: seq<Tok>)
      reads this`av, this`handleDdash
      ensures Tokened(toks)
    {
      if av > |args| then [] else StreamTokened(args[av..]); Left(handleDdash, args[av..])
    }

    method Yylex() returns (retval: int)
      requires av <= |args|
      modifies this`av, this`handleDdash, this`yylval
      ensures !handleDdash && old(av) < av <= |args| + 1
      ensures retval == Head(old(Unread()))
      ensures retval == EOF ==> Unread() == []
      ensures retval != EOF ==> av <= |args| && old(Unread())[0] == Tok(retval, yylval) && Unread() == old(Unread())[1..]
      ensures !Resumes(retval) ==> av == old(av) + 1
      decreases |args| - av
    {
      hide Kind, Left;
      ghost var rest, dd := args[av..], handleDdash;
      if av == |args| {
        NoTokens(dd);
        retval := EOF;
        av := av + 1;
        handleDdash := false;
        return;
      }
      var p := args[av];
      av := av + 1;
      assert rest[0] == p && rest[1..] == args[av..];
      if handleDdash && p == DASHES {
        DashesFirst(rest);
        DashesAre();
        retval := Yylex();
        if !Resumes(retval) {
          retval := STRING;
          av := av - 1;
          p := DASHES;
        } else {
          p := yylval;
        }
      } else {
        WordFirst(dd, rest);
        retval := Classify(p);
      }
      handleDdash := false;
      yylval := p;
    }

    /** What yylex makes of a word by itself. */
    method Classify(p: Word) returns (retval: int)
      ensures retval == Kind(p)
    {
      if |p| == 1 {
        CharKind(p[0]);
        assert p == [p[0]];
        var w := Strchr(OPERATORS, p[0], 0);
        retval := if w.Some? then OPERATORTOKENS[w.value] else STRING;
      } else if |p| == 2 && p[1] == '=' as int && (p[0] == '>' as int || p[0] == '<' as int || p[0] == '!' as int) {
        retval := COMPARE;
      } else if p == Chars("length") {
        retval := LENGTH;
      } else {
        retval := STRING;
      }
    }

    /** The tokens from the one looked at on. */
    function Ahead(): (toks: seq<Tok>)
      reads this`av, this`handleDdash, this`yychar, this`yylval
    {
      if yychar < 0 then Unread() else if yychar == EOF then [] else [Tok(yychar, yylval)] + Unread()
    }

    /** Between steps the look-ahead is a token, and only the end of the arguments lies behind them. */
    predicate Reading()
      reads this`av, this`yychar
    {
      (yychar == EOF || av <= |args|) && yychar <= RIGHT && (yychar > 0 ==> STRING <= yychar)
    }

    /** The lookups at the top of the loop. */
    method Decide() returns (a: Action)
      requires states != [] && 0 <= Last(states) < 28 && Reading()
      modifies this`av, this`handleDdash, this`yylval, this`yychar
      ensures Reading() && Ahead() == old(Ahead())
      ensures a == Lookup(Last(states), Head(Ahead()))
      ensures a.Shift? ==> yychar == Head(Ahead())
    {
      hide Unread, DefRed, Sindex, Rindex, Table, Check;
      var yystate := Last(states);
      var yyn := DefRed(yystate);
      if yyn != 0 {
        return Reduce(yyn);
      }
      if yychar < 0 {
        yychar := Yylex();
      }
      assert yychar == Head(Ahead());
      yyn := Sindex(yystate);
      if yyn != 0 && 0 <= yyn + yychar <= TABLESIZE && Check(yyn + yychar) == yychar {
        return Shift(Table(yyn + yychar));
      }
      yyn := Rindex(yystate);
      if yyn != 0 && 0 <= yyn + yychar <= TABLESIZE && Check(yyn + yychar) == yychar {
        return Reduce(Table(yyn + yychar));
      }
      a := Reject;
    }

    /** The value stack from the top: 0 is the topmost value, -1 the one below it. */
    function Mark(i: int): Word
      requires 0 - |values| < i <= 0
      reads this`values
    {
      values[|values| - 1 + i]
    }

    /** The actions of the rules but the first. */
    method Action(rule: int) returns (yyval: Result<Word, Failure>)
      requires Len(rule) <= |values|
      ensures yyval == Reduced(Actions(env), rule, values[|values| - Len(rule)..])
    {
      hide Scan, Compare, Matched, Arith, IsZeroOrNull;
      ghost var top := values[|values| - Len(rule)..];
      assert forall i :: 0 <= i < |top| ==> top[i] == Mark(i + 1 - |top|);
      if rule == 3 {
        yyval := Ok(if !IsZeroOrNull(Mark(-2)) then Mark(-2) else Mark(0));
      } else if rule == 4 {
        yyval := Ok(if !IsZeroOrNull(Mark(-2)) && !IsZeroOrNull(Mark(0)) then Mark(-2) else ZERO);
      } else if rule == 5 {
        yyval := Matched(env, Mark(-2), Mark(0));
      } else if rule == 6 || rule == 7 {
        var res := PerformArithOp(Mark(-2), Mark(-1), Mark(0));
        match res {
          case Ok(n) => yyval := Ok(Numbers.Decimal(n as int));
          case Err(e) => yyval := Err(e);
        }
      } else if rule == 8 {
        yyval := Ok(Compare(env, Mark(-2), Mark(-1), Mark(0)));
      } else if rule == 9 {
        yyval := Ok(Mark(-1));
      } else if rule == 10 {
        yyval := Ok(Numbers.Decimal(|Mark(0)|));
      } else {
        yyval := Ok(Mark(1 - Len(rule)));
      }
    }

    lemma AheadAtFirst()
      requires av == 0 && handleDdash && yychar < 0
      ensures Ahead() == Stream(args)
    {
      assert args[0..] == args;
    }

    /** A shift: the state and the token that was looked at go on the stacks. */
    method Push(state: int)
      requires Reading() && yychar > 0
      modifies this`states, this`values, this`yychar
      ensures states == old(states) + [state] && values == old(values) + [old(Ahead())[0].text]
      ensures Reading() && Ahead() == old(Ahead())[1..]
    {
      states := states + [state];
      values := values + [yylval];
      yychar := -1;
    }

    /** What a reduction leaves: the state behind the symbol derived, and its value. */
    method Pop(rule: int, yyval: Word)
      requires Len(rule) < |states| && |states| == |values|
      modifies this`states, this`values
      ensures var n := old(|states|) - Len(rule);
              && states == old(states)[..n] + [Goto(Lhs(rule), old(states)[n - 1])]
              && values == old(values)[..n] + [yyval]
    {
      var n := |states| - Len(rule);
      states, values := states[..n], values[..n];
      var yystate, yym := Last(states), Lhs(rule);
      var yyn := Gindex(yym);
      if yyn != 0 && 0 <= yyn + yystate <= TABLESIZE && Check(yyn + yystate) == yystate {
        yystate := Table(yyn + yystate);
      } else {
        yystate := Dgoto(yym);
      }
      states, values := states + [yystate], values + [yyval];
    }

    /** The loop of yyparse: the value printed or the error, and the exit status. */
    method YyParse() returns (r: Result<Word, Failure>, status: int)
      requires av == 0 && handleDdash
      modifies this
      ensures r == Evaluate(env, args)
      ensures status == match r case Ok(w) => (if IsZeroOrNull(w) then 1 else 0) case Err(_) => 2
    {
      hide Unread, Ahead, Lookup, IsZeroOrNull, Value, Outcome, Proper, States, Values, Wait, Goto, Reduced, Replaced,
        Shifted, Lhs, Len, Stream, Act;
      ghost var ops, toks := Actions(env), Stream(args);
      states, values, yychar := [0], [[]], -1;
      ghost var cfg := Waiting(Start);
      AheadAtFirst();
      Begins(ops, toks);
      StreamTokened(args);
      while true
        invariant Reading() && Proper(ops, cfg) && States(cfg) == states && Values(ops, cfg) == values
        invariant Tokened(Ahead()) && Outcome(ops, cfg, Ahead()) == Parse(ops, toks)
        decreases |Ahead()|, |states|, Phase(cfg)
      {
        StepAgrees(ops, cfg, Ahead());
        var a := Decide();
        match a {
          case Reject =>
            return Err(Syntax), 2;
          case Shift(state) =>
            cfg := Shifted(cfg, Ahead()[0]);
            Push(state);
          case Reduce(rule) =>
            if rule == 1 {
              return Ok(Last(values)), if IsZeroOrNull(Last(values)) then 1 else 0;
            }
            var yyval := Action(rule);
            if yyval.Err? {
              return Err(yyval.error), 2;
            }
            Lowers(cfg);
            cfg := Replaced(cfg);
            Pop(rule, yyval.value);
        }
      }
    }
  }

  /** What expr prints for its arguments, or the error it ends with. */
  function Evaluate(env: Env, args: seq<Word>): Result<Word, Failure> {
    var t :- Parse(Actions(env), Stream(args));
    Value(Actions(env), t)
  }

  /** A command with a canonical derivation gives its value, or the first error of the derivation; a command with
      none gives an error. */
  lemma EvaluatesDerivations(env: Env, args: seq<Word>)
    ensures forall t :: Canon(t) && Leaves(t) == Stream(args) ==> Evaluate(env, args) == Value(Actions(env), t)
    ensures Evaluate(env, args).Ok? ==> exists t :: Canon(t) && Leaves(t) == Stream(args)
  {
    var ops := Actions(env);
    forall t | Canon(t) && Leaves(t) == Stream(args) ensures Evaluate(env, args) == Value(ops, t) {
      AcceptsIff(ops, Stream(args), t);
      if Value(ops, t).Err? {
        FailsWith(ops, t);
      }
    }
    if Evaluate(env, args).Ok? {
      AcceptsIff(ops, Stream(args), Parse(ops, Stream(args)).value);
    }
  }

  ghost function Phase(cfg: Config): nat {
    match cfg case Waiting(_) => 3 case Lone(_, _) => 2 case Operand(_, _) => 1 case _ => 0
  }

  lemma Lowers(cfg: Config)
    requires Replaced(cfg) != cfg
    ensures |States(Replaced(cfg))| <= |States(cfg)|
    ensures |States(Replaced(cfg))| == |States(cfg)| ==> Phase(Replaced(cfg)) < Phase(cfg)
  {
  }

  lemma Begins(ops: Operators, toks: seq<Tok>)
    ensures var cfg := Waiting(Start); Proper(ops, cfg) && States(cfg) == [0] && Values(ops, cfg) == [[]]
    ensures Outcome(ops, Waiting(Start), toks) == Parse(ops, toks)
  {
  }

  lemma {:induction false} StreamTokened(args: seq<Word>)
    ensures Tokened(Stream(args)) && Tokened(Tokens(args))
    decreases args
  {
    if args != [] {
      StreamTokened(args[1..]);
    }
  }
}
