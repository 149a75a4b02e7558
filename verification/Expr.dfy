/** The expression evaluator of exp.c on a vector of words: exp0 to exp5 as one function of the level, exp6
    below them. What commands, files, globbing and matching answer is given by an environment. */
module Expr {
  import opened Common
  import opened Strings
  import opened Numbers

  datatype Op = OrOr | AndAnd | BitOr | Xor | BitAnd | EqEq | NotEq | Match | NotMatch
              | Rel(less: bool, orEq: bool) | Shl | Shr | Plus | Minus | Times | Div | Mod

  datatype Error = Expression | BadNum | Missing | Div0 | Mod0 | FileInq | FileName | NoMatch | BadPattern

  /** What evaluation does to the world: a command between braces is run, a file test looks at a file, an operator
      that stands where a file name should is looked up as a file, and a word is expanded (which may read
      directories and run commands in back quotes). */
  datatype Effect = Run(command: seq<Word>) | Look(what: Char, file: Word) | Probe(word: Word) | Glob(word: Word)

  /** What the last effect of a history gave, by its kind: the expansion of a word, whether a file is there, the
      status of a command or the result of a test; then Gmatch, and what the machine computes where C leaves the
      result open. */
  datatype Env = Env(glob: seq<Effect> -> Option<Word>, present: seq<Effect> -> bool, answer: seq<Effect> -> int,
                     gmatch: (Word, Word) -> Option<bool>, open: (Op, int, int) -> int)

  /** IGNORE and NOGLOB. */
  datatype Mode = Mode(skip: bool, noglob: bool)

  /** Levels up to 5 give integers, the tighter ones words. */
  datatype Val = Int(i: int) | Str(w: Word)

  type Res<T> = Result<T, Error>

  /** An error and the effects up to it. */
  datatype Failure = Failure(error: Error, tr: seq<Effect>)

  function After<T>(tr: seq<Effect>, r: Res<T>): Result<T, Failure> {
    match r case Ok(v) => Ok(v) case Err(e) => Err(Failure(e, tr))
  }

  // ---------------------------------------------------------------- words

  predicate AddOp(w: Word) {
    w == Chars("+") || w == Chars("-")
  }

  predicate MulOp(w: Word) {
    w == Chars("*") || w == Chars("/") || w == Chars("%")
  }

  predicate RestOp(w: Word) {
    || w == Chars("(") || w == Chars(")") || w == Chars("!") || w == Chars("~") || w == Chars("^") || w == Chars("\"")
    || w == Chars("|&") || w == Chars("<<") || w == Chars(">>")
  }

  function EqOp(w: Word): Option<Op> {
    if w == Chars("==") then Some(EqEq) else if w == Chars("=~") then Some(Match)
    else if w == Chars("!=") then Some(NotEq) else if w == Chars("!~") then Some(NotMatch) else None
  }

  predicate RelOp(w: Word) {
    At(w, 0) == '<' as int || At(w, 0) == '>' as int
  }

  predicate ShiftOp(w: Word) {
    RelOp(w) && At(w, 0) == At(w, 1)
  }

  /** isa with ANYOP */
  predicate AnyOp(w: Word) {
    AddOp(w) || MulOp(w) || RestOp(w) || EqOp(w).Some? || RelOp(w)
  }

  /** The operator a level looks for at p, and where its operand starts. */
  function Operator(level: nat, ws: seq<Word>, p: nat): (r: Option<(Op, nat)>)
    ensures r.Some? ==> p < r.value.1 <= |ws|
  {
    if p >= |ws| then None
    else
      var w := ws[p];
      match level
      case 0 => if w == Chars("||") then Some((OrOr, p + 1)) else None
      case 1 => if w == Chars("&&") then Some((AndAnd, p + 1)) else None
      case 2 => if w == Chars("|") then Some((BitOr, p + 1)) else None
      case 3 => if w == Chars("^") then Some((Xor, p + 1)) else None
      case 4 => if w == Chars("&") then Some((BitAnd, p + 1)) else None
      case 5 => (match EqOp(w) case Some(op) => Some((op, p + 1)) case None => None)
      case 6 =>
        if !RelOp(w) then None
        else
          var eq := p + 1 < |ws| && ws[p + 1] == Chars("=");
          Some((Rel(w[0] == '<' as int, eq), if eq then p + 2 else p + 1))
      case 7 => if ShiftOp(w) then Some((if w[0] == '<' as int then Shl else Shr, p + 1)) else None
      case 8 => if !AddOp(w) then None else Some((if w == Chars("+") then Plus else Minus, p + 1))
      case 9 =>
        if !MulOp(w) then None
        else Some((if w == Chars("*") then Times else if w == Chars("/") then Div else Mod, p + 1))
      case _ => None
  }

  // ---------------------------------------------------------------- arithmetic

  /** egetn */
  function Egetn(w: Word): Res<int> {
    if w != [] && w[0] != DASH && !IsDigit(w[0]) then Err(Expression)
    else match Read(w) case Some(n) => Ok(n) case None => Err(BadNum)
  }

  function Number(v: Val): Res<int> {
    match v case Int(i) => Ok(i) case Str(w) => Egetn(w)
  }

  /** The k lowest bits of two integers in two's complement, combined bit by bit. */
  function Bitwise(op: Op, a: int, b: int, k: nat): nat
    decreases k
  {
    if k == 0 then 0 else Bit(op, a % 2 == 1, b % 2 == 1) + 2 * Bitwise(op, a / 2, b / 2, k - 1)
  }

  function Bit(op: Op, x: bool, y: bool): nat {
    var r := match op case BitOr => x || y case Xor => x != y case _ => x && y;
    if r then 1 else 0
  }

  function Truth(b: bool): int {
    if b then 1 else 0
  }

  /** The exact result where an int can hold it. */
  function Fit(env: Env, op: Op, a: int, b: int, exact: int): int {
    if MIN <= exact <= MAX then exact else Wrap(env.open(op, a, b))
  }

  function Arith(env: Env, op: Op, a: int, b: int): Res<int> {
    match op
    case Plus => Ok(Fit(env, op, a, b, a + b))
    case Minus => Ok(Fit(env, op, a, b, a - b))
    case Times => Ok(Fit(env, op, a, b, a * b))
    case Div => if b == 0 then Err(Div0) else Ok(Fit(env, op, a, b, Quotient(a, b)))
    case Mod =>
      if b == 0 then Err(Mod0)
      else if MIN <= Quotient(a, b) <= MAX then Ok(a - b * Quotient(a, b)) else Ok(Wrap(env.open(op, a, b)))
    case Shl => if 0 <= b < 32 && a >= 0 then Ok(Fit(env, op, a, b, a * Power2(b))) else Ok(Wrap(env.open(op, a, b)))
    case Shr => if 0 <= b < 32 then Ok(a / Power2(b)) else Ok(Wrap(env.open(op, a, b)))
    case Rel(true, false) => Ok(Truth(a < b))
    case Rel(true, true) => Ok(Truth(a <= b))
    case Rel(false, false) => Ok(Truth(a > b))
    case Rel(false, true) => Ok(Truth(a >= b))
    case BitOr => Ok(Wrap(Bitwise(op, a, b, 32)))
    case Xor => Ok(Wrap(Bitwise(op, a, b, 32)))
    case BitAnd => Ok(Wrap(Bitwise(op, a, b, 32)))
    case OrOr => Ok(Truth(a != 0 || b != 0))
    case AndAnd => Ok(Truth(a != 0 && b != 0))
    case _ => Ok(0)
  }

  function Level(op: Op): (r: nat)
    ensures r <= 9
  {
    match op
    case OrOr => 0 case AndAnd => 1 case BitOr => 2 case Xor => 3 case BitAnd => 4
    case EqEq => 5 case NotEq => 5 case Match => 5 case NotMatch => 5
    case Rel(_, _) => 6 case Shl => 7 case Shr => 7 case Plus => 8 case Minus => 8
    case Times => 9 case Div => 9 case Mod => 9
  }

  /** The operator codes of isa, which stand for the value that is not computed. */
  function Code(op: Op): int {
    match op
    case EqEq => 1 case NotEq => 6 case Match => 7 case NotMatch => 8
    case Rel(less, orEq) => (if less then 4 else 2) + (if orEq then 1 else 0)
    case _ => 0
  }

  /** The value of an operator applied to words or integers. A divisor is looked at, and refused when it is 0,
      before what it divides. */
  function Apply(env: Env, op: Op, v1: Val, v2: Val): Res<Val> {
    if Level(op) == 5 then
      match (v1, v2)
      case (Str(a), Str(b)) =>
        if op == EqEq then Ok(Int(Truth(a == b)))
        else if op == NotEq then Ok(Int(Truth(a != b)))
        else (match env.gmatch(a, b) case Some(m) => Ok(Int(Truth(m == (op == Match)))) case None => Err(BadPattern))
      case _ => Err(Expression)
    else if op == Div || op == Mod then
      var b :- Number(v2);
      if b == 0 then Err(if op == Div then Div0 else Mod0)
      else
        var a :- Number(v1);
        var i :- Arith(env, op, a, b);
        Ok(Str(Decimal(i)))
    else
      var a :- Number(v1);
      var b :- Number(v2);
      var i :- Arith(env, op, a, b);
      Ok(if Level(op) < 5 then Int(i) else Str(Decimal(i)))
  }

  /** The value that stands in where IGNORE is set: comparisons, sums and products are not computed. */
  function Idle(env: Env, op: Op, v1: Val, v2: Val): Res<Val> {
    match Level(op)
    case 5 => Ok(Int(Code(op)))
    case 6 => Ok(Str(Decimal(Code(op))))
    case 8 => Ok(Str(Decimal(0)))
    case 9 => Ok(Str(Decimal(0)))
    case _ => Apply(env, op, v1, v2)
  }

  // ---------------------------------------------------------------- exp0 to exp6

  /** Value, cursor and effects so far. */
  datatype Out = Out(v: Val, p: nat, tr: seq<Effect>)

  /** How the right operand is evaluated. */
  function RightMode(op: Op, v1: Val, m: Mode): Mode {
    match op
    case OrOr => Mode(m.skip || v1 != Int(0), false)
    case AndAnd => Mode(m.skip || v1 == Int(0), false)
    case Match => Mode(m.skip, true)
    case NotMatch => Mode(m.skip, true)
    case _ => m
  }

  /** The level the right operand is read at; only comparisons of words do not chain. */
  function RightLevel(level: nat): nat {
    if level == 5 then 6 else level
  }

  function Exp(env: Env, level: nat, ws: seq<Word>, p: nat, m: Mode, tr: seq<Effect>): (r: Result<Out, Failure>)
    requires p <= |ws| && level <= 10
    ensures r.Ok? ==> p <= r.value.p <= |ws|
    decreases |ws| - p, 11 - level
  {
    if level == 10 then Exp6(env, ws, p, m, tr)
    else
      var r1 :- Exp(env, level + 1, ws, p, m, tr);
      match Operator(level, ws, r1.p)
      case None =>
        if level == 5 then
          var i :- After(r1.tr, Number(r1.v));
          Ok(Out(Int(i), r1.p, r1.tr))
        else Ok(r1)
      case Some((op, q)) =>
        var r2 :- Exp(env, RightLevel(level), ws, q, RightMode(op, r1.v, m), r1.tr);
        var v :- After(r2.tr, if m.skip then Idle(env, op, r1.v, r2.v) else Apply(env, op, r1.v, r2.v));
        Ok(Out(v, r2.p, r2.tr))
  }

  /** The first `}` from p on, or the end. */
  function Closing(ws: seq<Word>, p: nat): (q: nat)
    requires p <= |ws|
    ensures p <= q <= |ws| && (q < |ws| ==> ws[q] == Chars("}"))
    decreases |ws| - p
  {
    if p == |ws| || ws[p] == Chars("}") then p else Closing(ws, p + 1)
  }

  /** A file test: a dash and one of the letters erwxfdzopls. */
  predicate IsTest(w: Word) {
    At(w, 0) == DASH && At(w, 1) in Chars("erwxfdzopls")
  }

  function Exp6(env: Env, ws: seq<Word>, p: nat, m: Mode, tr: seq<Effect>): (r: Result<Out, Failure>)
    requires p <= |ws|
    ensures r.Ok? ==> p <= r.value.p <= |ws|
    decreases |ws| - p, 0
  {
    if p == |ws| then Err(Failure(Expression, tr))
    else
      var w := ws[p];
      if w == Chars("!") then
        var r :- Exp6(env, ws, p + 1, m, tr);
        var i :- After(r.tr, Number(r.v));
        Ok(Out(Str(Decimal(Truth(i == 0))), r.p, r.tr))
      else if w == Chars("~") then
        var r :- Exp6(env, ws, p + 1, m, tr);
        var i :- After(r.tr, Number(r.v));
        Ok(Out(Str(Decimal(-1 - i)), r.p, r.tr))
      else if w == Chars("(") then
        var r :- Exp(env, 0, ws, p + 1, m, tr);
        var i :- After(r.tr, Number(r.v));
        if r.p == |ws| || At(ws[r.p], 0) != ')' as int then Err(Failure(Expression, r.tr))
        else Ok(Out(Str(Decimal(i)), r.p + 1, r.tr))
      else if w == Chars("{") then
        var q := Closing(ws, p + 1);
        if q == |ws| then Err(Failure(Missing, tr))
        else if m.skip then Ok(Out(Str([]), q + 1, tr))
        else
          var tr := tr + [Run(ws[p + 1..q])];
          Ok(Out(Str(Decimal(Truth(env.answer(tr) == 0))), q + 1, tr))
      else if AnyOp(w) then Ok(Out(Str([]), p, tr))
      else if IsTest(w) then
        if |w| > 2 then Err(Failure(FileInq, tr))
        else if p + 1 == |ws| then Err(Failure(FileName, tr))
        else
          var file := ws[p + 1];
          var tr := tr + Probes(file);
          if AnyOp(file) && !env.present(tr) then Err(Failure(FileName, tr))
          else if m.skip then Ok(Out(Str([]), p + 2, tr))
          else
            var name :- Expand(env, file, tr);
            var tr := tr + [Glob(file), Look(w[1], name)];
            Ok(Out(Str(Decimal(Truth(env.answer(tr) != 0))), p + 2, tr))
      else if m.noglob then Ok(Out(Str(w), p + 1, tr))
      else
        var name :- Expand(env, w, tr);
        Ok(Out(Str(name), p + 1, tr + [Glob(w)]))
  }

  /** Behind a file test an operator is looked up as a file. */
  function Probes(file: Word): seq<Effect> {
    if AnyOp(file) then [Probe(file)] else []
  }

  /** globone */
  function Expand(env: Env, w: Word, tr: seq<Effect>): Result<Word, Failure> {
    match env.glob(tr + [Glob(w)])
    case None => Err(Failure(NoMatch, tr + [Glob(w)]))
    case Some(name) => Ok(name)
  }

  // ---------------------------------------------------------------- every input

  /** The history behind an evaluation, whether it gave a value or an error. */
  function History(r: Result<Out, Failure>): seq<Effect> {
    match r case Ok(o) => o.tr case Err(f) => f.tr
  }

  /** A history that goes on without a command run or a file tested. */
  predicate Quietly(tr: seq<Effect>, after: seq<Effect>) {
    tr <= after && forall i :: |tr| <= i < |after| ==> after[i].Probe? || after[i].Glob?
  }

  /** Under IGNORE no command between braces is run and no file test is made, whatever the words are and however the
      evaluation ends; words are still expanded, and operators behind file tests looked up. */
  lemma {:induction false} SkipIsQuiet(env: Env, level: nat, ws: seq<Word>, p: nat, m: Mode, tr: seq<Effect>)
    requires p <= |ws| && level <= 10 && m.skip
    ensures Quietly(tr, History(Exp(env, level, ws, p, m, tr)))
    decreases |ws| - p, 11 - level
  {
    hide Apply, Idle, Operator, Exp6;
    if level == 10 {
      SkipIsQuiet6(env, ws, p, m, tr);
    } else {
      SkipIsQuiet(env, level + 1, ws, p, m, tr);
      var r1 := Exp(env, level + 1, ws, p, m, tr);
      if r1.Ok? {
        var o := Operator(level, ws, r1.value.p);
        if o.Some? {
          SkipIsQuiet(env, RightLevel(level), ws, o.value.1, RightMode(o.value.0, r1.value.v, m), r1.value.tr);
        }
      }
    }
  }

  lemma {:induction false} SkipIsQuiet6(env: Env, ws: seq<Word>, p: nat, m: Mode, tr: seq<Effect>)
    requires p <= |ws| && m.skip
    ensures Quietly(tr, History(Exp6(env, ws, p, m, tr)))
    decreases |ws| - p, 0
  {
    hide AnyOp, IsTest, Exp, Egetn, Chars;
    if p < |ws| && (ws[p] == Chars("!") || ws[p] == Chars("~")) {
      SkipIsQuiet6(env, ws, p + 1, m, tr);
    } else if p < |ws| && ws[p] == Chars("(") {
      SkipIsQuiet(env, 0, ws, p + 1, m, tr);
    }
  }

  /** The words an expression takes up do not depend on the world, on modes, or on what happened before. */
  lemma {:induction false} SameWords(env: Env, level: nat, ws: seq<Word>, p: nat, m: Mode, tr: seq<Effect>,
                                     env': Env, m': Mode, tr': seq<Effect>)
    requires p <= |ws| && level <= 10
    ensures var r, s := Exp(env, level, ws, p, m, tr), Exp(env', level, ws, p, m', tr');
            r.Ok? && s.Ok? ==> r.value.p == s.value.p
    decreases |ws| - p, 11 - level
  {
    hide Exp, Operator, RightMode;
    if level == 10 {
      SameWords6(env, ws, p, m, tr, env', m', tr');
      AtOperand(env, ws, p, m, tr);
      AtOperand(env', ws, p, m', tr');
    } else {
      SameWords(env, level + 1, ws, p, m, tr, env', m', tr');
      if Exp(env, level, ws, p, m, tr).Ok? && Exp(env', level, ws, p, m', tr').Ok? {
        EndsAt(env, level, ws, p, m, tr);
        EndsAt(env', level, ws, p, m', tr');
      }
      var r1, s1 := Exp(env, level + 1, ws, p, m, tr), Exp(env', level + 1, ws, p, m', tr');
      if r1.Ok? && s1.Ok? {
        var o := Operator(level, ws, r1.value.p);
        if o.Some? {
          SameWords(env, RightLevel(level), ws, o.value.1, RightMode(o.value.0, r1.value.v, m), r1.value.tr,
                    env', RightMode(o.value.0, s1.value.v, m'), s1.value.tr);
        }
      }
    }
  }

  lemma AtOperand(env: Env, ws: seq<Word>, p: nat, m: Mode, tr: seq<Effect>)
    requires p <= |ws|
    ensures Exp(env, 10, ws, p, m, tr) == Exp6(env, ws, p, m, tr)
  {
  }

  /** An expression ends where its left operand does, or, with an operator, where the right one does. */
  lemma EndsAt(env: Env, level: nat, ws: seq<Word>, p: nat, m: Mode, tr: seq<Effect>)
    requires p <= |ws| && level < 10 && Exp(env, level, ws, p, m, tr).Ok?
    ensures var r1 := Exp(env, level + 1, ws, p, m, tr);
            && r1.Ok?
            && var r := Exp(env, level, ws, p, m, tr).value;
            match Operator(level, ws, r1.value.p)
            case None => r.p == r1.value.p && r.tr == r1.value.tr
            case Some((op, q)) =>
              var r2 := Exp(env, RightLevel(level), ws, q, RightMode(op, r1.value.v, m), r1.value.tr);
              r2.Ok? && r.p == r2.value.p && r.tr == r2.value.tr
  {
    hide Apply, Idle, Operator, Exp6, RightMode;
  }

  lemma {:induction false} SameWords6(env: Env, ws: seq<Word>, p: nat, m: Mode, tr: seq<Effect>, env': Env, m': Mode, tr': seq<Effect>)
    requires p <= |ws|
    ensures var r, s := Exp6(env, ws, p, m, tr), Exp6(env', ws, p, m', tr');
            r.Ok? && s.Ok? ==> r.value.p == s.value.p
    decreases |ws| - p, 0
  {
    hide AnyOp, IsTest, Exp, Number, Chars, Decimal, Closing, Expand, Probes;
    if p < |ws| && (ws[p] == Chars("!") || ws[p] == Chars("~")) {
      SameWords6(env, ws, p + 1, m, tr, env', m', tr');
    } else if p < |ws| && ws[p] == Chars("(") {
      SameWords(env, 0, ws, p + 1, m, tr, env', m', tr');
    }
  }
}
