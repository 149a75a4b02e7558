/** The parser tables of expr (y.tab.c), and what they amount to: for every state and token, the action that the
    grammar and its precedences ask for. */
module YaccTables {

  // ---------------------------------------------------------------- the tables as generated

  /** yylhs: what a rule derives, 0 exp, 1 expr, 2 item */
  function Lhs(i: int): int {
    match i
    case 0 => -1 case 1 => 0 case 11 => 2 case 12 => 2 case 13 => 2 case 14 => 2 case 15 => 2 case 16 => 2
    case 17 => 2 case 18 => 2
    case _ => 1
  }

  /** yylen: how many symbols a rule has on its right side */
  function Len(i: int): int {
    match i
    case 0 => 2 case 3 => 3 case 4 => 3 case 5 => 3 case 6 => 3 case 7 => 3 case 8 => 3 case 9 => 3 case 10 => 2
    case _ => 1
  }

  /** yydefred: the rule a state reduces by whatever comes next */
  function DefRed(i: int): int {
    match i
    case 1 => 11 case 2 => 15 case 3 => 16 case 4 => 14 case 5 => 12 case 6 => 13 case 7 => 17 case 12 => 2
    case 13 => 10 case 21 => 9 case 27 => 5
    case _ => 0
  }

  /** yysindex */
  function Sindex(i: int): int {
    match i
    case 0 => -224 case 8 => -248 case 9 => -224 case 11 => -216 case 14 => -255 case 15 => -224 case 16 => -224
    case 17 => -224 case 18 => -224 case 19 => -224 case 20 => -224 case 22 => -211 case 23 => -207 case 24 => -249
    case 25 => -240 case 26 => -263
    case _ => 0
  }

  /** yyrindex */
  function Rindex(i: int): int {
    match i
    case 8 => 1 case 11 => 2 case 22 => 26 case 23 => 24 case 24 => 15 case 25 => 19 case 26 => 10
    case _ => 0
  }

  /** yygindex */
  function Gindex(i: int): int {
    match i
    case 1 => 12
    case _ => 0
  }

  /** yydgoto */
  function Dgoto(i: int): int {
    match i
    case 0 => 10 case 1 => 11 case 2 => 12
    case _ => 0
  }

  /** yytable */
  function Table(i: int): int {
    match i
    case 0 => 20 case 1 => 18 case 2 => 1 case 3 => 15 case 4 => 16 case 5 => 17 case 6 => 18 case 7 => 19
    case 8 => 20 case 9 => 1 case 10 => 7 case 11 => 21 case 12 => 18 case 13 => 19 case 14 => 20 case 15 => 8
    case 16 => 8 case 17 => 9 case 19 => 6 case 20 => 13 case 21 => 14 case 22 => 19 case 23 => 20 case 24 => 4
    case 26 => 3 case 27 => 22 case 28 => 23 case 29 => 24 case 30 => 25 case 31 => 26 case 32 => 27 case 33 => 1
    case 34 => 2 case 35 => 3 case 36 => 4 case 37 => 5 case 38 => 6 case 39 => 7 case 40 => 8 case 41 => 9
    case 42 => 15 case 43 => 16 case 44 => 17 case 45 => 18 case 46 => 19 case 47 => 20 case 48 => 16 case 49 => 17
    case 50 => 18 case 51 => 19 case 52 => 20 case 53 => 17 case 54 => 18 case 55 => 19 case 56 => 20 case 259 => 18
    case 260 => 18 case 261 => 18 case 262 => 18 case 263 => 18 case 264 => 18 case 267 => 18 case 268 => 7
    case 269 => 7 case 270 => 7 case 271 => 7 case 272 => 7 case 273 => 8 case 274 => 8 case 275 => 8 case 276 => 7
    case 277 => 6 case 278 => 6 case 279 => 6 case 280 => 6 case 281 => 8 case 282 => 4 case 283 => 4 case 284 => 3
    case 285 => 6 case 290 => 4 case 292 => 3
    case _ => 0
  }

  /** yycheck */
  function Check(i: int): int {
    match i
    case 0 => 263 case 1 => 0 case 2 => 0 case 3 => 258 case 4 => 259 case 5 => 260 case 6 => 261 case 7 => 262
    case 8 => 263 case 9 => 257 case 10 => 0 case 11 => 266 case 12 => 261 case 13 => 262 case 14 => 263 case 15 => 0
    case 16 => 264 case 17 => 265 case 19 => 0 case 20 => 8 case 21 => 9 case 22 => 262 case 23 => 263 case 24 => 0
    case 26 => 0 case 27 => 15 case 28 => 16 case 29 => 17 case 30 => 18 case 31 => 19 case 32 => 20 case 33 => 257
    case 34 => 258 case 35 => 259 case 36 => 260 case 37 => 261 case 38 => 262 case 39 => 263 case 40 => 264
    case 41 => 265 case 42 => 258 case 43 => 259 case 44 => 260 case 45 => 261 case 46 => 262 case 47 => 263
    case 48 => 259 case 49 => 260 case 50 => 261 case 51 => 262 case 52 => 263 case 53 => 260 case 54 => 261
    case 55 => 262 case 56 => 263 case 259 => 258 case 260 => 259 case 261 => 260 case 262 => 261 case 263 => 262
    case 264 => 263 case 267 => 266 case 268 => 258 case 269 => 259 case 270 => 260 case 271 => 261 case 272 => 262
    case 273 => 258 case 274 => 259 case 275 => 260 case 276 => 266 case 277 => 258 case 278 => 259 case 279 => 260
    case 280 => 261 case 281 => 266 case 282 => 258 case 283 => 259 case 284 => 258 case 285 => 266 case 290 => 266
    case 292 => 266
    case _ => -1
  }

  const TABLESIZE := 292

  // ---------------------------------------------------------------- tokens and actions

  const EOF := 0
  const STRING := 257
  const OR := 258
  const AND := 259
  const COMPARE := 260
  const ADD := 261
  const MUL := 262
  const REG := 263
  const LENGTH := 264
  const LEFT := 265
  const RIGHT := 266

  predicate IsToken(c: int) {
    c == EOF || STRING <= c <= RIGHT
  }

  datatype Action = Shift(state: int) | Reduce(rule: int) | Reject

  /** The lookups of yyparse: the default reduction, a shift, a reduction, or an error. */
  function Lookup(state: int, c: int): Action {
    if DefRed(state) != 0 then Reduce(DefRed(state))
    else if Sindex(state) != 0 && 0 <= Sindex(state) + c <= TABLESIZE && Check(Sindex(state) + c) == c then
      Shift(Table(Sindex(state) + c))
    else if Rindex(state) != 0 && 0 <= Rindex(state) + c <= TABLESIZE && Check(Rindex(state) + c) == c then
      Reduce(Table(Rindex(state) + c))
    else Reject
  }

  /** The state behind a reduction. */
  function Goto(lhs: int, state: int): int {
    if Gindex(lhs) != 0 && 0 <= Gindex(lhs) + state <= TABLESIZE && Check(Gindex(lhs) + state) == state then
      Table(Gindex(lhs) + state)
    else Dgoto(lhs)
  }

  // ---------------------------------------------------------------- what they amount to

  predicate IsOp(c: int) {
    OR <= c <= REG
  }

  /** The precedence of an operator, from 1 for `|` to 6 for `:`. */
  function Prec(c: int): int {
    c - STRING
  }

  /** States that wait for an operand: the start, behind LENGTH, behind a parenthesis, behind an operator. */
  predicate Waits(state: int) {
    state == 0 || state == 8 || state == 9 || 15 <= state <= 20
  }

  /** Behind a right operand, the precedence of the operator in front of it. */
  function Bound(state: int): int {
    if state >= 22 then state - 21 else 0
  }

  /** The state behind an expression. */
  function OnExpr(state: int): int {
    if state == 8 then 13 else if state == 9 then 14 else if 15 <= state <= 20 then state + 7 else 11
  }

  /** The action the grammar asks for: an operand starts where one is expected (behind LENGTH only if it cannot
      be an operator), and behind an expression the operator with the higher precedence, or the left one, wins. */
  function Meant(state: int, c: int): Action {
    if 1 <= state <= 7 then Reduce(if state == 1 then 11 else if state == 2 then 15 else if state == 3 then 16
                                   else if state == 4 then 14 else if state == 5 then 12 else if state == 6 then 13 else 17)
    else if state == 8 then if c == STRING || c == LENGTH || c == LEFT then Shift(c - 256) else Reduce(18)
    else if state == 12 then Reduce(2)
    else if state == 13 then Reduce(10)
    else if state == 21 then Reduce(9)
    else if Waits(state) then if STRING <= c <= LEFT then Shift(c - 256) else Reject
    else if state == 11 || state == 14 then
      if IsOp(c) then Shift(14 + Prec(c))
      else if state == 11 && c == EOF then Reduce(1)
      else if state == 14 && c == RIGHT then Shift(21)
      else Reject
    else if 22 <= state <= 26 then
      if IsOp(c) && Prec(c) > Bound(state) then Shift(14 + Prec(c))
      else if IsOp(c) || c == EOF || c == RIGHT then Reduce(RuleOf(Bound(state)))
      else Reject
    else if state == 27 then Reduce(5)
    else Reject
  }

  /** The rule of an operator of that precedence. */
  function RuleOf(prec: int): int {
    if prec == 1 then 3 else if prec == 2 then 4 else if prec == 3 then 8 else if prec == 4 then 6
    else if prec == 5 then 7 else 5
  }

  /** The tables say what is meant, for every state and token. */
  lemma LookupIsMeant(state: int, c: int)
    requires 0 <= state < 28 && IsToken(c)
    ensures Lookup(state, c) == Meant(state, c)
  {
    if state < 8 {
    } else if state < 15 {
      OnOpen(state, c);
    } else if state < 21 {
      OnOperator(state, c);
    } else if state < 25 {
      OnLoose(state, c);
    } else if state < 27 {
      OnTight(state, c);
    }
  }

  lemma OnOpen(state: int, c: int)
    requires 8 <= state < 15 && IsToken(c)
    ensures Lookup(state, c) == Meant(state, c)
  {
  }

  lemma OnOperator(state: int, c: int)
    requires 15 <= state < 21 && IsToken(c)
    ensures Lookup(state, c) == Meant(state, c)
  {
  }

  lemma OnLoose(state: int, c: int)
    requires 21 <= state < 25 && IsToken(c)
    ensures Lookup(state, c) == Meant(state, c)
  {
  }

  lemma OnTight(state: int, c: int)
    requires 25 <= state < 27 && IsToken(c)
    ensures Lookup(state, c) == Meant(state, c)
  {
  }

  lemma GotoIsMeant(state: int)
    requires Waits(state)
    ensures Goto(1, state) == OnExpr(state) && Goto(2, state) == 12
  {
  }
}
