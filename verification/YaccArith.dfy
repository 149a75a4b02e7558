/** The values of expr (y.tab.c): integers read by strtoll, 64-bit arithmetic that is checked before it is done,
    and what the action of every grammar rule computes. */
module YaccArith {
  import opened Common
  import opened Strings
  import Numbers
  import YaccTables

  const LEAST := -0x8000_0000_0000_0000
  const MOST := 0x7fff_ffff_ffff_ffff

  /** int64_t; Dafny refuses any operation on it whose result does not fit. */
  newtype Int64 = n: int | LEAST <= n <= MOST

  /** The ways expr ends with an error. For a number out of range the message says which bound was passed. */
  datatype Failure = Syntax | NonInteger(text: Word) | OutOfRange(text: Word, tooBig: bool)
                   | Overflow(left: Word, op: Word, right: Word) | ByZero(op: Word) | BadPattern

  /** regcomp and regexec: where a match starts, how long it is, and what its first group holds. */
  datatype Match = Refused | Missed(groups: nat) | Found(start: nat, length: nat, groups: nat, group: Option<Word>)

  /** Matching, and the sign of strcoll. */
  datatype Env = Env(regex: (Word, Word) -> Match, collate: (Word, Word) -> int)

  // ---------------------------------------------------------------- strtoll

  predicate IsSpace(c: int) {
    c == 32 || 9 <= c <= 13
  }

  function Blanks(w: Word, i: nat): (j: nat)
    requires i <= |w|
    ensures i <= j <= |w|
    decreases |w| - i
  {
    if i < |w| && IsSpace(w[i]) then Blanks(w, i + 1) else i
  }

  predicate IsSign(c: int) {
    c == '+' as int || c == DASH
  }

  /** The number in front of w before it is cut to 64 bits, and where it ends. */
  function Scan(w: Word): (int, nat) {
    var p := Blanks(w, 0);
    var d := if IsSign(At(w, p)) then p + 1 else p;
    if !Numbers.IsDigit(At(w, d)) then (0, 0)
    else
      var (n, end) := Numbers.Value(w, d, 0);
      (if At(w, p) == DASH then 0 - n else n, end)
  }

  predicate Fits(n: int) {
    LEAST <= n <= MOST
  }

  function Clip(n: int): Int64 {
    if n < LEAST then LEAST as Int64 else if n > MOST then MOST as Int64 else n as Int64
  }

  /** strtoll with base 10: the value, the end, and whether it was out of range. */
  function Strtoll(w: Word): (Int64, nat, bool) {
    (Clip(Scan(w).0), Scan(w).1, !Fits(Scan(w).0))
  }

  /** is_zero_or_null */
  predicate IsZeroOrNull(w: Word) {
    w == [] || (Strtoll(w).0 == 0 && At(w, Strtoll(w).1) == EOS)
  }

  /** is_integer */
  predicate IsInteger(w: Word) {
    At(w, Strtoll(w).1) == EOS
  }

  /** The number a word stands for. */
  function Exact(w: Word): int {
    Scan(w).0
  }

  // ---------------------------------------------------------------- the exact results

  /** What an arithmetic operator gives on integers of any size. */
  function Compute(op: int, l: int, r: int): int
    requires r != 0 || !Divides(op)
  {
    if op == '+' as int then l + r
    else if op == DASH then l - r
    else if op == '/' as int then Numbers.Quotient(l, r)
    else if op == '%' as int then l - r * Numbers.Quotient(l, r)
    else if op == '*' as int then l * r
    else 0
  }

  predicate Divides(op: int) {
    op == '/' as int || op == '%' as int
  }

  /** The quotient is the one nearest to zero: what remains has the sign of l and is smaller than r. */
  lemma QuotientCutsOff(l: int, r: int)
    requires r != 0
    ensures var m := Compute('%' as int, l, r);
            && l == Compute('/' as int, l, r) * r + m
            && (if r < 0 then r < m < -r else -r < m < r)
            && (m == 0 || (m < 0) == (l < 0))
  {
    Numbers.QuotientCutsOff(l, r);
  }

  /** perform_arith_op: both operands have to be integers that fit, a divisor must not be 0, and the exact result
      has to fit; for a remainder also the quotient. */
  function Arith(left: Word, op: Word, right: Word): Result<int, Failure> {
    var l, r := Exact(left), Exact(right);
    if !IsInteger(left) then Err(NonInteger(left))
    else if !IsInteger(right) then Err(NonInteger(right))
    else if !Fits(l) then Err(OutOfRange(left, l > 0))
    else if !Fits(r) then Err(OutOfRange(right, l > 0))
    else if Divides(At(op, 0)) && r == 0 then Err(ByZero(op))
    else if Fits(Compute(At(op, 0), l, r)) && (At(op, 0) == '%' as int ==> Fits(Numbers.Quotient(l, r))) then
      Ok(Compute(At(op, 0), l, r))
    else Err(Overflow(left, op, right))
  }

  // ---------------------------------------------------------------- perform_arith_op

  function Trunc(l: Int64, r: Int64): (q: Int64)
    requires r != 0 && !(l as int == LEAST && r == -1)
    ensures q as int == Numbers.Quotient(l as int, r as int)
  {
    QuotientFits(l as int, r as int);
    Numbers.Quotient(l as int, r as int) as Int64
  }

  lemma QuotientFits(l: int, r: int)
    requires Fits(l) && Fits(r) && r != 0
    ensures Fits(Numbers.Quotient(l, r)) <==> !(l == LEAST && r == -1)
  {
    Numbers.QuotientShrinks(l, r);
  }

  method PerformArithOp(left: Word, op: Word, right: Word) returns (res: Result<Int64, Failure>)
    ensures match res case Ok(n) => Arith(left, op, right) == Ok(n as int) case Err(e) => Arith(left, op, right) == Err(e)
  {
    hide Scan, Numbers.Quotient;
    if !IsInteger(left) {
      return Err(NonInteger(left));
    }
    if !IsInteger(right) {
      return Err(NonInteger(right));
    }
    var (l, _, erange) := Strtoll(left);
    if erange {
      return Err(OutOfRange(left, l > 0));
    }
    var (r, _, erange2) := Strtoll(right);
    if erange2 {
      return Err(OutOfRange(right, l > 0));
    }
    if At(op, 0) == '+' as int {
      if (l >= 0 && r <= MOST as Int64 - l) || (l <= 0 && r >= LEAST as Int64 - l) {
        return Ok(l + r);
      }
    } else if At(op, 0) == DASH {
      if !((r > 0 && l < LEAST as Int64 + r) || (r < 0 && l > MOST as Int64 + r)) {
        return Ok(l - r);
      }
    } else if Divides(At(op, 0)) {
      if r == 0 {
        return Err(ByZero(op));
      }
      QuotientFits(l as int, r as int);
      if !(l == LEAST as Int64 && r == -1) {
        RemainderFits(l as int, r as int);
        var q := Trunc(l, r);
        return Ok(if At(op, 0) == '/' as int then q else (l as int - r as int * q as int) as Int64);
      }
    } else if At(op, 0) == '*' as int {
      var product := Multiply(l, r);
      if product.Some? {
        return Ok(product.value);
      }
    } else {
      return Ok(0);
    }
    res := Err(Overflow(left, op, right));
  }

  lemma RemainderFits(l: int, r: int)
    requires Fits(l) && Fits(r) && r != 0
    ensures Fits(l - r * Numbers.Quotient(l, r))
  {
    QuotientCutsOff(l, r);
  }

  /** The case of `*`: operands are negated and swapped until one comparison with a quotient decides. */
  method Multiply(left: Int64, right: Int64) returns (res: Option<Int64>)
    ensures res.Some? <==> Fits(left as int * right as int)
    ensures res.Some? ==> res.value as int == left as int * right as int
  {
    hide Numbers.Quotient;
    var l, r := left, right;
    if l < 0 && r < 0 && l != LEAST as Int64 && r != LEAST as Int64 {
      l := -l;
      r := -r;
    }
    if l < 0 && r >= 0 {
      var temporary := l;
      l := r;
      r := temporary;
    }
    ProductFits(l as int, r as int);
    assert l as int * r as int == left as int * right as int;
    if (l < 0 && r < 0)
       || (r > 0 && l > Trunc(MOST as Int64, r))
       || (r <= 0 && l != 0 && r < Trunc(LEAST as Int64, l)) {
      res := None;
    } else {
      res := Some((l as int * r as int) as Int64);
    }
  }

  lemma ProductFits(l: int, r: int)
    requires Fits(l) && Fits(r)
    ensures l >= 0 && r > 0 ==> (Fits(l * r) <==> l <= Numbers.Quotient(MOST, r))
    ensures l > 0 && r <= 0 ==> (Fits(l * r) <==> r >= Numbers.Quotient(LEAST, l))
    ensures l < 0 && r < 0 && (l == LEAST || r == LEAST) ==> !Fits(l * r)
  {
    if l >= 0 && r > 0 {
      AtMost(l, r, MOST);
      assert l * r >= 0;
    }
    if l > 0 && r <= 0 {
      AtMost(-r, l, -LEAST);
      assert l * -r == -(l * r);
      assert l * r <= 0;
    }
    if l < 0 && r < 0 {
      if l == LEAST { Numbers.Grows(-LEAST, 1, -r); } else if r == LEAST { Numbers.Grows(-LEAST, 1, -l); }
      assert (-l) * (-r) == l * r;
    }
  }

  lemma AtMost(a: nat, b: nat, bound: nat)
    requires b > 0
    ensures a * b <= bound <==> a <= bound / b
  {
    var q := bound / b;
    assert bound == q * b + bound % b;
    if a <= q {
      Numbers.Grows(b, a, q);
    } else {
      Numbers.Grows(b, q + 1, a);
      assert b * (q + 1) == q * b + b;
    }
  }

  // ---------------------------------------------------------------- what the checks mean

  /** The smallest integer has a remainder by -1, which is 0, but expr calls it an overflow; every other remainder
      by a divisor other than 0 is given. */
  lemma RemainderIsRefused(left: Word, right: Word)
    requires IsInteger(left) && IsInteger(right) && Fits(Exact(left)) && Fits(Exact(right)) && Exact(right) != 0
    ensures Fits(Compute('%' as int, Exact(left), Exact(right)))
    ensures Arith(left, Chars("%"), right).Err? <==> Exact(left) == LEAST && Exact(right) == -1
  {
    hide Scan, Numbers.Quotient;
    RemainderFits(Exact(left), Exact(right));
    QuotientFits(Exact(left), Exact(right));
  }

  /** The message about a right operand out of range looks at the left one: it names the bound that was passed
      if and only if both are positive or neither is. */
  lemma WrongBoundNamed(left: Word, op: Word, right: Word)
    requires IsInteger(left) && IsInteger(right) && Fits(Exact(left)) && !Fits(Exact(right))
    ensures Arith(left, op, right).Err? && Arith(left, op, right).error.OutOfRange?
    ensures Arith(left, op, right).error == OutOfRange(right, Exact(right) > MOST)
            <==> (Exact(left) > 0 <==> Exact(right) > 0)
  {
    hide Scan, Numbers.Quotient;
  }

  /** What an arithmetic operator prints is read back as the same integer. */
  lemma ReadsPrinted(n: int)
    ensures IsInteger(Numbers.Decimal(n)) && Exact(Numbers.Decimal(n)) == n
  {
    var w := Numbers.Decimal(n);
    if n < 0 {
      Numbers.ReadDigits([DASH], -n, []);
      assert [DASH] + Numbers.Digits(-n) + [] == w;
      assert w[1] == Numbers.Digits(-n)[0];
    } else {
      Numbers.ReadDigits([], n, []);
      assert [] + Numbers.Digits(n) + [] == w;
      assert Numbers.IsDigit(w[0]);
    }
  }

  /** The least integer modulo -1: the remainder is 0, and the answer an overflow. */
  lemma RemainderExample()
    ensures var least, minusOne := Numbers.Decimal(LEAST), Numbers.Decimal(-1);
            && Arith(least, Chars("%"), minusOne) == Err(Overflow(least, Chars("%"), minusOne))
            && Compute('%' as int, LEAST, -1) == 0
  {
    hide Scan, Numbers.Decimal;
    ReadsPrinted(LEAST);
    ReadsPrinted(-1);
    RemainderIsRefused(Numbers.Decimal(LEAST), Numbers.Decimal(-1));
  }

  /** -1 and the integer behind the greatest: the message says that it is too small. */
  lemma WrongBoundExample(op: Word)
    ensures var minusOne, big := Numbers.Decimal(-1), Numbers.Decimal(MOST + 1);
            Arith(minusOne, op, big) == Err(OutOfRange(big, false)) && Exact(big) > MOST
  {
    hide Scan, Numbers.Decimal;
    ReadsPrinted(-1);
    ReadsPrinted(MOST + 1);
  }

  // ---------------------------------------------------------------- comparison

  /** The relation an operator stands for. */
  predicate Holds(op: Word, l: int, r: int) {
    if At(op, 0) == '=' as int then l == r
    else if At(op, 0) == '>' as int then (if At(op, 1) == '=' as int then l >= r else l > r)
    else if At(op, 0) == '<' as int then (if At(op, 1) == '=' as int then l <= r else l < r)
    else At(op, 0) == '!' as int && l != r
  }

  const ZERO: Word := ['0' as int]
  const ONE: Word := ['1' as int]

  /** Rule 8: numbers are compared after they were cut to 64 bits, other words by the locale. */
  function Compare(env: Env, left: Word, op: Word, right: Word): Word {
    var (l, r) := if IsInteger(left) && IsInteger(right) then (Strtoll(left).0 as int, Strtoll(right).0 as int)
                  else (env.collate(left, right), 0);
    if Holds(op, l, r) then ONE else ZERO
  }

  /** An operator that yylex calls a comparison. */
  predicate IsCompare(op: Word) {
    || (|op| == 1 && (op[0] == '=' as int || op[0] == '<' as int || op[0] == '>' as int))
    || (|op| == 2 && op[1] == '=' as int && (op[0] == '<' as int || op[0] == '>' as int || op[0] == '!' as int))
  }

  /** Where the comparison of two integers is wrong: both lie at or beyond the same bound and differ. */
  predicate Blurred(l: int, r: int) {
    l != r && ((l >= MOST && r >= MOST) || (l <= LEAST && r <= LEAST))
  }

  /** Integers are compared exactly if and only if they do not both lie at or beyond the same bound: there `=`
      holds of different numbers. */
  lemma ComparesExactly(env: Env, left: Word, right: Word)
    requires IsInteger(left) && IsInteger(right)
    ensures Compare(env, left, Chars("="), right) == (if Exact(left) == Exact(right) then ONE else ZERO)
            <==> !Blurred(Exact(left), Exact(right))
    ensures !Blurred(Exact(left), Exact(right)) ==> forall op :: IsCompare(op) ==>
              Compare(env, left, op, right) == if Holds(op, Exact(left), Exact(right)) then ONE else ZERO
  {
    hide Scan;
    var l, r := Exact(left), Exact(right);
    assert Clip(l) == Clip(r) <==> l == r || Blurred(l, r);
    assert !Blurred(l, r) && l < r ==> Clip(l) < Clip(r);
    assert !Blurred(l, r) && l > r ==> Clip(l) > Clip(r);
  }

  /** The greatest integer and the one behind it are taken to be equal. */
  lemma CompareExample(env: Env)
    ensures Compare(env, Numbers.Decimal(MOST), Chars("="), Numbers.Decimal(MOST + 1)) == ONE
  {
    hide Scan, Numbers.Decimal;
    ReadsPrinted(MOST);
    ReadsPrinted(MOST + 1);
    ComparesExactly(env, Numbers.Decimal(MOST), Numbers.Decimal(MOST + 1));
  }

  // ---------------------------------------------------------------- the actions of the rules

  /** Rule 5: the group, or how long the match is, if it starts at the front. */
  function Matched(env: Env, left: Word, right: Word): Result<Word, Failure> {
    match env.regex(left, right)
    case Refused => Err(BadPattern)
    case Missed(groups) => Ok(if groups == 0 then ZERO else [])
    case Found(start, length, groups, group) =>
      if start == 0 then
        Ok(match group case Some(w) => w case None => Numbers.Decimal(length))
      else Ok(if groups == 0 then ZERO else [])
  }

  /** What rules 3 to 8 make of their operands. */
  function Act(env: Env, kind: int, left: Word, op: Word, right: Word): Result<Word, Failure> {
    if kind == YaccTables.OR then Ok(if !IsZeroOrNull(left) then left else right)
    else if kind == YaccTables.AND then Ok(if !IsZeroOrNull(left) && !IsZeroOrNull(right) then left else ZERO)
    else if kind == YaccTables.COMPARE then Ok(Compare(env, left, op, right))
    else if kind == YaccTables.REG then Matched(env, left, right)
    else var n :- Arith(left, op, right); Ok(Numbers.Decimal(n))
  }
}
