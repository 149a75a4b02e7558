/** Decimal numbers of set.c: putn and getn on 32-bit integers that wrap around. */
module Numbers {
  import opened Common
  import opened Strings

  const MIN := -0x8000_0000
  const MAX := 0x7fff_ffff

  /** What an int holds after arithmetic. */
  function Wrap(n: int): (r: int)
    ensures MIN <= r <= MAX
  {
    (n + 0x8000_0000) % 0x1_0000_0000 - 0x8000_0000
  }

  lemma WrapIs(n: int, k: int)
    ensures Wrap(n + k * 0x1_0000_0000) == Wrap(n)
    ensures MIN <= n <= MAX ==> Wrap(n) == n
  {
    ModPlus(n + 0x8000_0000, k);
  }

  lemma ModPlus(n: int, k: int)
    ensures (n + k * 0x1_0000_0000) % 0x1_0000_0000 == n % 0x1_0000_0000
  {
  }

  /** Wrapping early or late makes no difference. */
  lemma WrapStep(n: int, a: int, b: int)
    ensures Wrap(Wrap(n) * a + b) == Wrap(n * a + b)
  {
    var k := (Wrap(n) - n) / 0x1_0000_0000;
    assert Wrap(n) == n + k * 0x1_0000_0000;
    assert Wrap(n) * a + b == n * a + b + (k * a) * 0x1_0000_0000;
    WrapIs(n * a + b, k * a);
  }

  /** Division that cuts off towards zero. */
  function Quotient(a: int, b: int): int
    requires b != 0
  {
    var q := (if a < 0 then -a else a) / (if b < 0 then -b else b);
    if (a < 0) == (b < 0) then q else -q
  }

  /** Quotient and remainder make up the dividend; the remainder is smaller than the divisor, and has the sign of the
      dividend. */
  lemma QuotientCutsOff(a: int, b: int)
    requires b != 0
    ensures var q := Quotient(a, b);
            var m := a - b * q;
            && a == q * b + m && (if b < 0 then b < m < -b else -b < m < b) && (m == 0 || (m < 0) == (a < 0))
  {
    var x, y := if a < 0 then -a else a, if b < 0 then -b else b;
    assert x == (x / y) * y + x % y;
    var q := Quotient(a, b);
    if (a < 0) == (b < 0) {
      assert q == x / y;
      if b < 0 { assert q * b == -((x / y) * y); } else { assert q * b == (x / y) * y; }
    } else {
      assert q == -(x / y);
      if b < 0 { assert q * b == (x / y) * y; } else { assert q * b == -((x / y) * y); }
    }
  }

  /** A quotient is no larger than the dividend, and smaller unless the divisor is 1 or -1. */
  lemma QuotientShrinks(a: int, b: int)
    requires b != 0
    ensures var q, x := Quotient(a, b), if a < 0 then -a else a;
            -x <= q <= x && (b != 1 && b != -1 && x > 1 ==> -x < q < x) && (b == 1 ==> q == a) && (b == -1 ==> q == -a)
  {
    Shrinks(if a < 0 then -a else a, if b < 0 then -b else b);
  }

  lemma Shrinks(a: nat, b: nat)
    requires b > 0
    ensures 0 <= a / b <= a
    ensures b > 1 && a > 1 ==> a / b < a
    ensures b == 1 ==> a / b == a
  {
    assert a == (a / b) * b + a % b;
    if b > 1 && a / b >= a && a > 1 {
      Grows(a / b, 2, b);
      assert false;
    }
    if b > 0 && a / b > a {
      Grows(a / b, 1, b);
      assert false;
    }
  }

  lemma Grows(a: nat, b: nat, c: nat)
    requires b <= c
    ensures a * b <= a * c
  {
  }

  /** The quotient that leaves a remainder in range is the only one. */
  lemma OnlyQuotient(a: int, n: nat, q: int, r: int)
    requires n > 0 && a == q * n + r && 0 <= r < n
    ensures a / n == q
  {
    var p, s := a / n, a % n;
    assert a == p * n + s;
    assert (p - q) * n == r - s;
    if p > q {
      Grows(n, 1, p - q);
    } else if p < q {
      Grows(n, 1, q - p);
    }
  }

  predicate IsDigit(c: int) {
    '0' as int <= c <= '9' as int
  }

  function Digit(d: nat): Char
    requires d < 10
  {
    '0' as int + d
  }

  /** The decimal digits of a number. */
  function Digits(n: nat): (w: Word)
    ensures w != [] && forall i :: 0 <= i < |w| ==> IsDigit(w[i])
  {
    if n > 9 then Digits(n / 10) + [Digit(n % 10)] else [Digit(n)]
  }

  function Decimal(n: int): Word {
    if n < 0 then [DASH] + Digits(-n) else Digits(n)
  }

  // ---------------------------------------------------------------- putn

  /** putn1 */
  method Putn1(n: nat, putp: Word) returns (r: Word)
    ensures r == putp + Digits(n)
    decreases n
  {
    r := putp;
    if n > 9 {
      r := Putn1(n / 10, r);
    }
    r := r + [Digit(n % 10)];
  }

  /** putn; the negation of the least number is itself. */
  method Putn(num: int) returns (r: Word)
    requires MIN <= num <= MAX
    ensures r == Decimal(num)
    ensures |r| < 15
  {
    hide Wrap, Digits;
    NegFits(num);
    LeastDigits();
    DigitsShort(if num < 0 then -num else num);
    var n, putp: Word := num, [];
    if n < 0 {
      n := Wrap(-n);
      putp := [DASH];
    }
    if n == MIN {
      putp := putp + [Digit(2)];
      n := 147483648;
    }
    r := Putn1(n, putp);
  }

  lemma NegFits(n: int)
    requires MIN <= n <= MAX
    ensures Wrap(-n) == if n == MIN then MIN else -n
  {
  }

  lemma LeastDigits()
    ensures Digits(0x8000_0000) == [Digit(2)] + Digits(147483648)
  {
    assert Power(4) == 10000;
    assert Power(8) == 100000000;
    assert Power(9) == 1000000000;
    FirstDigit(147483648, 9);
  }

  function Power(k: nat): nat {
    if k == 0 then 1 else 10 * Power(k - 1)
  }

  /** A 2 in front of a number of k digits. */
  lemma {:induction false} FirstDigit(n: nat, k: nat)
    requires k > 0 && Power(k - 1) <= n < Power(k)
    ensures Digits(2 * Power(k) + n) == [Digit(2)] + Digits(n)
    decreases k
  {
    if k > 1 {
      assert (2 * Power(k) + n) / 10 == 2 * Power(k - 1) + n / 10;
      FirstDigit(n / 10, k - 1);
    } else {
      assert Digits(20 + n) == Digits(2) + [Digit(n)];
    }
  }

  lemma {:induction false} DigitsLength(n: nat, k: nat)
    requires k > 0 && n < Power(k)
    ensures |Digits(n)| <= k
    decreases k
  {
    if n > 9 {
      DigitsLength(n / 10, k - 1);
    }
  }

  lemma DigitsShort(n: nat)
    requires n <= 0x8000_0000
    ensures |Digits(n)| <= 10
  {
    assert Power(10) == 10000000000;
    DigitsLength(n, 10);
  }

  // ---------------------------------------------------------------- getn

  /** The number the digits at the front of w continue n to, and where they end. */
  function Value(w: Word, i: nat, n: nat): (nat, nat)
    requires i <= |w|
    decreases |w| - i
  {
    if i < |w| && IsDigit(w[i]) then Value(w, i + 1, n * 10 + (w[i] - '0' as int)) else (n, i)
  }

  /** What getn reads: a sign, digits, and nothing else. */
  function Read(w: Word): Option<int> {
    var p := if At(w, 0) == '+' as int && At(w, 1) != EOS then 1 else 0;
    var sign := At(w, p) == DASH;
    var p := if sign then p + 1 else p;
    if sign && !IsDigit(At(w, p)) then None
    else
      var (n, end) := Value(w, p, 0);
      if end < |w| then None else Some(Wrap(if sign then 0 - n else n))
  }

  lemma NegWrap(n: int)
    ensures Wrap(-Wrap(n)) == Wrap(-n)
  {
    WrapStep(n, -1, 0);
  }

  method Getn(w: Word) returns (r: Option<int>)
    ensures r == Read(w)
  {
    var cp, sign := 0, false;
    if At(w, 0) == '+' as int && At(w, 1) != EOS {
      cp := 1;
    }
    if At(w, cp) == DASH {
      sign := true;
      cp := cp + 1;
      if !IsDigit(At(w, cp)) {
        return None;
      }
    }
    var n := 0;
    ghost var m, start := 0, cp;
    while IsDigit(At(w, cp))
      invariant start <= cp <= |w| && m >= 0 && n == Wrap(m)
      invariant Value(w, start, 0) == Value(w, cp, m)
      decreases |w| - cp
    {
      WrapStep(m, 10, w[cp] - '0' as int);
      n := Wrap(n * 10 + (At(w, cp) - '0' as int));
      m := m * 10 + (w[cp] - '0' as int);
      cp := cp + 1;
    }
    if At(w, cp) != EOS {
      return None;
    }
    NegWrap(m);
    WrapIs(n, 0);
    r := Some(if sign then Wrap(-n) else n);
  }

  // ---------------------------------------------------------------- the round trip

  /** Reading digits behind a prefix gives the number back. */
  lemma {:induction false} ReadDigits(p: Word, n: nat, rest: Word)
    requires rest == [] || !IsDigit(rest[0])
    ensures Value(p + Digits(n) + rest, |p|, 0) == (n, |p| + |Digits(n)|)
  {
    ReadOn(p, n, rest);
    ReadEnd(p + Digits(n) + rest, |p + Digits(n)|, n);
    assert p + Digits(n) == (p + Digits(n))[..];
  }

  lemma ReadEnd(w: Word, i: nat, n: nat)
    requires i <= |w| && (i == |w| || !IsDigit(w[i]))
    ensures Value(w, i, n) == (n, i)
  {
  }

  lemma {:induction false} ReadOn(p: Word, n: nat, rest: Word)
    ensures Value(p + Digits(n) + rest, |p|, 0) == Value(p + Digits(n) + rest, |p| + |Digits(n)|, n)
    decreases n
  {
    var w := p + Digits(n) + rest;
    if n > 9 {
      var d: Word := [Digit(n % 10)];
      assert w == p + Digits(n / 10) + (d + rest);
      ReadOn(p, n / 10, d + rest);
      var k := |p| + |Digits(n / 10)|;
      assert w[k] == Digit(n % 10);
      assert Value(w, k, n / 10) == Value(w, k + 1, n / 10 * 10 + n % 10);
    } else {
      assert w[|p|] == Digit(n);
    }
  }

  /** getn reads back every number putn writes. */
  lemma ReadDecimal(n: int)
    requires MIN <= n <= MAX
    ensures Read(Decimal(n)) == Some(n)
  {
    var w := Decimal(n);
    WrapIs(n, 0);
    if n < 0 {
      ReadDigits([DASH], -n, []);
      assert [DASH] + Digits(-n) + [] == w;
      assert w[1] == Digits(-n)[0];
    } else {
      ReadDigits([], n, []);
      assert [] + Digits(n) + [] == w;
      assert IsDigit(w[0]);
    }
  }

  // ---------------------------------------------------------------- what getn takes for a number

  /** The number that digits stand for. */
  function Sum(ds: Word): int {
    if ds == [] then 0 else 10 * Sum(ds[..|ds| - 1]) + (ds[|ds| - 1] - '0' as int)
  }

  predicate AllDigits(ds: Word) {
    forall i :: 0 <= i < |ds| ==> IsDigit(ds[i])
  }

  lemma {:induction false} ValueIsSum(p: Word, ds: Word, k: nat, rest: Word)
    requires AllDigits(ds) && k <= |ds| && (rest == [] || !IsDigit(rest[0])) && Sum(ds[..k]) >= 0
    ensures Sum(ds) >= 0 && Value(p + ds + rest, |p| + k, Sum(ds[..k])) == (Sum(ds), |p| + |ds|)
    decreases |ds| - k
  {
    var w := p + ds + rest;
    if k == |ds| {
      assert ds[..k] == ds;
      if rest != [] {
        assert w[|p| + k] == rest[0];
      }
    } else {
      assert w[|p| + k] == ds[k];
      var next := ds[..k + 1];
      assert next[..k] == ds[..k] && next[k] == ds[k];
      ValueIsSum(p, ds, k + 1, rest);
    }
  }

  /** Digits, perhaps with leading zeros and a sign, stand for their number, wrapped to 32 bits; with anything behind
      them they are no number. */
  lemma ReadSpells(ds: Word, rest: Word)
    requires ds != [] && AllDigits(ds) && (rest == [] || !IsDigit(rest[0]))
    ensures Read(ds + rest) == if rest == [] then Some(Wrap(Sum(ds))) else None
    ensures Read(['+' as int] + ds + rest) == if rest == [] then Some(Wrap(Sum(ds))) else None
    ensures Read([DASH] + ds + rest) == if rest == [] then Some(Wrap(-Sum(ds))) else None
  {
    hide Wrap;
    var plus: Word := ['+' as int];
    var dash: Word := [DASH];
    assert ds[..0] == [] && ds[0] == ds[0];
    ValueIsSum([], ds, 0, rest);
    ValueIsSum(plus, ds, 0, rest);
    ValueIsSum(dash, ds, 0, rest);
    assert [] + ds + rest == ds + rest && (ds + rest)[0] == ds[0];
    assert (plus + ds + rest)[1] == ds[0] && (dash + ds + rest)[1] == ds[0];
    assert 0 - Sum(ds) == -Sum(ds);
  }

  /** The empty word counts as 0; a sign by itself is no number. */
  lemma ReadNothing()
    ensures Read([]) == Some(0) && Read(['+' as int]) == None && Read([DASH]) == None
  {
  }
}
