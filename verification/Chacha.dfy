/** The stream cipher of chacha_private.h: quarter rounds and blocks as in sections 2.1 and 2.3 of RFC 8439,
    with a counter of two words and a nonce of two words, and encryption through a block buffer. */
module Chacha {
  type Byte = bv8
  type Cell = bv32

  // ---------------------------------------------------------------- the block function

  /** ROTATE by the four distances of a quarter round. */
  function Rot16(v: Cell): Cell { (v << 16) | (v >> 16) }
  function Rot12(v: Cell): Cell { (v << 12) | (v >> 20) }
  function Rot8(v: Cell): Cell { (v << 8) | (v >> 24) }
  function Rot7(v: Cell): Cell { (v << 7) | (v >> 25) }

  /** QUARTERROUND */
  function Quarter(a: Cell, b: Cell, c: Cell, d: Cell): (Cell, Cell, Cell, Cell) {
    var a := a + b; var d := Rot16(d ^ a);
    var c := c + d; var b := Rot12(b ^ c);
    var a := a + b; var d := Rot8(d ^ a);
    var c := c + d; var b := Rot7(b ^ c);
    (a, b, c, d)
  }

  /** The example of section 2.1.1 of RFC 8439. */
  lemma QuarterExample()
    ensures Quarter(0x11111111, 0x01020304, 0x9b8d6f43, 0x01234567) == (0xea2a92f4, 0xcb1cf8ce, 0x4581472e, 0x5881c4bb)
  {
  }

  type State = s: seq<Cell> | |s| == 16 witness seq(16, _ => 0)

  function QuarterAt(s: State, a: nat, b: nat, c: nat, d: nat): State
    requires a < 16 && b < 16 && c < 16 && d < 16
  {
    var (x, y, z, w) := Quarter(s[a], s[b], s[c], s[d]);
    s[a := x][b := y][c := z][d := w]
  }

  /** Four columns, then four diagonals. */
  function DoubleRound(s: State): State {
    var s := QuarterAt(s, 0, 4, 8, 12);
    var s := QuarterAt(s, 1, 5, 9, 13);
    var s := QuarterAt(s, 2, 6, 10, 14);
    var s := QuarterAt(s, 3, 7, 11, 15);
    var s := QuarterAt(s, 0, 5, 10, 15);
    var s := QuarterAt(s, 1, 6, 11, 12);
    var s := QuarterAt(s, 2, 7, 8, 13);
    QuarterAt(s, 3, 4, 9, 14)
  }

  function Rounds(s: State, n: nat): State
    decreases n
  {
    if n == 0 then s else Rounds(DoubleRound(s), n - 1)
  }

  /** Twenty rounds, added to where they started. */
  function Block(j: State): State {
    seq(16, i requires 0 <= i < 16 => Rounds(j, 10)[i] + j[i])
  }

  /** U32TO8_LITTLE: byte k of a word, lowest first. */
  function Nth(v: Cell, k: nat): Byte
    requires k < 4
  {
    var b := if k == 0 then v else if k == 1 then v >> 8 else if k == 2 then v >> 16 else v >> 24;
    (b & 0xff) as Byte
  }

  /** U8TO32_LITTLE */
  function Little(a: Byte, b: Byte, c: Byte, d: Byte): Cell {
    (a as Cell) | ((b as Cell) << 8) | ((c as Cell) << 16) | ((d as Cell) << 24)
  }

  /** The bytes of a key stream block. */
  function Serial(s: State): (r: seq<Byte>)
    ensures |r| == 64
  {
    seq(64, i requires 0 <= i < 64 => Nth(s[i / 4], i % 4))
  }

  /** XOR of words and of bytes. */
  function XorCell(v: Cell, w: Cell): Cell { v ^ w }
  function Xor(a: Byte, b: Byte): Byte { a ^ b }

  /** Xor on words and on bytes is the same. */
  lemma XorLow(v: Cell, a: Byte, b: Byte, c: Byte, d: Byte)
    ensures Nth(XorCell(v, Little(a, b, c, d)), 0) == Xor(Nth(v, 0), a) && Nth(XorCell(v, Little(a, b, c, d)), 1) == Xor(Nth(v, 1), b)
  {
  }

  lemma XorHigh(v: Cell, a: Byte, b: Byte, c: Byte, d: Byte)
    ensures Nth(XorCell(v, Little(a, b, c, d)), 2) == Xor(Nth(v, 2), c) && Nth(XorCell(v, Little(a, b, c, d)), 3) == Xor(Nth(v, 3), d)
  {
  }

  // ---------------------------------------------------------------- the counter

  /** PLUSONE */
  function PlusOne(v: Cell): Cell { v + 1 }

  function Number(b: Byte): int { b as int }

  /** The number a word stands for. */
  function Unsigned(v: Cell): int {
    Number(Nth(v, 0)) + 0x100 * Number(Nth(v, 1)) + 0x1_0000 * Number(Nth(v, 2)) + 0x100_0000 * Number(Nth(v, 3))
  }

  const WORDS := 0x1_0000_0000
  const COUNTERS := 0x1_0000_0000_0000_0000

  /** The block counter, in words 12 and 13, the low one first. */
  function Counter(j: State): int {
    Unsigned(j[12]) + Unsigned(j[13]) * WORDS
  }

  function PlusOneByte(b: Byte): Byte { b + 1 }

  lemma ByteCounts(b: Byte)
    ensures 0 <= Number(b) <= 0xff && (Number(b) == 0xff <==> b == 0xff)
    ensures Number(PlusOneByte(b)) == if b == 0xff then 0 else Number(b) + 1
  {
  }

  /** How far the carry goes. */
  lemma Carries(v: Cell)
    ensures var w := PlusOne(v);
            && Nth(w, 0) == PlusOneByte(Nth(v, 0))
            && Nth(w, 1) == (if Nth(v, 0) == 0xff then PlusOneByte(Nth(v, 1)) else Nth(v, 1))
            && Nth(w, 2) == (if Nth(v, 0) == 0xff && Nth(v, 1) == 0xff then PlusOneByte(Nth(v, 2)) else Nth(v, 2))
            && Nth(w, 3) == (if Nth(v, 0) == 0xff && Nth(v, 1) == 0xff && Nth(v, 2) == 0xff then PlusOneByte(Nth(v, 3)) else Nth(v, 3))
            && (w == 0 <==> Nth(v, 0) == 0xff && Nth(v, 1) == 0xff && Nth(v, 2) == 0xff && Nth(v, 3) == 0xff)
  {
  }

  /** Adding one to a word adds one to its number, modulo 2^32. */
  lemma CellCounts(v: Cell)
    ensures 0 <= Unsigned(v) < WORDS && Unsigned(PlusOne(v)) == (Unsigned(v) + 1) % WORDS
  {
    hide Nth, PlusOne, Number;
    var w := PlusOne(v);
    BytesCount(v);
    Ripple(Number(Nth(v, 0)), Number(Nth(v, 1)), Number(Nth(v, 2)), Number(Nth(v, 3)),
           Number(Nth(w, 0)), Number(Nth(w, 1)), Number(Nth(w, 2)), Number(Nth(w, 3)));
  }

  /** Each byte counts on where the carry reaches it. */
  lemma BytesCount(v: Cell)
    ensures var a, b, c, d := Number(Nth(v, 0)), Number(Nth(v, 1)), Number(Nth(v, 2)), Number(Nth(v, 3));
            var w := PlusOne(v);
            && 0 <= a <= 0xff && 0 <= b <= 0xff && 0 <= c <= 0xff && 0 <= d <= 0xff
            && Number(Nth(w, 0)) == Next(a, true) && Number(Nth(w, 1)) == Next(b, a == 0xff)
            && Number(Nth(w, 2)) == Next(c, a == 0xff && b == 0xff)
            && Number(Nth(w, 3)) == Next(d, a == 0xff && b == 0xff && c == 0xff)
  {
    hide Nth, PlusOne, PlusOneByte, Number;
    Carries(v);
    ByteCounts(Nth(v, 0));
    ByteCounts(Nth(v, 1));
    ByteCounts(Nth(v, 2));
    ByteCounts(Nth(v, 3));
  }

  lemma CellWraps(v: Cell)
    ensures PlusOne(v) == 0 <==> Unsigned(v) == WORDS - 1
  {
    hide Nth, PlusOne, PlusOneByte, Number;
    Carries(v);
    ByteCounts(Nth(v, 0));
    ByteCounts(Nth(v, 1));
    ByteCounts(Nth(v, 2));
    ByteCounts(Nth(v, 3));
  }

  function Next(n: int, carry: bool): int {
    if !carry then n else if n == 0xff then 0 else n + 1
  }

  /** A carry through four digits. */
  lemma Ripple(a: int, b: int, c: int, d: int, p: int, q: int, r: int, s: int)
    requires 0 <= a <= 0xff && 0 <= b <= 0xff && 0 <= c <= 0xff && 0 <= d <= 0xff
    requires p == Next(a, true) && q == Next(b, a == 0xff) && r == Next(c, a == 0xff && b == 0xff)
    requires s == Next(d, a == 0xff && b == 0xff && c == 0xff)
    ensures var n := a + 0x100 * b + 0x1_0000 * c + 0x100_0000 * d;
            && 0 <= n < WORDS && p + 0x100 * q + 0x1_0000 * r + 0x100_0000 * s == (n + 1) % WORDS
  {
  }

  /** One block on: the low word counts, and carries into the high one when it wraps to 0. */
  function Step(j: State): State {
    var j := j[12 := PlusOne(j[12])];
    if j[12] == 0 then j[13 := PlusOne(j[13])] else j
  }

  /** The state n blocks later. */
  function Later(j: State, n: nat): State
    decreases n
  {
    if n == 0 then j else Step(Later(j, n - 1))
  }

  /** A step adds one, modulo 2^64. */
  lemma StepCounts(j: State)
    ensures 0 <= Counter(j) < COUNTERS && Counter(Step(j)) == (Counter(j) + 1) % COUNTERS
  {
    hide Unsigned, PlusOne;
    CellCounts(j[12]);
    CellWraps(j[12]);
    CellCounts(j[13]);
    CellCounts(PlusOne(j[12]));
  }

  /** The two words count blocks modulo 2^64. */
  lemma {:induction false} LaterCounts(j: State, n: nat)
    ensures Counter(Later(j, n)) == (Counter(j) + n) % COUNTERS
    decreases n
  {
    hide Counter, PlusOne, Step;
    StepCounts(j);
    if n > 0 {
      LaterCounts(j, n - 1);
      StepCounts(Later(j, n - 1));
      ModStep(Counter(j) + n - 1);
    }
  }

  lemma ModStep(n: int)
    ensures (n % COUNTERS + 1) % COUNTERS == (n + 1) % COUNTERS
  {
  }

  /** Nothing but the counter changes. */
  lemma {:induction false} LaterKeeps(j: State, n: nat)
    ensures Later(j, n)[..12] == j[..12] && Later(j, n)[14..] == j[14..]
    decreases n
  {
    hide PlusOne;
    if n > 0 {
      LaterKeeps(j, n - 1);
    }
  }

  lemma {:induction false} LaterTwice(j: State, m: nat, n: nat)
    ensures Later(Later(j, m), n) == Later(j, m + n)
    decreases n
  {
    if n > 0 {
      hide Step;
      LaterTwice(j, m, n - 1);
    }
  }

  // ---------------------------------------------------------------- the key stream

  /** Byte k of the key stream. */
  function KeyByte(j: State, k: nat): Byte {
    Serial(Block(Later(j, k / 64)))[k % 64]
  }

  /** A message under the key stream. */
  function Crypt(j: State, m: seq<Byte>): (c: seq<Byte>)
    ensures |c| == |m|
  {
    seq(|m|, k requires 0 <= k < |m| => Xor(m[k], KeyByte(j, k)))
  }

  function Blocks(n: nat): nat {
    (n + 63) / 64
  }

  /** Decryption is encryption from the same state. */
  lemma CryptTwice(j: State, m: seq<Byte>)
    ensures Crypt(j, Crypt(j, m)) == m
  {
    hide KeyByte, Xor;
    var c := Crypt(j, m);
    forall k | 0 <= k < |m| ensures Crypt(j, c)[k] == m[k] {
      XorTwice(m[k], KeyByte(j, k));
    }
  }

  lemma XorTwice(a: Byte, b: Byte)
    ensures Xor(Xor(a, b), b) == a
  {
  }

  /** A message may be cut at a block boundary. */
  lemma CryptSplit(j: State, a: seq<Byte>, b: seq<Byte>)
    requires |a| % 64 == 0
    ensures Crypt(j, a + b) == Crypt(j, a) + Crypt(Later(j, |a| / 64), b)
  {
    hide KeyByte, Later, Xor;
    var c, d := Crypt(j, a + b), Crypt(j, a) + Crypt(Later(j, |a| / 64), b);
    forall k | 0 <= k < |a| + |b| ensures c[k] == d[k] {
      if k >= |a| {
        KeyByteLater(j, |a|, k - |a|);
      }
    }
  }

  lemma KeyByteLater(j: State, n: nat, i: nat)
    requires n % 64 == 0
    ensures KeyByte(j, n + i) == KeyByte(Later(j, n / 64), i)
  {
    hide Block, Serial, Later;
    assert (n + i) / 64 == n / 64 + i / 64 && (n + i) % 64 == i % 64;
    LaterTwice(j, n / 64, i / 64);
  }

  // ---------------------------------------------------------------- chacha_encrypt_bytes

  lemma OneRound(s: State, n: nat)
    requires n > 0
    ensures Rounds(s, n) == Rounds(DoubleRound(s), n - 1)
  {
  }

  /** The words of a block under the key stream. */
  function Mixed(j: State, b: seq<Byte>): State
    requires |b| == 64
  {
    seq(16, i requires 0 <= i < 16 => XorCell(Block(j)[i], Words(b)[i]))
  }

  lemma MixedBytes(j: State, b: seq<Byte>)
    requires |b| == 64
    ensures Serial(Mixed(j, b)) == Xored(b, Serial(Block(j)))
  {
    hide Serial, Mixed, Xor, Block;
    var w, u := Serial(Mixed(j, b)), Xored(b, Serial(Block(j)));
    forall k | 0 <= k < 64 ensures w[k] == u[k] {
      MixedByte(j, b, k / 4, k % 4);
    }
  }

  lemma MixedByte(j: State, b: seq<Byte>, i: nat, t: nat)
    requires |b| == 64 && i < 16 && t < 4
    ensures Serial(Mixed(j, b))[4 * i + t] == Xor(b[4 * i + t], Serial(Block(j))[4 * i + t])
  {
    hide Block, Nth, Little, Xor, XorCell;
    assert (4 * i + t) / 4 == i && (4 * i + t) % 4 == t;
    var v, key := Mixed(j, b)[i], Block(j)[i];
    XorByte(key, b[4 * i..4 * i + 4], t);
    XorCommutes(b[4 * i + t], Nth(key, t));
  }

  lemma XorByte(v: Cell, b: seq<Byte>, t: nat)
    requires |b| == 4 && t < 4
    ensures Nth(XorCell(v, Little(b[0], b[1], b[2], b[3])), t) == Xor(Nth(v, t), b[t])
  {
    hide Nth, Little, Xor, XorCell;
    XorLow(v, b[0], b[1], b[2], b[3]);
    XorHigh(v, b[0], b[1], b[2], b[3]);
    if t == 0 {
    } else if t == 1 {
    } else if t == 2 {
    } else {
      assert t == 3;
    }
  }

  lemma XorCommutes(a: Byte, b: Byte)
    ensures Xor(a, b) == Xor(b, a)
  {
  }

  /** The rounds of a block, two at a time. */
  method TwentyRounds(j: State) returns (x: State)
    ensures x == Rounds(j, 10)
  {
    hide Rounds, Quarter;
    x := j;
    var i := 20;
    while i > 0
      invariant i % 2 == 0 && 0 <= i && Rounds(j, 10) == Rounds(x, i / 2)
    {
      OneRound(x, i / 2);
      x := QuarterAt(x, 0, 4, 8, 12);
      x := QuarterAt(x, 1, 5, 9, 13);
      x := QuarterAt(x, 2, 6, 10, 14);
      x := QuarterAt(x, 3, 7, 11, 15);
      x := QuarterAt(x, 0, 5, 10, 15);
      x := QuarterAt(x, 1, 6, 11, 12);
      x := QuarterAt(x, 2, 7, 8, 13);
      x := QuarterAt(x, 3, 4, 9, 14);
      i := i - 2;
    }
    NoRounds(x);
  }

  /** One turn of the loop of chacha_encrypt_bytes on 64 bytes, which may be written back where they came
      from. */
  method EncryptBlock(j: State, m: array<Byte>, mi: nat, c: array<Byte>, ci: nat)
    requires mi + 64 <= m.Length && ci + 64 <= c.Length
    modifies c
    ensures c[ci..ci + 64] == Xored(old(m[mi..mi + 64]), Serial(Block(j)))
    ensures forall i :: 0 <= i < c.Length && !(ci <= i < ci + 64) ==> c[i] == old(c[i])
  {
    hide Rounds, Nth, Little, Xored, Serial, XorCell;
    var x := TwentyRounds(j);
    var b := m[mi..mi + 64];
    x := seq(16, k requires 0 <= k < 16 => x[k] + j[k]);
    assert x == Block(j);
    x := seq(16, k requires 0 <= k < 16 => XorCell(x[k], Words(b)[k]));
    assert x == Mixed(j, b);
    MixedBytes(j, b);
    WriteWords(x, c, ci);
  }

  lemma NoRounds(s: State)
    ensures Rounds(s, 0) == s
  {
  }

  method WriteWords(x: State, c: array<Byte>, ci: nat)
    requires ci + 64 <= c.Length
    modifies c
    ensures c[ci..ci + 64] == Serial(x)
    ensures forall i :: 0 <= i < c.Length && !(ci <= i < ci + 64) ==> c[i] == old(c[i])
  {
    hide Nth;
    for i := 0 to 16
      invariant forall k :: 0 <= k < 4 * i ==> c[ci + k] == Serial(x)[k]
      invariant forall k :: 0 <= k < c.Length && !(ci <= k < ci + 64) ==> c[k] == old(c[k])
    {
      var p := ci + 4 * i;
      c[p], c[p + 1], c[p + 2], c[p + 3] := Nth(x[i], 0), Nth(x[i], 1), Nth(x[i], 2), Nth(x[i], 3);
    }
  }

  /** The text `expand 32-byte k`, or with 16. */
  function Constants(a: Byte, b: Byte): seq<Byte> {
    [0x65, 0x78, 0x70, 0x61, 0x6e, 0x64, 0x20, a, b, 0x2d, 0x62, 0x79, 0x74, 0x65, 0x20, 0x6b]
  }

  const SIGMA: seq<Byte> := Constants(0x33, 0x32)
  const TAU: seq<Byte> := Constants(0x31, 0x36)

  function Words(b: seq<Byte>): (w: seq<Cell>)
    requires |b| % 4 == 0
    ensures |w| == |b| / 4
  {
    seq(|b| / 4, i requires 0 <= i < |b| / 4 => Little(b[4 * i], b[4 * i + 1], b[4 * i + 2], b[4 * i + 3]))
  }

  function Xored(b: seq<Byte>, key: seq<Byte>): (r: seq<Byte>)
    requires |key| >= |b|
    ensures |r| == |b|
  {
    seq(|b|, k requires 0 <= k < |b| => Xor(b[k], key[k]))
  }

  lemma LaterNone(j: State)
    ensures Later(j, 0) == j
  {
  }

  lemma LaterNext(j: State, n: nat)
    ensures Later(j, n + 1) == Step(Later(j, n))
  {
  }

  lemma OnlyCounters(j: State, n: nat)
    ensures j[12 := Later(j, n)[12]][13 := Later(j, n)[13]] == Later(j, n)
  {
    hide Later;
    LaterKeeps(j, n);
    var l := Later(j, n);
    assert forall i :: 0 <= i < 12 ==> l[i] == l[..12][i] == j[..12][i];
    assert forall i :: 0 <= i < 2 ==> l[14 + i] == l[14..][i] == j[14..][i];
  }

  lemma Cut(s: seq<Byte>)
    ensures s[..|s|] == s && s[..0] == []
  {
  }

  lemma XoredPart(b: seq<Byte>, key: seq<Byte>, n: nat)
    requires n <= |b| <= |key|
    ensures Xored(b, key)[..n] == Xored(b[..n], key)
  {
    hide Xor;
  }

  /** One block of a message under its part of the key stream. */
  lemma CryptBlock(j: State, m: seq<Byte>, done: nat, n: nat)
    requires done % 64 == 0 && n <= 64 && done + n <= |m|
    ensures Crypt(j, m)[..done + n] == Crypt(j, m)[..done] + Xored(m[done..done + n], Serial(Block(Later(j, done / 64))))
  {
    hide Block, Serial, Later, Xor;
    var c, d := Crypt(j, m)[done..done + n], Xored(m[done..done + n], Serial(Block(Later(j, done / 64))));
    forall i | 0 <= i < n && i < 64 ensures c[i] == d[i] {
      assert (done + i) / 64 == done / 64 && (done + i) % 64 == i;
    }
    if n == 64 {
      assert c == d;
    }
    assert c == d;
    assert Crypt(j, m)[..done + n] == Crypt(j, m)[..done] + c;
  }

  /** The state of a cipher. */
  class Context {
    var input: State

    constructor ()
    {
      input := seq(16, _ => 0);
    }

    /** chacha_keysetup: the key is used twice when it has 128 bits. */
    method KeySetup(k: seq<Byte>, kbits: nat)
      requires |k| == if kbits == 256 then 32 else 16
      modifies this
      ensures input[..4] == Words(if kbits == 256 then SIGMA else TAU) && input[4..8] == Words(k[..16])
      ensures input[8..12] == Words(if kbits == 256 then k[16..] else k) && input[12..] == old(input)[12..]
    {
      var low, high, constants := Words(k[..16]), Words(if kbits == 256 then k[16..] else k[..16]), Words(if kbits == 256 then SIGMA else TAU);
      input := constants + low + high + input[12..];
    }

    /** chacha_ivsetup: the counter starts at 0. */
    method IvSetup(iv: seq<Byte>)
      requires |iv| == 8
      modifies this
      ensures input[..12] == old(input)[..12] && input[14..] == Words(iv) && Counter(input) == 0
    {
      input := input[..12] + [0, 0] + Words(iv);
    }

    /** chacha_encrypt_bytes: the last part block goes through a buffer; c may be m. */
    method EncryptBytes(m: array<Byte>, mi: nat, c: array<Byte>, ci: nat, bytes: nat)
      requires mi + bytes <= m.Length && ci + bytes <= c.Length && (m == c ==> mi == ci)
      modifies this, c
      ensures c[ci..ci + bytes] == Crypt(old(input), old(m[mi..mi + bytes]))
      ensures forall i :: 0 <= i < c.Length && !(ci <= i < ci + bytes) ==> c[i] == old(c[i])
      ensures input == Later(old(input), Blocks(bytes))
    {
      hide Crypt, Later, Step, Underway;
      LaterNone(input);
      if bytes == 0 {
        return;
      }
      ghost var text, done, start := m[mi..mi + bytes], 0, input;
      var j, n, mp, cp := input, bytes, mi, ci;
      var tmp := new Byte[64];
      NothingDone(start, text, m, mi, c, ci);
      while n > 64
        invariant 0 < n && done + n == bytes && done % 64 == 0 && mp == mi + done && cp == ci + done
        invariant input == start && j == Later(start, done / 64) && Underway(start, text, done, m, mp, c, ci)
        invariant forall i :: 0 <= i < c.Length && !(ci <= i < cp) ==> c[i] == old(c[i])
        decreases n
      {
        Turn(start, text, done, j, m, mp, c, cp, tmp, n);
        LaterNext(start, done / 64);
        j := Step(j);
        n, mp, cp, done := n - 64, mp + 64, cp + 64, done + 64;
      }
      Turn(start, text, done, j, m, mp, c, cp, tmp, n);
      AllDone(start, text, m, mp + n, c, ci);
      LaterNext(start, done / 64);
      j := Step(j);
      OnlyCounters(start, done / 64 + 1);
      assert Blocks(bytes) == done / 64 + 1;
      input := input[12 := j[12]][13 := j[13]];
    }
  }

  lemma NothingDone(start: State, text: seq<Byte>, m: array<Byte>, mi: nat, c: array<Byte>, ci: nat)
    requires mi + |text| <= m.Length && ci + |text| <= c.Length && m[mi..mi + |text|] == text
    ensures Underway(start, text, 0, m, mi, c, ci)
  {
  }

  lemma AllDone(start: State, text: seq<Byte>, m: array<Byte>, mp: nat, c: array<Byte>, ci: nat)
    requires Underway(start, text, |text|, m, mp, c, ci)
    ensures c[ci..ci + |text|] == Crypt(start, text)
  {
    hide Crypt;
  }

  /** The first `done` bytes are encrypted, the rest of the message is as it was. */
  ghost predicate Underway(start: State, text: seq<Byte>, done: nat, m: array<Byte>, mp: nat, c: array<Byte>, ci: nat)
    reads m, c
  {
    && done <= |text| && mp + |text| - done <= m.Length && ci + |text| <= c.Length
    && c[ci..ci + done] == Crypt(start, text)[..done] && m[mp..mp + |text| - done] == text[done..]
  }

  /** One turn of the loop. */
  method Turn(ghost start: State, ghost text: seq<Byte>, ghost done: nat, j: State, m: array<Byte>, mp: nat, c: array<Byte>,
              cp: nat, tmp: array<Byte>, n: nat)
    requires done <= cp && Underway(start, text, done, m, mp, c, cp - done)
    requires done + n == |text| && done % 64 == 0 && j == Later(start, done / 64)
    requires 64 == tmp.Length && tmp != m && tmp != c && (m == c ==> mp == cp)
    modifies c, tmp
    ensures var k := if n < 64 then n else 64;
            && Underway(start, text, done + k, m, mp + k, c, cp - done)
            && (forall i :: 0 <= i < c.Length && !(cp <= i < cp + k) ==> c[i] == old(c[i]))
  {
    hide Block, Serial, Xored, Crypt, Later;
    ghost var k, ci := if n < 64 then n else 64, cp - done;
    CryptBlock(start, text, done, k);
    Front(m, mp, n, text, done, k);
    ghost var before := c[ci..cp];
    ghost var part := Xored(text[done..done + k], Serial(Block(j)));
    OnePart(j, m, mp, c, cp, tmp, n);
    assert c[cp..cp + k] == part;
    assert c[ci..cp] == before;
    Join(c, ci, cp, cp + k);
    assert c[ci..cp + k] == Crypt(start, text)[..done + k];
    assert m[mp + k..mp + n] == text[done + k..];
  }

  /** A whole block, or the rest through the buffer. */
  method OnePart(j: State, m: array<Byte>, mp: nat, c: array<Byte>, cp: nat, tmp: array<Byte>, n: nat)
    requires 64 == tmp.Length && mp + n <= m.Length && cp + n <= c.Length && tmp != m && tmp != c && (m == c ==> mp == cp)
    modifies c, tmp
    ensures var k := if n < 64 then n else 64;
            && c[cp..cp + k] == Xored(old(m[mp..mp + k]), Serial(Block(j)))
            && (forall i :: 0 <= i < c.Length && !(cp <= i < cp + k) ==> c[i] == old(c[i]))
            && m[mp + k..mp + n] == old(m[mp + k..mp + n])
  {
    hide Block, Serial, Xored;
    if n < 64 {
      LastPart(j, m, mp, c, cp, tmp, n);
    } else {
      EncryptBlock(j, m, mp, c, cp);
    }
  }

  lemma Front(m: array<Byte>, mp: nat, n: nat, text: seq<Byte>, done: nat, k: nat)
    requires mp + n <= m.Length && k <= n && done + n == |text| && m[mp..mp + n] == text[done..]
    ensures m[mp..mp + k] == text[done..done + k] && m[mp + k..mp + n] == text[done + k..]
  {
    var a, b := m[mp..mp + n], text[done..];
    assert m[mp..mp + k] == a[..k] == b[..k] == text[done..done + k];
    assert m[mp + k..mp + n] == a[k..] == b[k..] == text[done + k..];
  }

  lemma Join(c: array<Byte>, i: nat, j: nat, k: nat)
    requires i <= j <= k <= c.Length
    ensures c[i..k] == c[i..j] + c[j..k]
  {
  }

  /** Fewer than 64 bytes: they are copied to the buffer, encrypted there, and copied back. */
  method LastPart(j: State, m: array<Byte>, mp: nat, c: array<Byte>, cp: nat, tmp: array<Byte>, n: nat)
    requires n < 64 == tmp.Length && mp + n <= m.Length && cp + n <= c.Length && tmp != m && tmp != c
    modifies c, tmp
    ensures c[cp..cp + n] == Xored(old(m[mp..mp + n]), Serial(Block(j)))
    ensures forall i :: 0 <= i < c.Length && !(cp <= i < cp + n) ==> c[i] == old(c[i])
  {
    hide Block, Serial, Xored;
    for i := 0 to n
      modifies tmp
      invariant tmp[..i] == m[mp..mp + i]
    {
      tmp[i] := m[mp + i];
    }
    ghost var b := tmp[0..64];
    assert b[..n] == tmp[..n] == old(m[mp..mp + n]);
    EncryptBlock(j, tmp, 0, tmp, 0);
    XoredPart(b, Serial(Block(j)), n);
    ghost var part := Xored(b, Serial(Block(j)))[..n];
    assert forall i :: 0 <= i < n ==> tmp[0..64][i] == tmp[i] == part[i];
    for i := 0 to n
      modifies c
      invariant forall k :: 0 <= k < i ==> c[cp + k] == part[k]
      invariant forall k :: 0 <= k < n ==> tmp[k] == part[k]
      invariant forall k :: 0 <= k < c.Length && !(cp <= k < cp + n) ==> c[k] == old(c[k])
    {
      c[cp + i] := tmp[i];
    }
    assert c[cp..cp + n] == part;
  }
}
