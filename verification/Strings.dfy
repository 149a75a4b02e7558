/** C strings of the shell: 16-bit signed characters (the SHORT_STRINGS build), and their comparison. */
module Strings {

  const EOS := 0
  const STAR := '*' as int
  const QUERY := '?' as int
  const LBRK := '[' as int
  const RBRK := ']' as int
  const OPEN := '{' as int
  const CLOSE := '}' as int
  const COMMA := ',' as int
  const NOT := '^' as int
  const DASH := '-' as int

  /** A character stored inside a string: any 16-bit signed value but the terminator. */
  type Char = c: int | -0x8000 <= c <= 0x7fff && c != 0 witness 1

  type Word = seq<Char>

  /** The string a literal stands for. */
  function Chars(s: string): Word
    requires forall i :: 0 <= i < |s| ==> 0 < s[i] as int < 0x80
  {
    seq(|s|, i requires 0 <= i < |s| => s[i] as int)
  }

  /** What reading index i of the NUL-terminated array gives. */
  function At(s: Word, i: nat): int {
    if i < |s| then s[i] else EOS
  }

  /** The comparison of s_strcmp on the tails from i: NUL is below every other character,
      characters with the top bit set are below plain ones. */
  function CompareFrom(a: Word, b: Word, i: nat): int
    decreases |a| - i
  {
    if i < |a| && At(a, i) == At(b, i) then CompareFrom(a, b, i + 1)
    else if i >= |a| && i >= |b| then 0
    else if i >= |a| then -1
    else if i >= |b| then 1
    else At(a, i) - At(b, i)
  }

  method StrCmp(str1: Word, str2: Word) returns (r: int)
    ensures r == CompareFrom(str1, str2, 0)
  {
    var i := 0;
    while At(str1, i) != EOS && At(str1, i) == At(str2, i)
      invariant i <= |str1|
      invariant CompareFrom(str1, str2, 0) == CompareFrom(str1, str2, i)
      decreases |str1| - i
    {
      i := i + 1;
    }
    if At(str1, i) == EOS && At(str2, i) == EOS {
      r := 0;
    } else if At(str1, i) == EOS {
      r := -1;
    } else if At(str2, i) == EOS {
      r := 1;
    } else {
      r := At(str1, i) - At(str2, i);
    }
  }

  /** The key order of the variable store: first characters by plain difference (so the empty name
      sits above names that begin with a quoted character), then s_strcmp. */
  function Order(a: Word, b: Word): int {
    if At(a, 0) != At(b, 0) then At(a, 0) - At(b, 0) else CompareFrom(a, b, 0)
  }

  predicate Less(a: Word, b: Word) {
    Order(a, b) < 0
  }

  lemma {:induction false} CompareZero(a: Word, b: Word, i: nat)
    requires i <= |a| && i <= |b| && a[..i] == b[..i]
    ensures CompareFrom(a, b, i) == 0 <==> a == b
    decreases |a| - i
  {
    if i < |a| && At(a, i) == At(b, i) {
      assert a[..i + 1] == a[..i] + [a[i]] && b[..i + 1] == b[..i] + [b[i]];
      CompareZero(a, b, i + 1);
    } else if i >= |a| && i >= |b| {
      assert a == a[..i] && b == b[..i];
    } else if i < |a| && i < |b| {
      assert a[i] != b[i];
    }
  }

  lemma {:induction false} CompareFlip(a: Word, b: Word, i: nat)
    requires i <= |a| && i <= |b|
    ensures CompareFrom(a, b, i) < 0 <==> CompareFrom(b, a, i) > 0
    decreases |a| - i
  {
    if i < |a| && At(a, i) == At(b, i) {
      CompareFlip(a, b, i + 1);
    }
  }

  lemma {:induction false} CompareTransitive(a: Word, b: Word, c: Word, i: nat)
    requires i <= |a| && i <= |b| && i <= |c|
    requires CompareFrom(a, b, i) < 0 && CompareFrom(b, c, i) < 0
    ensures CompareFrom(a, c, i) < 0
    decreases |a| - i
  {
    if i < |a| && At(a, i) == At(b, i) && At(b, i) == At(c, i) {
      CompareTransitive(a, b, c, i + 1);
    }
  }

  /** The lookup comparison is a strict total order on names, and answers 0 only for the same name. */
  lemma OrderIsTotal(a: Word, b: Word, c: Word)
    ensures Order(a, b) == 0 <==> a == b
    ensures Less(a, b) <==> Order(b, a) > 0
    ensures Less(a, b) && Less(b, c) ==> Less(a, c)
  {
    CompareZero(a, b, 0);
    CompareFlip(a, b, 0);
    if Less(a, b) && Less(b, c) && At(a, 0) == At(b, 0) == At(c, 0) {
      CompareTransitive(a, b, c, 0);
    }
  }

  /** Names are ordered by their first difference; signed characters put those with the top bit set first. */
  lemma OrderAt(p: Word, c: Char, x: Word, d: Char, y: Word)
    requires c < d
    ensures Less(p + [c] + x, p + [d] + y)
  {
    var a, b := p + [c] + x, p + [d] + y;
    assert forall i :: 0 <= i < |p| ==> a[i] == b[i] == p[i];
    assert a[|p|] == c && b[|p|] == d;
    SkipSame(a, b, 0, |p|);
  }

  lemma {:induction false} SkipSame(a: Word, b: Word, i: nat, k: nat)
    requires i <= k <= |a| && k <= |b| && forall j :: i <= j < k ==> a[j] == b[j]
    ensures CompareFrom(a, b, i) == CompareFrom(a, b, k)
    decreases k - i
  {
    if i < k {
      SkipSame(a, b, i + 1, k);
    }
  }

  /** A name stands in front of its extensions; the empty name behind those whose first character has the top bit
      set. */
  lemma OrderOfPrefix(p: Word, c: Char, x: Word)
    ensures Less(p, p + [c] + x) <==> p != [] || c > 0
  {
    var b := p + [c] + x;
    assert forall i :: 0 <= i < |p| ==> b[i] == p[i];
    assert b[|p|] == c;
    SkipSame(p, b, 0, |p|);
  }

  /** A character without its quote bit. */
  function Trim(c: int): int {
    if c < 0 then c + 0x8000 else c
  }

  /** A word as code that masks every character with TRIM sees it: a character that was nothing but
      its quote bit ends the word. */
  function TrimWord(w: Word): Word {
    if w == [] || Trim(w[0]) == EOS then [] else [Trim(w[0])] + TrimWord(w[1..])
  }

  lemma {:induction false} TrimWordAt(w: Word, i: nat)
    requires i <= |TrimWord(w)|
    ensures |TrimWord(w)| <= |w| && Trim(At(w, i)) == At(TrimWord(w), i) >= 0
  {
    if w != [] && Trim(w[0]) != EOS {
      TrimWordAt(w[1..], if i == 0 then 0 else i - 1);
      assert i > 0 ==> At(w, i) == At(w[1..], i - 1);
    }
  }

  /** Trimming takes the quote bit off every character and leaves the others alone. */
  lemma {:induction false} TrimEach(w: Word)
    requires forall i :: 0 <= i < |w| ==> w[i] != -0x8000
    ensures |TrimWord(w)| == |w|
    ensures forall i :: 0 <= i < |w| ==> TrimWord(w)[i] == if w[i] > 0 then w[i] else w[i] + 0x8000
  {
    if w != [] {
      TrimEach(w[1..]);
    }
  }
}
