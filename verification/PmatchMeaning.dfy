/** What file name patterns mean, independently of how glob.c reads them: a pattern is a sequence of stars, single
    characters, and sets that list characters and ranges or are the complement of what they list. */
module PmatchMeaning {
  import opened Strings
  import opened Pmatch

  /** What a set lists. */
  datatype Item = One(c: Char) | Span(lo: Char, hi: Char)

  datatype Piece = Any | Many | Literal(c: Char) | Set(items: seq<Item>, complement: bool)

  predicate Holds(item: Item, c: int) {
    match item
    case One(d) => Trim(d) == c
    case Span(lo, hi) => Trim(lo) <= c <= Trim(hi)
  }

  predicate Listed(items: seq<Item>, c: int) {
    exists i :: 0 <= i < |items| && Holds(items[i], c)
  }

  /** The characters a piece other than a star stands for. */
  predicate StandsFor(p: Piece, c: int) {
    match p
    case Any => true
    case Many => false
    case Literal(d) => Trim(d) == c
    case Set(items, complement) => Listed(items, c) != complement
  }

  /** The language of a sequence of pieces. */
  ghost predicate Means(ps: seq<Piece>, name: Word) {
    if ps == [] then name == []
    else if ps[0].Many? then exists k :: 0 <= k <= |name| && Means(ps[1..], name[k..])
    else name != [] && StandsFor(ps[0], name[0]) && Means(ps[1..], name[1..])
  }

  // ---------------------------------------------------------------- text

  function ItemText(item: Item): Word {
    match item case One(c) => [c] case Span(lo, hi) => [lo, DASH, hi]
  }

  function ItemsText(items: seq<Item>): Word {
    if items == [] then [] else ItemText(items[0]) + ItemsText(items[1..])
  }

  function PieceText(p: Piece): Word {
    match p
    case Any => [QUERY]
    case Many => [STAR]
    case Literal(c) => [c]
    case Set(items, complement) => [LBRK] + (if complement then [NOT] else []) + ItemsText(items) + [RBRK]
  }

  function Text(ps: seq<Piece>): Word {
    if ps == [] then [] else PieceText(ps[0]) + Text(ps[1..])
  }

  function FirstOf(item: Item): Char {
    match item case One(c) => c case Span(lo, _) => lo
  }

  /** Items that are read as they are meant: no closing bracket in front, and no dash behind a single character. */
  predicate Clear(items: seq<Item>) {
    items != [] ==>
      && FirstOf(items[0]) != RBRK && (items[0].One? && |items| > 1 ==> FirstOf(items[1]) != DASH)
      && Clear(items[1..])
  }

  predicate Proper(p: Piece) {
    match p
    case Any => true
    case Many => true
    case Literal(c) => c != STAR && c != QUERY && c != LBRK && Trim(c) != EOS
    case Set(items, complement) => Clear(items) && (!complement && items != [] ==> FirstOf(items[0]) != NOT)
  }

  // ---------------------------------------------------------------- sets

  lemma {:induction false} ReadsItems(pat: Word, i: nat, items: seq<Item>, tail: Word)
    requires Clear(items) && i <= |pat| && pat[i..] == ItemsText(items) + [RBRK] + tail
    ensures var b := ReadBracket(pat, i);
            && b.Closed? && b.next == i + |ItemsText(items)| + 1
            && forall c :: InRanges(c, b.ranges) <==> Listed(items, c)
    decreases |items|
  {
    if items == [] {
      assert pat[i..][0] == pat[i];
    } else {
      ItemParts(pat, i, items, tail);
      var n := |ItemText(items[0])|;
      ReadsItems(pat, i + n, items[1..], tail);
      hide ItemsText, Clear;
      ListedMore(items);
    }
  }

  lemma ItemParts(pat: Word, i: nat, items: seq<Item>, tail: Word)
    requires Clear(items) && items != [] && i <= |pat| && pat[i..] == ItemsText(items) + [RBRK] + tail
    ensures var n := |ItemText(items[0])|;
            && i + n < |pat| && pat[i + n..] == ItemsText(items[1..]) + [RBRK] + tail
            && pat[i] == FirstOf(items[0]) != RBRK
            && (At(pat, i + 1) == DASH <==> items[0].Span?)
            && (items[0].Span? ==> pat[i + 2] == items[0].hi)
  {
    var item, n := items[0], |ItemText(items[0])|;
    var rest := ItemsText(items[1..]) + [RBRK] + tail;
    assert ItemsText(items) + [RBRK] + tail == ItemText(item) + rest;
    assert items[1..] != [] ==> rest[0] == FirstOf(items[1]) by {
      assert items[1..] != [] ==> ItemText(items[1])[0] == FirstOf(items[1]);
    }
    hide ItemsText, Clear;
    CutAt(pat, i, ItemText(item), rest);
  }

  lemma CutAt(pat: Word, i: nat, a: Word, b: Word)
    requires i <= |pat| && pat[i..] == a + b
    ensures i + |a| <= |pat| && pat[i + |a|..] == b
    ensures forall k :: 0 <= k < |a| ==> pat[i + k] == a[k]
    ensures b != [] ==> pat[i + |a|] == b[0]
  {
    assert pat[i..][|a|..] == b;
    forall k | 0 <= k < |a| ensures pat[i + k] == a[k] {
      assert pat[i..][k] == a[k];
    }
  }

  lemma ListedMore(items: seq<Item>)
    requires items != []
    ensures forall c :: Listed(items, c) <==> Holds(items[0], c) || Listed(items[1..], c)
  {
    forall c ensures Listed(items, c) <==> Holds(items[0], c) || Listed(items[1..], c) {
      if k :| 0 <= k < |items[1..]| && Holds(items[1..][k], c) {
        assert Holds(items[k + 1], c);
      }
      if k :| 0 <= k < |items| && Holds(items[k], c) {
        assert k > 0 ==> Holds(items[1..][k - 1], c);
      }
    }
  }

  /** Where the items of a set start. */
  function Inside(i: nat, p: Piece): nat {
    if p.Set? && p.complement then i + 2 else i + 1
  }

  lemma SetParts(pat: Word, i: nat, p: Piece, tail: Word)
    requires Proper(p) && p.Set? && i <= |pat| && pat[i..] == PieceText(p) + tail
    ensures Inside(i, p) <= |pat| && pat[i] == LBRK && Negated(pat, i) == p.complement
    ensures pat[Inside(i, p)..] == ItemsText(p.items) + [RBRK] + tail
    ensures Inside(i, p) + |ItemsText(p.items)| + 1 == i + |PieceText(p)|
  {
    hide Clear;
    var rest := ItemsText(p.items) + [RBRK] + tail;
    var front: Word := [LBRK] + if p.complement then [NOT] else [];
    assert PieceText(p) + tail == front + rest;
    assert pat[i..] == front + rest;
    assert pat[Inside(i, p)..] == pat[i..][|front|..] == rest;
    assert pat[i] == pat[i..][0] == front[0] && pat[i + 1] == pat[i..][1];
    assert p.items != [] ==> rest[0] == FirstOf(p.items[0]) == ItemText(p.items[0])[0];
  }

  lemma ReadsSet(pat: Word, i: nat, p: Piece, tail: Word)
    requires Proper(p) && p.Set? && i <= |pat| && pat[i..] == PieceText(p) + tail
    ensures i < |pat| && pat[i] == LBRK && Negated(pat, i) == p.complement
    ensures var b := BracketAt(pat, i);
            && b.Closed? && b.next == i + |PieceText(p)|
            && forall c :: InRanges(c, b.ranges) <==> Listed(p.items, c)
  {
    hide InRanges, Listed, ReadBracket, PieceText, ItemsText, Clear;
    SetParts(pat, i, p, tail);
    ReadsItems(pat, Inside(i, p), p.items, tail);
  }

  /** Every single-character piece accepts the characters it stands for, and no other, and the pattern goes on
      right behind it. */
  lemma ReadsPiece(pat: Word, i: nat, p: Piece, tail: Word, c: int)
    requires Proper(p) && !p.Many? && i <= |pat| && pat[i..] == PieceText(p) + tail
    ensures i < |pat| && pat[i] != STAR && Next(pat, i) == i + |PieceText(p)|
    ensures pat[i] == LBRK ==> BracketAt(pat, i).Closed?
    ensures Accepts(pat, i, c) <==> StandsFor(p, c)
  {
    hide InRanges, Listed, ReadBracket, ItemsText;
    if p.Set? {
      hide PieceText;
      ReadsSet(pat, i, p, tail);
    } else {
      assert pat[i..][0] == pat[i];
    }
  }

  lemma ReadsMany(pat: Word, i: nat, tail: Word)
    requires i <= |pat| && pat[i..] == PieceText(Many) + tail
    ensures i < |pat| && pat[i] == STAR && pat[i + 1..] == tail
  {
    var t := pat[i..];
    assert t[0] == pat[i] && t[1..] == pat[i + 1..];
  }

  /** The text of a pattern has the language of the pattern, and all its brackets are closed. */
  lemma {:induction false} ReadsAll(pat: Word, i: nat, ps: seq<Piece>, name: Word)
    requires (forall p <- ps :: Proper(p)) && i <= |pat| && pat[i..] == Text(ps)
    ensures InLanguage(pat, i, name) <==> Means(ps, name)
    ensures BracketsClose(pat, i)
    decreases |ps|
  {
    hide Accepts, StandsFor, PieceText, Proper;
    if ps == [] {
      assert i == |pat|;
    } else {
      var tail := Text(ps[1..]);
      if ps[0].Many? {
        ReadsMany(pat, i, tail);
        forall k | 0 <= k <= |name|
          ensures InLanguage(pat, i + 1, name[k..]) <==> Means(ps[1..], name[k..])
        {
          ReadsAll(pat, i + 1, ps[1..], name[k..]);
        }
        ReadsAll(pat, i + 1, ps[1..], name);
      } else {
        var c := if name == [] then 1 else name[0];
        ReadsPiece(pat, i, ps[0], tail, c);
        var n := |PieceText(ps[0])|;
        assert pat[i + n..] == pat[i..][n..] == tail;
        ReadsAll(pat, i + n, ps[1..], if name == [] then [] else name[1..]);
      }
    }
  }

  /** No star has a literal one behind it. */
  predicate Apart(ps: seq<Piece>) {
    forall k :: 0 <= k < |ps| - 1 && ps[k].Many? && ps[k + 1].Literal? ==> Trim(ps[k + 1].c) != STAR
  }

  /** pmatch on the text of a pattern: it ends, with 1 exactly for the names the pattern means. */
  method MatchPieces(name: Word, ps: seq<Piece>) returns (r: Outcome)
    requires Apart(ps) && Plain(Text(ps)) && forall p <- ps :: Proper(p)
    ensures r == Answer(Means(ps, TrimWord(name)))
  {
    var pat := Text(ps);
    assert pat[0..] == pat;
    ReadsAll(pat, 0, ps, TrimWord(name));
    ReadsApart(pat, 0, ps);
    CollapsedIsLanguage(pat, 0, TrimWord(name));
    RunsEndAlways(pat, 0);
    AlwaysHalts(pat, name);
    r := Match(name, pat);
  }

  lemma {:induction false} ReadsApart(pat: Word, i: nat, ps: seq<Piece>)
    requires Apart(ps) && (forall p <- ps :: Proper(p)) && i <= |pat| && pat[i..] == Text(ps)
    ensures NoSwallow(pat, i)
    decreases |ps|
  {
    hide Accepts, StandsFor, PieceText, Proper;
    if ps != [] {
      var tail := Text(ps[1..]);
      assert forall k :: 0 <= k < |ps| - 1 ==> ps[1..][k] == ps[k + 1];
      if ps[0].Many? {
        ReadsMany(pat, i, tail);
        ReadsApart(pat, i + 1, ps[1..]);
        if |ps| > 1 {
          assert tail == PieceText(ps[1]) + Text(ps[1..][1..]);
          Behind(pat, i + 1, ps[1], Text(ps[1..][1..]));
        }
      } else {
        ReadsPiece(pat, i, ps[0], tail, 1);
        var n := |PieceText(ps[0])|;
        assert pat[i + n..] == pat[i..][n..] == tail;
        ReadsApart(pat, i + n, ps[1..]);
      }
    }
  }

  /** What stands behind a star is one itself, or no star at all. */
  lemma Behind(pat: Word, i: nat, p: Piece, tail: Word)
    requires Proper(p) && i <= |pat| && pat[i..] == PieceText(p) + tail && (p.Literal? ==> Trim(p.c) != STAR)
    ensures i < |pat| && (Trim(pat[i]) == STAR ==> pat[i] == STAR)
  {
    hide ItemsText;
    assert pat[i..][0] == pat[i] == PieceText(p)[0];
  }

  // ---------------------------------------------------------------- every pattern is one

  /** Whatever stands in a bracket that is closed is such a list. */
  lemma {:induction false} BracketItems(pat: Word, i: nat) returns (items: seq<Item>)
    requires i <= |pat| && ReadBracket(pat, i).Closed?
    ensures Clear(items) && pat[i..ReadBracket(pat, i).next] == ItemsText(items) + [RBRK]
    decreases |pat| - i
  {
    var next := ReadBracket(pat, i).next;
    if pat[i] == RBRK {
      items := [];
      assert pat[i..next] == [RBRK];
    } else {
      var item := if At(pat, i + 1) == DASH then Span(pat[i], pat[i + 2]) else One(pat[i]);
      var n := |ItemText(item)|;
      var rest := BracketItems(pat, i + n);
      items := [item] + rest;
      assert items[1..] == rest;
      var t := pat[i + n..next];
      assert t == ItemsText(rest) + [RBRK];
      assert t[0] == pat[i + n];
      assert pat[i..next] == ItemText(item) + t;
    }
  }

  lemma SetSpelled(pat: Word, i: nat) returns (p: Piece)
    requires i < |pat| && pat[i] == LBRK && BracketAt(pat, i).Closed?
    ensures Proper(p) && PieceText(p) == pat[i..BracketAt(pat, i).next]
  {
    var next := BracketAt(pat, i).next;
    var from := if Negated(pat, i) then i + 2 else i + 1;
    var items := BracketItems(pat, from);
    p := Set(items, Negated(pat, i));
    var t := pat[from..next];
    assert t[0] == pat[from];
    assert items != [] ==> t[0] == ItemText(items[0])[0];
    assert pat[i..next] == pat[i..from] + t;
    assert pat[i..from] == [LBRK] + if Negated(pat, i) then [NOT] else [];
  }

  /** Every pattern whose brackets are closed is the text of pieces. */
  lemma {:induction false} Spelled(pat: Word, i: nat) returns (ps: seq<Piece>)
    requires Plain(pat) && i <= |pat| && BracketsClose(pat, i)
    ensures (forall p <- ps :: Proper(p)) && Text(ps) == pat[i..]
    decreases |pat| - i
  {
    hide BracketAt;
    if i == |pat| {
      return [];
    }
    var p: Piece;
    var next := Next(pat, i);
    if pat[i] == LBRK {
      p := SetSpelled(pat, i);
    } else {
      p := if pat[i] == STAR then Many else if pat[i] == QUERY then Any else Literal(pat[i]);
      assert pat[i..next] == [pat[i]];
    }
    hide Proper, PieceText;
    var rest := Spelled(pat, next);
    SpelledMore(pat, i, next, p, rest);
    ps := [p] + rest;
  }

  lemma SpelledMore(pat: Word, i: nat, next: nat, p: Piece, rest: seq<Piece>)
    requires i <= next <= |pat| && PieceText(p) == pat[i..next] && Text(rest) == pat[next..]
    ensures Text([p] + rest) == pat[i..]
  {
    hide PieceText;
    assert ([p] + rest)[1..] == rest && pat[i..] == pat[i..next] + pat[next..];
  }

  // ---------------------------------------------------------------- brackets that stay open

  lemma {:induction false} NeverClosed(pat: Word, i: nat)
    requires forall k :: i <= k < |pat| ==> pat[k] != RBRK
    ensures ReadBracket(pat, i).Unclosed?
    decreases |pat| - i
  {
    if i < |pat| {
      NeverClosed(pat, if At(pat, i + 1) == DASH then i + 3 else i + 1);
    }
  }

  /** A pattern that starts with a bracket and never closes it is an error for every name but the empty one. */
  method MatchOpen(name: Word, body: Word) returns (r: Outcome)
    requires Plain(body) && RBRK !in body
    ensures r == if TrimWord(name) == [] then Answer(false) else MissingBracket
  {
    var pat := [LBRK] + body;
    ghost var text := TrimWord(name);
    assert forall k :: 1 <= k < |pat| ==> pat[k] == body[k - 1];
    NeverClosed(pat, if Negated(pat, 0) then 2 else 1);
    assert After(pat, text, START, 1) == Done(if text == [] then Answer(false) else MissingBracket);
    r := Match(name, pat);
    ghost var n: nat :| After(pat, text, START, n) == Done(r);
    assert n > 0;
  }
}
