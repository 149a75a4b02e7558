/** pmatch of glob.c: matching a name against a pattern with one restart point, the last star. */
module Pmatch {
  import opened Strings

  // ---------------------------------------------------------------- what a pattern means

  datatype Range = Range(lo: int, hi: int)

  /** The inside of a bracket: what it lists, and where the pattern goes on. */
  datatype Bracket = Closed(ranges: seq<Range>, next: nat) | Unclosed

  function ReadBracket(pat: Word, i: nat): (b: Bracket)
    ensures b.Closed? ==> i < b.next <= |pat|
    decreases |pat| - i
  {
    if i >= |pat| then Unclosed
    else if pat[i] == RBRK then Closed([], i + 1)
    else
      var isRange := At(pat, i + 1) == DASH;
      var range := if isRange then Range(Trim(pat[i]), Trim(At(pat, i + 2))) else Range(Trim(pat[i]), Trim(pat[i]));
      match ReadBracket(pat, if isRange then i + 3 else i + 1)
      case Unclosed => Unclosed
      case Closed(ranges, next) => Closed([range] + ranges, next)
  }

  predicate InRanges(c: int, ranges: seq<Range>) {
    ranges != [] && (ranges[0].lo <= c <= ranges[0].hi || InRanges(c, ranges[1..]))
  }

  function Negated(pat: Word, i: nat): bool {
    At(pat, i + 1) == NOT
  }

  /** The bracket that opens at i. */
  function BracketAt(pat: Word, i: nat): (b: Bracket)
    ensures b.Closed? ==> i < b.next <= |pat|
  {
    ReadBracket(pat, if Negated(pat, i) then i + 2 else i + 1)
  }

  /** The piece of the pattern at i matches the single character c. */
  predicate Accepts(pat: Word, i: nat, c: int)
    requires i < |pat| && pat[i] != STAR
  {
    if pat[i] == QUERY then true
    else if pat[i] == LBRK then BracketAt(pat, i).Closed? && InRanges(c, BracketAt(pat, i).ranges) != Negated(pat, i)
    else Trim(pat[i]) == c
  }

  /** Where the piece after the one at i starts. */
  function Next(pat: Word, i: nat): (k: nat)
    requires i < |pat|
    ensures i < k <= |pat|
  {
    if pat[i] == LBRK && BracketAt(pat, i).Closed? then BracketAt(pat, i).next else i + 1
  }

  /** The language of the pattern from i on: a star stands for any string, every other piece for one
      character. */
  ghost predicate InLanguage(pat: Word, i: nat, name: Word)
    decreases |pat| - i
  {
    if i >= |pat| then name == []
    else if pat[i] == STAR then exists k :: 0 <= k <= |name| && InLanguage(pat, i + 1, name[k..])
    else name != [] && Accepts(pat, i, name[0]) && InLanguage(pat, Next(pat, i), name[1..])
  }

  /** Every bracket the matcher could meet is closed. */
  predicate BracketsClose(pat: Word, i: nat)
    decreases |pat| - i
  {
    i < |pat| ==> (pat[i] == LBRK ==> BracketAt(pat, i).Closed?) && BracketsClose(pat, Next(pat, i))
  }

  /** No unquoted star has a quoted one right behind it. */
  predicate NoSwallow(pat: Word, i: nat)
    decreases |pat| - i
  {
    i < |pat| ==> (pat[i] == STAR && Trim(At(pat, i + 1)) == STAR ==> pat[i + 1] == STAR) && NoSwallow(pat, Next(pat, i))
  }

  /** The end of the run of stars from i, as the collapsing loop finds it. */
  function LastStar(pat: Word, i: nat): (k: nat)
    requires i < |pat|
    ensures i <= k < |pat|
    decreases |pat| - i
  {
    if Trim(At(pat, i + 1)) == STAR then LastStar(pat, i + 1) else i
  }

  /** Every run of stars that starts with an unquoted one ends with an unquoted one. */
  predicate RunsEnd(pat: Word, i: nat)
    decreases |pat| - i
  {
    i < |pat| ==>
      if pat[i] == STAR then pat[LastStar(pat, i)] == STAR && RunsEnd(pat, LastStar(pat, i) + 1) else RunsEnd(pat, Next(pat, i))
  }

  /** The piece at i accepts whatever character it is given. */
  predicate AcceptsAll(pat: Word, i: nat)
    requires i < |pat| && pat[i] != STAR
  {
    forall c :: 0 < c <= 0x7fff ==> Accepts(pat, i, c)
  }

  predicate AcceptsSome(pat: Word, i: nat)
    requires i < |pat| && pat[i] != STAR
  {
    exists c :: 0 < c <= 0x7fff && Accepts(pat, i, c)
  }

  predicate Open(pat: Word, i: nat) {
    At(pat, i) == LBRK && BracketAt(pat, i).Unclosed?
  }

  /** A run of stars that ends with a quoted one, which is no restart point: behind it comes exactly one piece
      that accepts every character, and then the next run; or a bracket that is never closed. */
  predicate Passes(pat: Word, k: nat) {
    && k + 1 < |pat| && pat[k + 1] != STAR
    && (Open(pat, k + 1) || (AcceptsAll(pat, k + 1) && At(pat, Next(pat, k + 1)) == STAR))
  }

  /** The patterns on which the matcher ends for every name. What lies behind a piece that accepts nothing is
      never looked at. */
  predicate AlwaysEnds(pat: Word, i: nat)
    decreases |pat| - i
  {
    i < |pat| ==>
      if pat[i] == STAR then
        var k := LastStar(pat, i);
        if pat[k] == STAR then AlwaysEnds(pat, k + 1)
        else Passes(pat, k) && (Open(pat, k + 1) || AlwaysEnds(pat, Next(pat, k + 1)))
      else AcceptsSome(pat, i) ==> AlwaysEnds(pat, Next(pat, i))
  }

  /** No character of the pattern is nothing but a quote bit. */
  predicate Plain(pat: Word) {
    forall i :: 0 <= i < |pat| ==> Trim(pat[i]) != EOS
  }

  // ---------------------------------------------------------------- stars

  /** The language of the pattern with every run of stars collapsed, quoted stars in it included. */
  ghost predicate Collapsed(pat: Word, i: nat, name: Word)
    decreases |pat| - i
  {
    if i >= |pat| then name == []
    else if pat[i] == STAR then exists k :: 0 <= k <= |name| && Collapsed(pat, LastStar(pat, i) + 1, name[k..])
    else name != [] && Accepts(pat, i, name[0]) && Collapsed(pat, Next(pat, i), name[1..])
  }

  /** A run that matches without ever going back: every star taken as empty. */
  predicate Straight(pat: Word, i: nat, name: Word, j: nat)
    requires j <= |name|
    decreases |pat| - i
  {
    if i >= |pat| then j == |name|
    else if pat[i] == STAR then Straight(pat, LastStar(pat, i) + 1, name, j)
    else j < |name| && Accepts(pat, i, name[j]) && Straight(pat, Next(pat, i), name, j + 1)
  }

  lemma {:induction false} StarAbsorbs(pat: Word, i: nat, name: Word, j: nat, k: nat)
    requires i < |pat| && pat[i] == STAR && j <= k <= |name|
    requires Collapsed(pat, i, name[k..])
    ensures Collapsed(pat, i, name[j..])
  {
    var m :| 0 <= m <= |name[k..]| && Collapsed(pat, LastStar(pat, i) + 1, name[k..][m..]);
    assert name[j..][k - j + m..] == name[k..][m..];
  }

  lemma StarTakes(pat: Word, i: nat, name: Word)
    requires i < |pat| && pat[i] == STAR && LastStar(pat, i) == i && Collapsed(pat, i + 1, name)
    ensures Collapsed(pat, i, name)
  {
    assert name[0..] == name;
  }

  /** At the last star of a run: the rest from here, or from some later place. */
  lemma StarChoices(pat: Word, i: nat, name: Word, j: nat)
    requires i < |pat| && pat[i] == STAR && LastStar(pat, i) == i && j <= |name|
    ensures Collapsed(pat, i, name[j..]) <==>
            Collapsed(pat, i + 1, name[j..]) || exists k :: j + 1 <= k <= |name| && Collapsed(pat, i + 1, name[k..])
  {
    if Collapsed(pat, i, name[j..]) {
      var m :| 0 <= m <= |name[j..]| && Collapsed(pat, i + 1, name[j..][m..]);
      assert name[j..][m..] == name[j + m..];
    }
    if k :| j + 1 <= k <= |name| && Collapsed(pat, i + 1, name[k..]) {
      assert name[j..][k - j..] == name[k..];
    }
    assert name[j..][0..] == name[j..];
  }

  // ---------------------------------------------------------------- the matcher

  /** What matching comes to: an answer, or the error "Missing ]". */
  datatype Outcome = Answer(found: bool) | MissingBracket

  /** The bracket loop of pmatch: pat just past the opening bracket and its negation. */
  method ScanBracket(pat: Word, start: nat, namec: int) returns (match_: bool, next: nat, missing: bool)
    requires start <= |pat| && namec != EOS && Plain(pat)
    ensures missing <==> ReadBracket(pat, start).Unclosed?
    ensures !missing ==> next == ReadBracket(pat, start).next && match_ == InRanges(namec, ReadBracket(pat, start).ranges)
  {
    ghost var all := ReadBracket(pat, start);
    match_, next, missing := false, start, false;
    while At(pat, next) != RBRK
      invariant start <= next
      invariant var rest := ReadBracket(pat, next);
                && (all.Unclosed? <==> rest.Unclosed?)
                && (all.Closed? ==> all.next == rest.next &&
                                    (InRanges(namec, all.ranges) <==> match_ || InRanges(namec, rest.ranges)))
      decreases |pat| - next
    {
      var c := Trim(At(pat, next));
      next := next + 1;
      if At(pat, next) == DASH {
        if c <= namec && namec <= Trim(At(pat, next + 1)) {
          match_ := true;
        }
        next := next + 2;
      } else if c == namec {
        match_ := true;
      } else if c == EOS {
        missing := true;
        return;
      }
    }
    next := next + 1;
  }

  /** The state of the search behind the current position: every way to match from after the restart
      star consumes one character per piece up to here, so it passes through the current piece. */
  ghost predicate Marching(pat: Word, from: nat, i: nat, consumed: int) {
    forall m :: Collapsed(pat, from, m) ==> 0 <= consumed <= |m| && Collapsed(pat, i, m[consumed..])
  }

  /** Some restart would still match. */
  ghost predicate Restarts(pat: Word, star: nat, name: Word, from: nat) {
    exists k :: from <= k <= |name| && Collapsed(pat, star + 1, name[k..])
  }

  /** The star is an unquoted one, the last of its run. */
  predicate IsRestart(pat: Word, star: nat) {
    star < |pat| && pat[star] == STAR && LastStar(pat, star) == star && AlwaysEnds(pat, star)
  }

  /** What the search still owes at pattern position i and name position j: the whole question is this
      position or one of the restarts (there are none before the first star). */
  ghost predicate Undecided(pat: Word, name: Word, i: nat, j: nat, seen: bool, star: nat, from: nat) {
    && i <= |pat| && j <= |name|
    && (Collapsed(pat, 0, name) <==> Collapsed(pat, i, name[j..]) || (seen && Restarts(pat, star, name, from)))
    && (seen ==> star < i && IsRestart(pat, star) && Marching(pat, star + 1, i, j + 1 - from))
    && AlwaysEnds(pat, i)
  }

  /** A piece that is not a star moves both positions on. */
  lemma PieceMoves(pat: Word, name: Word, i: nat, j: nat, seen: bool, star: nat, from: nat)
    requires Undecided(pat, name, i, j, seen, star, from)
    requires i < |pat| && pat[i] != STAR && j < |name| && Accepts(pat, i, name[j]) && name[j] > 0
    ensures Undecided(pat, name, Next(pat, i), j + 1, seen, star, from)
  {
    assert AcceptsSome(pat, i);
    hide IsRestart, AcceptsSome, Accepts;
    assert name[j..][1..] == name[j + 1..];
    assert Collapsed(pat, i, name[j..]) <==> Collapsed(pat, Next(pat, i), name[j + 1..]);
    if seen {
      var n := j + 1 - from;
      forall m | Collapsed(pat, star + 1, m)
        ensures 0 <= n + 1 <= |m| && Collapsed(pat, Next(pat, i), m[n + 1..])
      {
        assert Collapsed(pat, i, m[n..]);
        assert m[n..][1..] == m[n + 1..];
      }
    }
  }

  /** Whatever the old restart point could still find, the star at i finds. */
  lemma StarSubsumes(pat: Word, name: Word, i: nat, j: nat, seen: bool, star: nat, from: nat)
    requires Undecided(pat, name, i, j, seen, star, from)
    requires i < |pat| && pat[i] == STAR
    ensures Collapsed(pat, 0, name) <==> Collapsed(pat, i, name[j..])
  {
    hide Collapsed, AlwaysEnds, LastStar, IsRestart, Marching, Restarts;
    if seen && Restarts(pat, star, name, from) {
      StarFinds(pat, name, i, j, star, from);
    }
  }

  lemma StarFinds(pat: Word, name: Word, i: nat, j: nat, star: nat, from: nat)
    requires i < |pat| && pat[i] == STAR && j <= |name|
    requires Marching(pat, star + 1, i, j + 1 - from) && Restarts(pat, star, name, from)
    ensures Collapsed(pat, i, name[j..])
  {
    hide Collapsed, LastStar;
    var m :| from <= m <= |name| && Collapsed(pat, star + 1, name[m..]);
    var n := j + 1 - from;
    assert Collapsed(pat, i, name[m..][n..]) && name[m..][n..] == name[m + n..];
    StarAbsorbs(pat, i, name, j, m + n);
  }

  /** A run that ends with an unquoted star takes over as the restart point. */
  lemma StarMoves(pat: Word, name: Word, i: nat, j: nat)
    requires i < |pat| && pat[i] == STAR && pat[LastStar(pat, i)] == STAR && AlwaysEnds(pat, i) && j <= |name|
    requires Collapsed(pat, 0, name) <==> Collapsed(pat, i, name[j..])
    ensures var k := LastStar(pat, i); Undecided(pat, name, k + 1, j, true, k, j + 1)
  {
    var k := LastStar(pat, i);
    LastIsLast(pat, i);
    assert AlwaysEnds(pat, k + 1) && IsRestart(pat, k);
    hide IsRestart, AlwaysEnds;
    assert Collapsed(pat, i, name[j..]) <==> Collapsed(pat, k, name[j..]);
    hide Collapsed, LastStar;
    StarChoices(pat, k, name, j);
    assert Marching(pat, k + 1, k + 1, 0) by {
      forall m | Collapsed(pat, k + 1, m)
        ensures Collapsed(pat, k + 1, m[0..])
      {
        assert m[0..] == m;
      }
    }
  }

  lemma {:induction false} LastIsLast(pat: Word, i: nat)
    requires i < |pat|
    ensures LastStar(pat, LastStar(pat, i)) == LastStar(pat, i) && Trim(At(pat, LastStar(pat, i) + 1)) != STAR
    decreases |pat| - i
  {
    if Trim(At(pat, i + 1)) == STAR {
      LastIsLast(pat, i + 1);
    }
  }

  /** Going back: the star again, one character further on. */
  lemma RestartMoves(pat: Word, name: Word, i: nat, j: nat, star: nat, from: nat)
    requires Undecided(pat, name, i, j, true, star, from)
    requires !Collapsed(pat, i, name[j..]) && from <= |name|
    ensures Collapsed(pat, 0, name) <==> Collapsed(pat, star, name[from..])
  {
    StarChoices(pat, star, name, from);
    if m :| from <= m <= |name| && Collapsed(pat, star + 1, name[m..]) {
      StarTakes(pat, star, name[m..]);
      StarAbsorbs(pat, star, name, from, m);
    }
  }

  /** A run, one piece for any character, and another run: the first character goes, and the second run stands
      for the rest. */
  lemma StarPiece(pat: Word, i: nat, name: Word, j: nat)
    requires i < |pat| && pat[i] == STAR && j < |name| && name[j] > 0
    requires var k := LastStar(pat, i) + 1;
             k < |pat| && pat[k] != STAR && AcceptsAll(pat, k) && At(pat, Next(pat, k)) == STAR
    ensures Collapsed(pat, i, name[j..]) <==> Collapsed(pat, Next(pat, LastStar(pat, i) + 1), name[j + 1..])
  {
    var k := LastStar(pat, i) + 1;
    var l := Next(pat, k);
    if Collapsed(pat, i, name[j..]) {
      var m :| 0 <= m <= |name[j..]| && Collapsed(pat, k, name[j..][m..]);
      assert name[j..][m..][1..] == name[j + m + 1..];
      StarAbsorbs(pat, l, name, j + 1, j + m + 1);
    }
    if Collapsed(pat, l, name[j + 1..]) {
      assert name[j..][1..] == name[j + 1..] && name[j..][0..] == name[j..];
      assert Collapsed(pat, k, name[j..]);
    }
  }

  // ---------------------------------------------------------------- the loop as steps

  /** What the loop holds at the top of a turn: positions in the pattern and the name, the restart point, and the
      end of the name once it was seen. nameNext is 0 until a star was met. */
  datatype State = Turn(i: nat, j: nat, patNext: nat, nameNext: nat, nameEnd: int) | Done(outcome: Outcome)

  predicate Within(pat: Word, text: Word, s: State) {
    s.Turn? ==>
      && s.i <= |pat| && s.j <= |text| && s.patNext <= |pat| && s.nameNext <= |text| + 1
      && (s.nameEnd == -1 || s.nameEnd == |text|) && (s.nameEnd == -1 ==> s.nameNext <= |text|)
  }

  /** One turn of the loop. */
  function Step(pat: Word, text: Word, s: State): (r: State)
    requires s.Turn? && Within(pat, text, s)
    ensures Within(pat, text, r)
  {
    var end := if s.j == |text| then |text| else s.nameEnd;
    if s.i == |pat| && s.j == |text| then Done(Answer(true))
    else if s.i < |pat| && pat[s.i] == STAR then
      var k := LastStar(pat, s.i);
      Turn(k + 1, s.j, k, s.j + 1, end)
    else if s.i < |pat| && s.j < |text| && Open(pat, s.i) then Done(MissingBracket)
    else if s.i < |pat| && s.j < |text| && Accepts(pat, s.i, text[s.j]) then
      Turn(Next(pat, s.i), s.j + 1, s.patNext, s.nameNext, end)
    else if s.nameNext != 0 && (end == -1 || s.nameNext <= end) then Turn(s.patNext, s.nameNext, s.patNext, s.nameNext, end)
    else Done(Answer(false))
  }

  function After(pat: Word, text: Word, s: State, n: nat): (r: State)
    requires Within(pat, text, s)
    ensures Within(pat, text, r)
    decreases n
  {
    if n == 0 || s.Done? then s else After(pat, text, Step(pat, text, s), n - 1)
  }

  const START := Turn(0, 0, 0, 0, -1)

  /** The loop ends from a state on. */
  ghost predicate Halts(pat: Word, text: Word, s: State)
    requires Within(pat, text, s)
  {
    exists n: nat :: After(pat, text, s, n).Done?
  }

  /** pmatch ends on this pattern and this name. */
  ghost predicate Ends(pat: Word, name: Word) {
    Halts(pat, TrimWord(name), START)
  }

  lemma HaltsStep(pat: Word, text: Word, s: State)
    requires s.Turn? && Within(pat, text, s)
    ensures Halts(pat, text, s) <==> Halts(pat, text, Step(pat, text, s))
  {
    if n: nat :| After(pat, text, s, n).Done? {
      assert After(pat, text, Step(pat, text, s), n - 1).Done?;
    }
    if n: nat :| After(pat, text, Step(pat, text, s), n).Done? {
      assert After(pat, text, s, n + 1).Done?;
    }
  }

  /** A state that is its own successor is never left. */
  lemma {:induction false} SpinsFor(pat: Word, text: Word, s: State, n: nat)
    requires s.Turn? && Within(pat, text, s) && Step(pat, text, s) == s
    ensures After(pat, text, s, n) == s
  {
    if n > 0 {
      SpinsFor(pat, text, s, n - 1);
    }
  }

  lemma Spins(pat: Word, text: Word, s: State)
    requires s.Turn? && Within(pat, text, s) && Step(pat, text, s) == s
    ensures !Halts(pat, text, s)
  {
    forall n: nat ensures !After(pat, text, s, n).Done? {
      SpinsFor(pat, text, s, n);
    }
  }

  /** Where the loop ends does not depend on when one looks. */
  lemma {:induction false} OneEnd(pat: Word, text: Word, s: State, m: nat, n: nat)
    requires Within(pat, text, s) && After(pat, text, s, m).Done? && After(pat, text, s, n).Done?
    ensures After(pat, text, s, m) == After(pat, text, s, n)
    decreases m
  {
    if s.Turn? {
      OneEnd(pat, text, Step(pat, text, s), m - 1, n - 1);
    }
  }

  // ---------------------------------------------------------------- patterns on which it ends

  predicate Trimmed(text: Word) {
    forall i :: 0 <= i < |text| ==> text[i] > 0
  }

  /** The answer at an end is that of the collapsed language. */
  ghost predicate Right(pat: Word, text: Word, s: State) {
    s.Done? && (s.outcome.Answer? ==> (s.outcome.found <==> Collapsed(pat, 0, text)))
  }

  ghost predicate Settles(pat: Word, text: Word, s: State)
    requires Within(pat, text, s)
  {
    exists n: nat :: Right(pat, text, After(pat, text, s, n))
  }

  lemma SettlesStep(pat: Word, text: Word, s: State)
    requires s.Turn? && Within(pat, text, s) && Settles(pat, text, Step(pat, text, s))
    ensures Settles(pat, text, s)
  {
    hide Right, Step;
    var n: nat :| Right(pat, text, After(pat, text, Step(pat, text, s), n));
    assert After(pat, text, s, n + 1) == After(pat, text, Step(pat, text, s), n);
  }

  lemma SettlesNow(pat: Word, text: Word, s: State)
    requires Within(pat, text, s) && Right(pat, text, s)
    ensures Settles(pat, text, s)
  {
    assert After(pat, text, s, 0) == s;
  }

  /** The whole question is the star here. */
  ghost predicate AtStar(pat: Word, text: Word, s: State) {
    && s.Turn? && Within(pat, text, s) && s.i < |pat| && pat[s.i] == STAR && AlwaysEnds(pat, s.i)
    && (Collapsed(pat, 0, text) <==> Collapsed(pat, s.i, text[s.j..]))
  }

  ghost predicate Here(pat: Word, text: Word, s: State) {
    && s.Turn? && Within(pat, text, s)
    && Undecided(pat, text, s.i, s.j, s.nameNext > 0, s.patNext, s.nameNext)
  }

  /** Behind a run that ends with a quoted star the loop ends, or stands at the next run. */
  lemma PassesOn(pat: Word, text: Word, s: State)
    requires AtStar(pat, text, s) && pat[LastStar(pat, s.i)] != STAR && Trimmed(text)
    ensures Step(pat, text, s).Turn?
    ensures var u := Step(pat, text, Step(pat, text, s));
            Right(pat, text, u) || (AtStar(pat, text, u) && u.i > LastStar(pat, s.i))
  {
    hide AcceptsAll, Accepts;
    var k := LastStar(pat, s.i);
    assert Passes(pat, k);
    if s.j == |text| {
      assert !Collapsed(pat, s.i, text[s.j..]);
    } else if !Open(pat, k + 1) {
      assert AcceptsAll(pat, k + 1) && AlwaysEnds(pat, Next(pat, k + 1));
      hide AlwaysEnds, Collapsed;
      StarPiece(pat, s.i, text, s.j);
      AllIsThis(pat, k + 1, text[s.j]);
      assert Step(pat, text, Step(pat, text, s)).i == Next(pat, k + 1);
    } else {
      hide Collapsed;
      assert Step(pat, text, Step(pat, text, s)) == Done(MissingBracket);
    }
  }

  lemma AllIsThis(pat: Word, i: nat, c: int)
    requires i < |pat| && pat[i] != STAR && AcceptsAll(pat, i) && 0 < c <= 0x7fff
    ensures Accepts(pat, i, c)
  {
  }

  lemma {:induction false} FromStar(pat: Word, text: Word, s: State)
    requires AtStar(pat, text, s) && Trimmed(text)
    ensures Settles(pat, text, s)
    decreases |pat| - LastStar(pat, s.i), |text| + 1 - s.j, 0
  {
    hide Settles, Undecided, Collapsed, Passes, Right, AlwaysEnds;
    var k := LastStar(pat, s.i);
    var t := Step(pat, text, s);
    if pat[k] == STAR {
      StarMoves(pat, text, s.i, s.j);
      FromHere(pat, text, t);
    } else {
      PassesOn(pat, text, s);
      var u := Step(pat, text, t);
      if Right(pat, text, u) {
        SettlesNow(pat, text, u);
      } else {
        FromStar(pat, text, u);
      }
      SettlesStep(pat, text, t);
    }
    SettlesStep(pat, text, s);
  }

  lemma {:induction false} FromHere(pat: Word, text: Word, s: State)
    requires Here(pat, text, s) && Trimmed(text)
    ensures Settles(pat, text, s)
    decreases |pat| - (if s.nameNext > 0 then s.patNext else -1), |text| + 1 - (if s.nameNext > 0 then s.nameNext else -1), |pat| - s.i + 1
  {
    hide Settles;
    if s.i < |pat| && pat[s.i] == STAR {
      StarSubsumes(pat, text, s.i, s.j, s.nameNext > 0, s.patNext, s.nameNext);
      FromStar(pat, text, s);
    } else {
      var t := Step(pat, text, s);
      HereSteps(pat, text, s);
      if t.Done? {
        SettlesNow(pat, text, t);
      } else if AtStar(pat, text, t) && t.i == s.patNext && t.j == s.nameNext > 0 {
        FromStar(pat, text, t);
      } else {
        FromHere(pat, text, t);
      }
      SettlesStep(pat, text, s);
    }
  }

  /** A turn that does not meet a star ends rightly, goes back to the last one, or moves on. */
  lemma HereSteps(pat: Word, text: Word, s: State)
    requires Here(pat, text, s) && Trimmed(text) && !(s.i < |pat| && pat[s.i] == STAR)
    ensures var t := Step(pat, text, s);
            || Right(pat, text, t)
            || (AtStar(pat, text, t) && t.i == s.patNext && t.j == s.nameNext > 0 && IsRestart(pat, t.i))
            || (Here(pat, text, t) && t.i > s.i && t.patNext == s.patNext && t.nameNext == s.nameNext)
  {
    hide AlwaysEnds, IsRestart;
    if s.i < |pat| && s.j < |text| && !Open(pat, s.i) && Accepts(pat, s.i, text[s.j]) {
      PieceMoves(pat, text, s.i, s.j, s.nameNext > 0, s.patNext, s.nameNext);
    } else if s.nameNext > 0 && s.nameNext <= |text| && !(s.i == |pat| && s.j == |text|) && !(s.j < |text| && Open(pat, s.i)) {
      RestartMoves(pat, text, s.i, s.j, s.patNext, s.nameNext);
      RestartEnds(pat, s.patNext);
    }
  }

  lemma RestartEnds(pat: Word, star: nat)
    requires IsRestart(pat, star)
    ensures star < |pat| && pat[star] == STAR && LastStar(pat, star) == star && AlwaysEnds(pat, star)
  {
  }

  /** On these patterns the loop ends, and rightly, for every name. */
  lemma EndsRightly(pat: Word, text: Word)
    requires AlwaysEnds(pat, 0) && Trimmed(text)
    ensures Settles(pat, text, START)
  {
    assert text[0..] == text;
    FromHere(pat, text, START);
  }

  // ---------------------------------------------------------------- patterns on which it spins

  lemma {:induction false} LastIsStar(pat: Word, i: nat)
    requires i < |pat| && Trim(pat[i]) == STAR
    ensures Trim(pat[LastStar(pat, i)]) == STAR
    decreases |pat| - i
  {
    if Trim(At(pat, i + 1)) == STAR {
      LastIsStar(pat, i + 1);
    }
  }

  /** A quoted star as the restart point: where the name does not have a star, the loop only comes back. */
  lemma RestartSpins(pat: Word, text: Word, k: nat, n: nat, nameEnd: int)
    requires k < |pat| && pat[k] != STAR && Trim(pat[k]) == STAR && 0 < n
    requires var s := Turn(k, n, k, n, nameEnd); Within(pat, text, s)
    requires n == |text| || text[n] != STAR
    ensures !Halts(pat, text, Turn(k, n, k, n, nameEnd))
  {
    var s := Turn(k, n, k, n, nameEnd);
    var t := Step(pat, text, s);
    assert Step(pat, text, t) == t;
    Spins(pat, text, t);
    HaltsStep(pat, text, s);
  }

  /** Behind a run that ends with a quoted star and is not passed for good: a name on which what follows fails, and
      then the restart does. */
  lemma BadRun(pat: Word, k: nat, before: Word) returns (w: Word)
    requires k < |pat| && pat[k] != STAR && Trim(pat[k]) == STAR && Trim(At(pat, k + 1)) != STAR && !Passes(pat, k)
    ensures Trimmed(w) && w != [] && !Halts(pat, before + w, Turn(k + 1, |before|, k, |before| + 1, -1))
  {
    var n := |before|;
    var s := Turn(k + 1, n, k, n + 1, -1);
    var c := 1;
    if k + 1 == |pat| || AcceptsAll(pat, k + 1) {
      w := if k + 1 < |pat| && Next(pat, k + 1) == |pat| then [1, 1] else [1];
    } else {
      c :| 0 < c <= 0x7fff && !Accepts(pat, k + 1, c);
      w := [c];
    }
    var text := before + w;
    assert text[n] == c && (|w| == 2 ==> text[n + 1] == 1);
    var t := Step(pat, text, s);
    HaltsStep(pat, text, s);
    if k + 1 < |pat| && AcceptsAll(pat, k + 1) {
      AllIsThis(pat, k + 1, 1);
      HaltsStep(pat, text, t);
      RestartSpins(pat, text, k, n + 1, Step(pat, text, t).nameEnd);
    } else {
      RestartSpins(pat, text, k, n + 1, t.nameEnd);
    }
  }

  /** On the other patterns there is a name on which the loop comes back to the same state for good. The name is
      built along the pattern: it reaches the first bad run straight through, and fails behind it. */
  lemma {:induction false} Spoils(pat: Word, i: nat, before: Word, patNext: nat, nameNext: nat) returns (w: Word)
    requires i < |pat| && !AlwaysEnds(pat, i) && patNext <= |pat| && nameNext <= |before| + 1
    ensures Trimmed(w) && w != [] && !Halts(pat, before + w, Turn(i, |before|, patNext, nameNext, -1))
    decreases |pat| - i
  {
    hide Accepts, AcceptsAll;
    var s := Turn(i, |before|, patNext, nameNext, -1);
    if pat[i] != STAR {
      var c :| 0 < c <= 0x7fff && Accepts(pat, i, c);
      MatchesIsShut(pat, i, c);
      var rest := Spoils(pat, Next(pat, i), before + [c], patNext, nameNext);
      w := [c] + rest;
      OneMore(pat, before, c, rest, s);
    } else {
      var k := LastStar(pat, i);
      LastIsLast(pat, i);
      LastIsStar(pat, i);
      if pat[k] == STAR {
        w := Spoils(pat, k + 1, before, k, |before| + 1);
      } else if !Passes(pat, k) {
        w := BadRun(pat, k, before);
      } else {
        AllIsThis(pat, k + 1, 1);
        var rest := Spoils(pat, Next(pat, k + 1), before + [1], k, |before| + 1);
        w := [1] + rest;
        OneMore(pat, before, 1, rest, Turn(k + 1, |before|, k, |before| + 1, -1));
      }
      HaltsStep(pat, before + w, s);
    }
  }

  lemma MatchesIsShut(pat: Word, i: nat, c: int)
    requires i < |pat| && pat[i] != STAR && Accepts(pat, i, c)
    ensures !Open(pat, i)
  {
  }

  /** A piece that matches, in front of a name on which the loop does not end. */
  lemma OneMore(pat: Word, before: Word, c: Char, rest: Word, s: State)
    requires s.Turn? && s.i < |pat| && pat[s.i] != STAR && !Open(pat, s.i) && Accepts(pat, s.i, c)
    requires s.j == |before| && s.patNext <= |pat| && s.nameNext <= |before| + 1 && s.nameEnd == -1
    requires !Halts(pat, before + [c] + rest, Turn(Next(pat, s.i), |before| + 1, s.patNext, s.nameNext, -1))
    ensures !Halts(pat, before + ([c] + rest), s)
  {
    hide Accepts;
    var text := before + ([c] + rest);
    assert before + [c] + rest == text && text[s.j] == c;
    HaltsStep(pat, text, s);
  }

  /** The loop ends on every name if and only if the pattern is of the kind described: every run of stars that
      ends with a quoted one is followed by one piece that accepts everything and by another run (or by an open
      bracket), as far as the pattern can match at all. */
  lemma EndsIff(pat: Word)
    ensures AlwaysEnds(pat, 0) <==> forall name: Word :: Ends(pat, name)
  {
    if AlwaysEnds(pat, 0) {
      forall name: Word ensures Ends(pat, name) {
        AlwaysHalts(pat, name);
      }
    } else {
      var w := Spoils(pat, 0, [], 0, 0);
      assert [] + w == w;
      TrimIsIdentity(w);
      assert !Ends(pat, w);
    }
  }

  lemma AlwaysHalts(pat: Word, name: Word)
    requires AlwaysEnds(pat, 0)
    ensures Ends(pat, name)
  {
    TrimIsTrimmed(name);
    EndsRightly(pat, TrimWord(name));
    var n: nat :| Right(pat, TrimWord(name), After(pat, TrimWord(name), START, n));
  }

  lemma {:induction false} TrimIsTrimmed(w: Word)
    ensures Trimmed(TrimWord(w))
  {
    if w != [] && Trim(w[0]) != EOS {
      TrimIsTrimmed(w[1..]);
    }
  }

  /** A star and a quoted star, on the name `a`: from the third turn on the loop stays where it is. */
  lemma SpinExample()
    ensures var pat: Word, name: Word := [STAR, STAR - 0x8000], ['a' as int];
            && !AlwaysEnds(pat, 0) && !Ends(pat, name)
            && After(pat, name, START, 3) == Turn(1, 1, 1, 1, 1) == Step(pat, name, Turn(1, 1, 1, 1, 1))
  {
    var pat: Word, name: Word := [STAR, STAR - 0x8000], ['a' as int];
    TrimIsIdentity(name);
    var s1 := Step(pat, name, START);
    assert LastStar(pat, 0) == LastStar(pat, 1) == 1;
    assert s1 == Turn(2, 0, 1, 1, -1);
    var s2 := Step(pat, name, s1);
    assert s2 == Turn(1, 1, 1, 1, -1);
    var s3 := Step(pat, name, s2);
    assert s3 == Turn(1, 1, 1, 1, 1) == Step(pat, name, s3);
    assert After(pat, name, START, 3) == After(pat, name, s1, 2) == After(pat, name, s2, 1) == After(pat, name, s3, 0);
    HaltsStep(pat, name, START);
    HaltsStep(pat, name, s1);
    HaltsStep(pat, name, s2);
    Spins(pat, name, s3);
  }

  // ---------------------------------------------------------------- what every end says

  /** What a state may rely on: matching from here or from a later restart is matching. */
  ghost predicate Promises(pat: Word, text: Word, s: State)
    requires Within(pat, text, s)
  {
    s.Turn? ==>
      && (Collapsed(pat, s.i, text[s.j..]) ==> Collapsed(pat, 0, text))
      && (s.nameNext > 0 ==>
            && s.patNext < |pat| && Trim(pat[s.patNext]) == STAR && LastStar(pat, s.patNext) == s.patNext
            && (forall m :: s.nameNext - 1 <= m <= |text| && Collapsed(pat, s.patNext + 1, text[m..]) ==> Collapsed(pat, 0, text)))
  }

  lemma PromisesStep(pat: Word, text: Word, s: State)
    requires s.Turn? && Within(pat, text, s) && Promises(pat, text, s)
    ensures Promises(pat, text, Step(pat, text, s))
    ensures Step(pat, text, s) == Done(Answer(true)) ==> Collapsed(pat, 0, text)
  {
    var t := Step(pat, text, s);
    if s.i < |pat| && pat[s.i] == STAR {
      PromisesAtStar(pat, text, s);
    } else if t.Turn? && t.i == s.patNext && t.j == s.nameNext > 0 && t.nameNext == s.nameNext && t.patNext == s.patNext {
      PromisesBack(pat, text, s, t);
    } else if t.Turn? {
      assert text[s.j..][1..] == text[t.j..];
    }
  }

  lemma PromisesAtStar(pat: Word, text: Word, s: State)
    requires s.Turn? && Within(pat, text, s) && Promises(pat, text, s) && s.i < |pat| && pat[s.i] == STAR
    ensures Promises(pat, text, Step(pat, text, s))
  {
    var t := Step(pat, text, s);
    LastIsLast(pat, s.i);
    LastIsStar(pat, s.i);
    forall m | s.j <= m <= |text| && Collapsed(pat, t.i, text[m..]) ensures Collapsed(pat, 0, text) {
      assert text[s.j..][m - s.j..] == text[m..];
      assert Collapsed(pat, s.i, text[s.j..]);
    }
  }

  lemma PromisesBack(pat: Word, text: Word, s: State, t: State)
    requires s.Turn? && t.Turn? && Within(pat, text, s) && Within(pat, text, t) && Promises(pat, text, s)
    requires t.i == t.patNext == s.patNext && t.j == t.nameNext == s.nameNext > 0
    ensures Promises(pat, text, t)
  {
    if Collapsed(pat, t.i, text[t.j..]) {
      if pat[t.i] == STAR {
        var m :| 0 <= m <= |text[t.j..]| && Collapsed(pat, t.i + 1, text[t.j..][m..]);
        assert text[t.j..][m..] == text[t.j + m..];
      } else {
        assert text[t.j..][1..] == text[t.j + 1..];
        assert Next(pat, t.i) == t.i + 1;
      }
    }
  }

  /** Whenever the loop ends with the answer 1, the name is in the collapsed language. */
  lemma {:induction false} FoundIsCollapsed(pat: Word, text: Word, s: State, n: nat)
    requires Within(pat, text, s) && Promises(pat, text, s) && s.Turn?
    requires After(pat, text, s, n) == Done(Answer(true))
    ensures Collapsed(pat, 0, text)
    decreases n
  {
    hide Promises, Step, Collapsed;
    PromisesStep(pat, text, s);
    if Step(pat, text, s).Turn? {
      FoundIsCollapsed(pat, text, Step(pat, text, s), n - 1);
    }
  }

  predicate Bracketed(pat: Word, s: State) {
    s.Turn? ==> s.i <= |pat| && BracketsClose(pat, s.i) && BracketsClose(pat, s.patNext)
  }

  /** The error says that a bracket is open. */
  lemma {:induction false} MissingIsOpen(pat: Word, text: Word, s: State, n: nat)
    requires Within(pat, text, s) && Bracketed(pat, s) && s.Turn?
    ensures After(pat, text, s, n) != Done(MissingBracket)
    decreases n
  {
    hide Accepts;
    if n > 0 {
      if s.i < |pat| && pat[s.i] == STAR {
        StarsClose(pat, s.i);
      }
      if Step(pat, text, s).Turn? {
        MissingIsOpen(pat, text, Step(pat, text, s), n - 1);
      }
    }
  }

  lemma {:induction false} StarsClose(pat: Word, i: nat)
    requires i < |pat| && Trim(pat[i]) == STAR && BracketsClose(pat, i)
    ensures BracketsClose(pat, LastStar(pat, i)) && BracketsClose(pat, LastStar(pat, i) + 1)
    decreases |pat| - i
  {
    if Trim(At(pat, i + 1)) == STAR {
      StarsClose(pat, i + 1);
    }
  }

  /** A straight run ends with 1. */
  lemma {:induction false} StraightEnds(pat: Word, text: Word, s: State) returns (n: nat)
    requires s.Turn? && Within(pat, text, s) && Straight(pat, s.i, text, s.j)
    ensures After(pat, text, s, n) == Done(Answer(true))
    decreases |pat| - s.i
  {
    hide Accepts;
    var t := Step(pat, text, s);
    if s.i < |pat| && pat[s.i] != STAR {
      MatchesIsShut(pat, s.i, text[s.j]);
    }
    if t.Turn? {
      n := StraightEnds(pat, text, t);
      n := n + 1;
    } else {
      n := 1;
    }
  }

  /** Where every run ends with an unquoted star, the loop always ends. */
  lemma {:induction false} RunsEndAlways(pat: Word, i: nat)
    requires RunsEnd(pat, i)
    ensures AlwaysEnds(pat, i)
    decreases |pat| - i
  {
    hide Accepts;
    if i < |pat| {
      RunsEndAlways(pat, if pat[i] == STAR then LastStar(pat, i) + 1 else Next(pat, i));
    }
  }

  /** What the outcome of a run says. */
  lemma EndSays(pat: Word, text: Word, n: nat, r: Outcome)
    requires Trimmed(text) && After(pat, text, START, n) == Done(r)
    ensures AlwaysEnds(pat, 0) && r.Answer? ==> (r.found <==> Collapsed(pat, 0, text))
    ensures r == Answer(true) ==> Collapsed(pat, 0, text)
    ensures Straight(pat, 0, text, 0) ==> r == Answer(true)
    ensures r == MissingBracket ==> !BracketsClose(pat, 0)
  {
    hide Collapsed, Straight, AlwaysEnds, BracketsClose, Step;
    assert text[0..] == text;
    if AlwaysEnds(pat, 0) {
      EndsRightly(pat, text);
      var m: nat :| Right(pat, text, After(pat, text, START, m));
      OneEnd(pat, text, START, m, n);
    }
    if Straight(pat, 0, text, 0) {
      var m := StraightEnds(pat, text, START);
      OneEnd(pat, text, START, m, n);
    }
    if r == Answer(true) {
      FoundIsCollapsed(pat, text, START, n);
    }
    if r == MissingBracket && BracketsClose(pat, 0) {
      MissingIsOpen(pat, text, START, n);
    }
  }

  // ---------------------------------------------------------------- the matcher as it runs

  /** The cases of the switch that look at one character of the name; NUL matches none of them. */
  method MatchPiece(pat: Word, i: nat, namec: int) returns (matched: bool, next: nat, missing: bool)
    requires Plain(pat) && i < |pat| && pat[i] != STAR
    ensures missing <==> namec != EOS && pat[i] == LBRK && BracketAt(pat, i).Unclosed?
    ensures matched <==> namec != EOS && Accepts(pat, i, namec)
    ensures matched ==> next == Next(pat, i)
  {
    matched, next, missing := false, i, false;
    if pat[i] == QUERY {
      if namec != EOS {
        matched, next := true, i + 1;
      }
    } else if pat[i] == LBRK {
      if namec != EOS {
        var negate := At(pat, i + 1) == NOT;
        var inside, rest, gone := ScanBracket(pat, if negate then i + 2 else i + 1, namec);
        matched, next, missing := !gone && inside != negate, rest, gone;
      }
    } else if Trim(pat[i]) == namec {
      matched, next := true, i + 1;
    }
  }

  /** The collapsing loop. */
  method SkipStars(pat: Word, start: nat) returns (i: nat)
    requires start < |pat| && pat[start] == STAR
    ensures i == LastStar(pat, start)
  {
    i := start;
    while Trim(At(pat, i + 1)) == STAR
      invariant start <= i < |pat| && LastStar(pat, i) == LastStar(pat, start)
      decreases |pat| - i
    {
      i := i + 1;
    }
  }

  /** The run ends with 1. */
  ghost predicate Succeeds(pat: Word, name: Word) {
    exists n: nat :: After(pat, TrimWord(name), START, n) == Done(Answer(true))
  }

  lemma OneOutcome(pat: Word, name: Word, r: Outcome)
    requires exists n: nat :: After(pat, TrimWord(name), START, n) == Done(r)
    ensures Succeeds(pat, name) <==> r == Answer(true)
  {
    var n: nat :| After(pat, TrimWord(name), START, n) == Done(r);
    if m: nat :| After(pat, TrimWord(name), START, m) == Done(Answer(true)) {
      OneEnd(pat, TrimWord(name), START, m, n);
    }
  }

  /** pmatch, wherever it ends: the answer is that of the steps. On patterns for which it always ends it is 1
      exactly for the names of the collapsed language, although it only ever goes back to the last star; that is
      the pattern's own language when no unquoted star has a quoted one behind it. */
  method Match(name: Word, pat: Word) returns (r: Outcome)
    requires Plain(pat) && Ends(pat, name)
    ensures exists n: nat :: After(pat, TrimWord(name), START, n) == Done(r)
    ensures Succeeds(pat, name) <==> r == Answer(true)
    ensures AlwaysEnds(pat, 0) && r.Answer? ==> (r.found <==> Collapsed(pat, 0, TrimWord(name)))
    ensures r == Answer(true) ==> Collapsed(pat, 0, TrimWord(name))
    ensures NoSwallow(pat, 0) ==> AlwaysEnds(pat, 0) && (Collapsed(pat, 0, TrimWord(name)) <==> InLanguage(pat, 0, TrimWord(name)))
    ensures Straight(pat, 0, TrimWord(name), 0) ==> r == Answer(true)
    ensures r == MissingBracket ==> !BracketsClose(pat, 0)
  {
    hide Collapsed, Straight, Accepts, AlwaysEnds, BracketsClose, NoSwallow, InLanguage;
    ghost var text := TrimWord(name);
    ghost var total: nat :| After(pat, text, START, total).Done?;
    ghost var left := total;
    var nameNext: nat, patNext: nat, nameEnd: int := 0, 0, -1;
    var i: nat, j: nat := 0, 0;
    while true
      invariant Within(pat, text, Turn(i, j, patNext, nameNext, nameEnd))
      invariant After(pat, text, START, total) == After(pat, text, Turn(i, j, patNext, nameNext, nameEnd), left)
      decreases left
    {
      ghost var s := Turn(i, j, patNext, nameNext, nameEnd);
      TrimWordAt(name, j);
      left := left - 1;
      var namec := Trim(At(name, j));
      if namec == EOS {
        nameEnd := j;
      }
      if At(pat, i) == EOS {
        if namec == EOS {
          r := Answer(true);
          break;
        }
      } else if At(pat, i) == STAR {
        i := SkipStars(pat, i);
        patNext, nameNext := i, j + 1;
        i := i + 1;
        continue;
      } else {
        var matched, next, missing := MatchPiece(pat, i, namec);
        if missing {
          r := MissingBracket;
          break;
        }
        if matched {
          i, j := next, j + 1;
          continue;
        }
      }
      if nameNext != 0 && (nameEnd == -1 || nameNext <= nameEnd) {
        i, j := patNext, nameNext;
        continue;
      }
      r := Answer(false);
      break;
    }
    assert After(pat, text, START, total) == Done(r);
    TrimIsTrimmed(name);
    EndSays(pat, text, total, r);
    OneOutcome(pat, name, r);
    if NoSwallow(pat, 0) {
      CollapsedIsLanguage(pat, 0, text);
      RunsEndAlways(pat, 0);
    }
  }

  // ---------------------------------------------------------------- the swallowed star

  lemma {:induction false} AllStars(pat: Word, i: nat)
    requires i < |pat| && pat[i] == STAR && NoSwallow(pat, i)
    ensures pat[LastStar(pat, i)] == STAR && NoSwallow(pat, LastStar(pat, i) + 1)
    ensures forall name :: InLanguage(pat, i, name) <==> InLanguage(pat, LastStar(pat, i), name)
    decreases |pat| - i
  {
    if Trim(At(pat, i + 1)) == STAR {
      AllStars(pat, i + 1);
      forall name ensures InLanguage(pat, i, name) <==> InLanguage(pat, i + 1, name) {
        TwoStars(pat, i, name);
      }
    }
  }

  lemma TwoStars(pat: Word, i: nat, name: Word)
    requires i + 1 < |pat| && pat[i] == STAR && pat[i + 1] == STAR
    ensures InLanguage(pat, i, name) <==> InLanguage(pat, i + 1, name)
  {
    if InLanguage(pat, i, name) {
      var k :| 0 <= k <= |name| && InLanguage(pat, i + 1, name[k..]);
      var m :| 0 <= m <= |name[k..]| && InLanguage(pat, i + 2, name[k..][m..]);
      assert name[k..][m..] == name[k + m..];
    }
    assert name[0..] == name;
  }

  /** Without a swallowed star, collapsing does not change the language. */
  lemma {:induction false} CollapsedIsLanguage(pat: Word, i: nat, name: Word)
    requires NoSwallow(pat, i)
    ensures RunsEnd(pat, i) && (Collapsed(pat, i, name) <==> InLanguage(pat, i, name))
    decreases |pat| - i
  {
    if i < |pat| {
      if pat[i] == STAR {
        var k := LastStar(pat, i);
        AllStars(pat, i);
        forall m | 0 <= m <= |name| ensures Collapsed(pat, k + 1, name[m..]) <==> InLanguage(pat, k + 1, name[m..]) {
          CollapsedIsLanguage(pat, k + 1, name[m..]);
        }
        CollapsedIsLanguage(pat, k + 1, name);
      } else if name != [] {
        CollapsedIsLanguage(pat, Next(pat, i), name[1..]);
      } else {
        CollapsedIsLanguage(pat, Next(pat, i), name);
      }
    }
  }

  /** Every piece can match something: no bracket is empty. */
  ghost predicate Satisfiable(pat: Word, i: nat)
    decreases |pat| - i
  {
    i < |pat| ==> (pat[i] != STAR ==> exists c :: 0 < c <= 0x7fff && Accepts(pat, i, c)) && Satisfiable(pat, Next(pat, i))
  }

  /** The single-character pieces of the pattern, and those that the collapsing loop leaves. */
  function Pieces(pat: Word, i: nat): nat
    decreases |pat| - i
  {
    if i >= |pat| then 0 else (if pat[i] == STAR then 0 else 1) + Pieces(pat, Next(pat, i))
  }

  function KeptPieces(pat: Word, i: nat): nat
    decreases |pat| - i
  {
    if i >= |pat| then 0
    else if pat[i] == STAR then KeptPieces(pat, LastStar(pat, i) + 1)
    else 1 + KeptPieces(pat, Next(pat, i))
  }

  lemma {:induction false} NamesAreLong(pat: Word, i: nat, name: Word)
    requires InLanguage(pat, i, name)
    ensures |name| >= Pieces(pat, i)
    decreases |pat| - i
  {
    if i < |pat| {
      if pat[i] == STAR {
        var k :| 0 <= k <= |name| && InLanguage(pat, i + 1, name[k..]);
        NamesAreLong(pat, i + 1, name[k..]);
      } else {
        NamesAreLong(pat, Next(pat, i), name[1..]);
      }
    }
  }

  lemma {:induction false} RunPieces(pat: Word, i: nat)
    requires i < |pat| && Trim(pat[i]) == STAR
    ensures var k := LastStar(pat, i) + 1;
            && Pieces(pat, i) >= Pieces(pat, k) + (if pat[i] == STAR then 0 else 1)
            && (pat[i] == STAR && !NoSwallow(pat, i) ==> Pieces(pat, i) > Pieces(pat, k) || !NoSwallow(pat, k))
            && (Satisfiable(pat, i) ==> Satisfiable(pat, k))
    decreases |pat| - i
  {
    if Trim(At(pat, i + 1)) == STAR {
      RunPieces(pat, i + 1);
    }
  }

  lemma {:induction false} SwallowLoses(pat: Word, i: nat)
    ensures KeptPieces(pat, i) <= Pieces(pat, i)
    ensures !NoSwallow(pat, i) ==> KeptPieces(pat, i) < Pieces(pat, i)
    decreases |pat| - i
  {
    if i < |pat| {
      if pat[i] == STAR {
        RunPieces(pat, i);
        SwallowLoses(pat, LastStar(pat, i) + 1);
      } else {
        SwallowLoses(pat, Next(pat, i));
      }
    }
  }

  /** A shortest name the matcher runs straight through. */
  lemma {:induction false} BuildStraight(pat: Word, i: nat, before: Word) returns (w: Word)
    requires Satisfiable(pat, i)
    ensures |w| == KeptPieces(pat, i) && Straight(pat, i, before + w, |before|)
    ensures forall k :: 0 <= k < |w| ==> w[k] > 0
    decreases |pat| - i
  {
    if i >= |pat| {
      w := [];
    } else if pat[i] == STAR {
      RunPieces(pat, i);
      w := BuildStraight(pat, LastStar(pat, i) + 1, before);
    } else {
      var c :| 0 < c <= 0x7fff && Accepts(pat, i, c);
      var rest := BuildStraight(pat, Next(pat, i), before + [c]);
      w := [c] + rest;
      assert before + [c] + rest == before + w;
    }
  }

  lemma {:induction false} TrimIsIdentity(w: Word)
    requires forall k :: 0 <= k < |w| ==> w[k] > 0
    ensures TrimWord(w) == w
  {
    if w != [] {
      TrimIsIdentity(w[1..]);
    }
  }

  /** A straight run stays in the collapsed language. */
  lemma {:induction false} StraightIsCollapsed(pat: Word, i: nat, name: Word, j: nat)
    requires j <= |name| && Straight(pat, i, name, j)
    ensures Collapsed(pat, i, name[j..])
    decreases |pat| - i
  {
    if i < |pat| {
      if pat[i] == STAR {
        StraightIsCollapsed(pat, LastStar(pat, i) + 1, name, j);
        assert name[j..][0..] == name[j..];
      } else {
        StraightIsCollapsed(pat, Next(pat, i), name, j + 1);
        assert name[j..][1..] == name[j + 1..];
      }
    }
  }

  /** The condition on patterns is exact: with a quoted star behind an unquoted one there is a name that the
      matcher runs straight through and that is not in the language (it loses a character the pattern asks
      for). */
  lemma SwallowIsWrong(pat: Word)
    requires Plain(pat) && Satisfiable(pat, 0)
    ensures NoSwallow(pat, 0) <==> forall name: Word :: Collapsed(pat, 0, TrimWord(name)) <==> InLanguage(pat, 0, TrimWord(name))
    ensures !NoSwallow(pat, 0) ==>
              exists name: Word :: Straight(pat, 0, TrimWord(name), 0) && !InLanguage(pat, 0, TrimWord(name))
  {
    if NoSwallow(pat, 0) {
      forall name: Word ensures Collapsed(pat, 0, TrimWord(name)) <==> InLanguage(pat, 0, TrimWord(name)) {
        CollapsedIsLanguage(pat, 0, TrimWord(name));
      }
    } else {
      var w := BuildStraight(pat, 0, []);
      assert [] + w == w && w[0..] == w;
      TrimIsIdentity(w);
      SwallowLoses(pat, 0);
      StraightIsCollapsed(pat, 0, w, 0);
      if InLanguage(pat, 0, w) {
        NamesAreLong(pat, 0, w);
      }
      assert Collapsed(pat, 0, TrimWord(w)) && !InLanguage(pat, 0, TrimWord(w));
    }
  }
}
