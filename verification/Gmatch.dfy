/** Gmatch of glob.c: a name against a pattern with braces, perhaps negated. */
module Gmatch {
  import opened Strings
  import Pmatch
  import Braces

  function Negated(pattern: Word): bool {
    At(pattern, 0) == NOT
  }

  function Body(pattern: Word): Word {
    if Negated(pattern) then pattern[1..] else pattern
  }

  /** The matcher ends on every word of the expansion, whatever the name is. */
  ghost predicate Handled(pattern: Word) {
    var e := Braces.Expand(Body(pattern));
    e.Words? ==> forall w :: w in e.words ==> Pmatch.Plain(w) && Pmatch.AlwaysEnds(w, 0)
  }

  /** The matcher ends on every word of the expansion for this name. */
  ghost predicate Halting(pattern: Word, name: Word) {
    var e := Braces.Expand(Body(pattern));
    e.Words? ==> forall w :: w in e.words ==> Pmatch.Plain(w) && Pmatch.Ends(w, name)
  }

  lemma HandledHalts(pattern: Word, name: Word)
    requires Handled(pattern)
    ensures Halting(pattern, name)
  {
    hide Braces.Expand, Pmatch.AlwaysEnds, Pmatch.Ends, Pmatch.Plain;
    var e := Braces.Expand(Body(pattern));
    if e.Words? {
      forall w | w in e.words ensures Pmatch.Ends(w, name) {
        Pmatch.AlwaysHalts(w, name);
      }
    }
  }

  /** No word of the expansion has an open bracket, and no brace is open. */
  ghost predicate WellFormed(pattern: Word) {
    var e := Braces.Expand(Body(pattern));
    e.Words? && forall w :: w in e.words ==> Pmatch.BracketsClose(w, 0)
  }

  /** Some word of the brace expansion, read as a pattern with its runs of stars collapsed, has the name in its
      language. */
  ghost predicate InWords(words: seq<Word>, name: Word) {
    exists w :: w in words && Pmatch.Collapsed(w, 0, TrimWord(name))
  }

  /** The same for the patterns as they are written. */
  ghost predicate Intended(words: seq<Word>, name: Word) {
    exists w :: w in words && Pmatch.InLanguage(w, 0, TrimWord(name))
  }

  /** Where no quoted star follows a star the two are one. */
  lemma AsIntended(words: seq<Word>, name: Word)
    requires forall w :: w in words ==> Pmatch.NoSwallow(w, 0)
    ensures InWords(words, name) <==> Intended(words, name)
    ensures forall w :: w in words ==> Pmatch.AlwaysEnds(w, 0)
  {
    forall w | w in words
      ensures Pmatch.AlwaysEnds(w, 0)
      ensures Pmatch.Collapsed(w, 0, TrimWord(name)) <==> Pmatch.InLanguage(w, 0, TrimWord(name))
    {
      Pmatch.CollapsedIsLanguage(w, 0, TrimWord(name));
      Pmatch.RunsEndAlways(w, 0);
    }
  }

  /** What a well-formed pattern says of a name. */
  ghost predicate Says(pattern: Word, name: Word) {
    var e := Braces.Expand(Body(pattern));
    e.Words? && (InWords(e.words, name) <==> !Negated(pattern))
  }

  /** Some word of the expansion is matched. */
  ghost predicate Matched(words: seq<Word>, name: Word) {
    exists w :: w in words && Pmatch.Succeeds(w, name)
  }

  /** A caret in front turns the answer around. */
  lemma CaretNegates(pattern: Word, name: Word)
    requires At(pattern, 0) != '^' as int && Braces.Expand(pattern).Words?
    ensures Says(['^' as int] + pattern, name) <==> !Says(pattern, name)
  {
    hide Braces.Expand, InWords;
    assert (['^' as int] + pattern)[1..] == pattern;
  }

  datatype Verdict = Is(matched: bool) | Error(missing: int)

  method Gmatch(name: Word, pattern: Word) returns (r: Verdict)
    requires Halting(pattern, name)
    ensures r.Is? ==> Braces.Expand(Body(pattern)).Words?
    ensures r.Is? ==> (r.matched <==> (Matched(Braces.Expand(Body(pattern)).words, name) <==> !Negated(pattern)))
    ensures r.Is? && Handled(pattern) ==> (r.matched <==> Says(pattern, name))
    ensures WellFormed(pattern) ==> r.Is?
    ensures Braces.Expand(Body(pattern)).Missing? ==> r == Error(Braces.Expand(Body(pattern)).c)
  {
    hide Pmatch.Collapsed, Pmatch.InLanguage, Braces.Expand, Braces.ExpandAll, Pmatch.NoSwallow, Pmatch.BracketsClose,
      Pmatch.Straight, Pmatch.AlwaysEnds, Pmatch.Ends, Pmatch.After, Pmatch.Plain,
      Pmatch.Succeeds, TrimWord;
    var gpol, body := true, pattern;
    if At(pattern, 0) == NOT {
      gpol, body := false, pattern[1..];
    }
    OneWord(body);
    var blk := new Braces.Slot[Braces.GLOBSPACE](_ => Braces.Null);
    blk[0] := Braces.Str(body);
    var missing;
    blk, missing := Braces.Expbrace(blk, [body]);
    if missing.Missing? {
      return Error(missing.c);
    }
    ghost var words := Braces.Expand(body).words;
    var gres := false;
    var p := 0;
    while blk[p] != Braces.Null
      invariant p <= |words| && Braces.Vector(blk, words)
      invariant gres <==> Matched(words[..p], name)
      invariant Handled(pattern) ==> (gres <==> InWords(words[..p], name))
      decreases |words| - p
    {
      assert words[p] in words;
      var m := Pmatch.Match(name, blk[p].word);
      if m.MissingBracket? {
        return Error(RBRK);
      }
      assert words[..p + 1] == words[..p] + [words[p]];
      gres := gres || m.found;
      p := p + 1;
    }
    assert words[..p] == words;
    r := Is(gres == gpol);
  }

  lemma OneWord(w: Word)
    ensures Braces.ExpandAll([w]) == Braces.Expand(w)
  {
    assert Braces.ExpandAll([w]) == Braces.Append(Braces.Expand(w), Braces.ExpandAll([]));
  }
}
