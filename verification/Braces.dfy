/** Brace expansion of glob.c: one brace group at a time (globbrace), and the in-place worklist that
    expands a vector of words (expbrace). */
module Braces {
  import opened Strings

  const GLOBSPACE := 100

  // ---------------------------------------------------------------- one brace group

  /** The first c at or after k, or the end of the word. */
  function Find(s: Word, c: int, k: nat): (e: nat)
    requires k <= |s|
    ensures k <= e <= |s| && (e < |s| ==> s[e] == c)
    ensures forall i :: k <= i < e ==> s[i] != c
    decreases |s| - k
  {
    if k == |s| || s[k] == c then k else Find(s, c, k + 1)
  }

  /** Where the group ends whose inside we are in at k, or what is missing. */
  datatype Close = Ends(at: nat) | Lacks(c: int)

  function FindClose(s: Word, k: nat, depth: nat): (r: Close)
    requires k <= |s|
    ensures r.Ends? ==> k <= r.at < |s| && s[r.at] == CLOSE
    decreases |s| - k
  {
    if k == |s| then Lacks(CLOSE)
    else if s[k] == LBRK then
      var e := Find(s, RBRK, k + 1);
      if e == |s| then Lacks(RBRK) else FindClose(s, e + 1, depth)
    else if s[k] == OPEN then FindClose(s, k + 1, depth + 1)
    else if s[k] == CLOSE then if depth == 0 then Ends(k) else FindClose(s, k + 1, depth - 1)
    else FindClose(s, k + 1, depth)
  }

  /** The alternatives between pl and the closing brace, cut at the commas outside inner groups and
      brackets. */
  function Cut(s: Word, pl: nat, pm: nat, depth: nat): (r: seq<Word>)
    requires pl <= pm <= |s| && FindClose(s, pm, depth).Ends?
    ensures |r| >= 1
    decreases |s| - pm
  {
    if s[pm] == LBRK then Cut(s, pl, Find(s, RBRK, pm + 1) + 1, depth)
    else if s[pm] == OPEN then Cut(s, pl, pm + 1, depth + 1)
    else if s[pm] == CLOSE then if depth == 0 then [s[pl..pm]] else Cut(s, pl, pm + 1, depth - 1)
    else if s[pm] == COMMA && depth == 0 then [s[pl..pm]] + Cut(s, pm + 1, pm + 1, depth)
    else Cut(s, pl, pm + 1, depth)
  }

  function Around(before: Word, pieces: seq<Word>, after: Word): (r: seq<Word>)
    ensures |r| == |pieces|
    ensures forall i :: 0 <= i < |r| ==> r[i] == before + pieces[i] + after
  {
    seq(|pieces|, i requires 0 <= i < |pieces| => before + pieces[i] + after)
  }

  datatype Expansion = Words(words: seq<Word>) | Missing(c: int)

  /** The words a word's first group stands for. */
  function Alternatives(s: Word): (r: Expansion)
    requires Find(s, OPEN, 0) < |s|
    ensures r.Words? ==> |r.words| >= 1
  {
    var b := Find(s, OPEN, 0);
    match FindClose(s, b + 1, 0)
    case Lacks(c) => Missing(c)
    case Ends(pe) => Words(Around(s[..b], Cut(s, b + 1, b + 1, 0), s[pe + 1..]))
  }

  // ---------------------------------------------------------------- expansion as recursion

  /** `{` and `{}` are left alone, for find. */
  predicate Lone(s: Word) {
    s == [OPEN] || s == [OPEN, CLOSE]
  }

  function Opens(s: Word): nat {
    multiset(s)[OPEN]
  }

  function MaxOpens(ws: seq<Word>): (n: nat)
    ensures forall w :: w in ws ==> Opens(w) <= n
  {
    if ws == [] then 0
    else if Opens(ws[0]) > MaxOpens(ws[1..]) then Opens(ws[0]) else MaxOpens(ws[1..])
  }

  lemma {:induction false} MaxOpensBound(ws: seq<Word>, n: nat)
    requires forall i :: 0 <= i < |ws| ==> Opens(ws[i]) < n
    requires n > 0
    ensures MaxOpens(ws) < n
  {
    if ws != [] {
      MaxOpensBound(ws[1..], n);
    }
  }

  lemma SliceOpens(s: Word, a: nat, x: nat, y: nat, b: nat)
    requires a <= x <= y <= b <= |s|
    ensures Opens(s[x..y]) <= Opens(s[a..b])
  {
    assert s[a..b] == s[a..x] + s[x..y] + s[y..b];
  }

  lemma {:induction false} CutOpens(s: Word, pl: nat, pm: nat, depth: nat)
    requires pl <= pm <= |s| && FindClose(s, pm, depth).Ends?
    ensures forall i :: 0 <= i < |Cut(s, pl, pm, depth)| ==>
              Opens(Cut(s, pl, pm, depth)[i]) <= Opens(s[pl..FindClose(s, pm, depth).at])
    decreases |s| - pm
  {
    hide Opens;
    var pe := FindClose(s, pm, depth).at;
    if s[pm] == LBRK {
      CutOpens(s, pl, Find(s, RBRK, pm + 1) + 1, depth);
    } else if s[pm] == OPEN {
      CutOpens(s, pl, pm + 1, depth + 1);
    } else if s[pm] == CLOSE {
      if depth > 0 {
        CutOpens(s, pl, pm + 1, depth - 1);
      }
    } else if s[pm] == COMMA && depth == 0 {
      CutOpens(s, pm + 1, pm + 1, depth);
      SliceOpens(s, pl, pm + 1, pe, pe);
      SliceOpens(s, pl, pl, pm, pe);
    } else {
      CutOpens(s, pl, pm + 1, depth);
    }
  }

  lemma OpensOf(a: Word, x: Word, b: Word)
    ensures Opens(a + x + b) == Opens(a) + Opens(x) + Opens(b)
  {
  }

  lemma OpensSplit(s: Word, b: nat, pe: nat)
    requires b < pe < |s| && s[b] == OPEN && s[pe] == CLOSE
    ensures Opens(s) == Opens(s[..b]) + 1 + Opens(s[b + 1..pe]) + Opens(s[pe + 1..])
  {
    var x, y, mid := [s[b]], [s[pe]], s[b + 1..];
    assert Opens(x) == 1 && Opens(y) == 0;
    assert s == s[..b] + x + mid;
    OpensOf(s[..b], x, mid);
    assert mid == s[b + 1..pe] + y + s[pe + 1..];
    OpensOf(s[b + 1..pe], y, s[pe + 1..]);
  }

  /** Each alternative has fewer braces left: the reason expansion ends. */
  lemma AlternativesShrink(s: Word)
    requires Find(s, OPEN, 0) < |s| && Alternatives(s).Words?
    ensures MaxOpens(Alternatives(s).words) < Opens(s)
  {
    hide Opens, Cut, FindClose, MaxOpens;
    var b := Find(s, OPEN, 0);
    var pe := FindClose(s, b + 1, 0).at;
    var pieces := Cut(s, b + 1, b + 1, 0);
    var ws := Around(s[..b], pieces, s[pe + 1..]);
    assert Alternatives(s) == Words(ws);
    hide Alternatives;
    CutOpens(s, b + 1, b + 1, 0);
    OpensSplit(s, b, pe);
    forall i | 0 <= i < |ws|
      ensures Opens(ws[i]) < Opens(s)
    {
      OpensOf(s[..b], pieces[i], s[pe + 1..]);
    }
    MaxOpensBound(ws, Opens(s));
  }

  function Append(a: Expansion, b: Expansion): Expansion {
    if a.Missing? then a else if b.Missing? then b else Words(a.words + b.words)
  }

  /** What a word stands for: its alternatives, each expanded in turn, left to right. */
  function Expand(w: Word): Expansion
    decreases Opens(w), 0
  {
    if Lone(w) || Find(w, OPEN, 0) == |w| then Words([w])
    else if Alternatives(w).Missing? then Alternatives(w)
    else
      AlternativesShrink(w);
      ExpandAll(Alternatives(w).words)
  }

  function ExpandAll(ws: seq<Word>): Expansion
    decreases MaxOpens(ws), |ws|
  {
    if ws == [] then Words([]) else Append(Expand(ws[0]), ExpandAll(ws[1..]))
  }

  /** The size of the expansion tree, which bounds the worklist. */
  function Cost(w: Word): (n: nat)
    ensures n > 0
    decreases Opens(w), 0
  {
    if Lone(w) || Find(w, OPEN, 0) == |w| || Alternatives(w).Missing? then 1
    else
      AlternativesShrink(w);
      1 + CostAll(Alternatives(w).words)
  }

  function CostAll(ws: seq<Word>): nat
    decreases MaxOpens(ws), |ws|
  {
    if ws == [] then 0 else Cost(ws[0]) + CostAll(ws[1..])
  }

  lemma {:induction false} ExpandAppend(a: seq<Word>, b: seq<Word>)
    ensures ExpandAll(a + b) == Append(ExpandAll(a), ExpandAll(b))
    ensures CostAll(a + b) == CostAll(a) + CostAll(b)
    decreases |a|
  {
    if a == [] {
      assert a + b == b;
    } else {
      assert (a + b)[1..] == a[1..] + b;
      ExpandAppend(a[1..], b);
    }
  }

  // ---------------------------------------------------------------- globbrace

  /** The check for balanced braces. */
  method Balance(s: Word, p: nat) returns (r: Close)
    requires p <= |s|
    ensures r == FindClose(s, p, 0)
  {
    var i: nat, pe: nat := 0, p;
    while pe < |s|
      invariant p <= pe <= |s| && FindClose(s, p, 0) == FindClose(s, pe, i)
      decreases |s| - pe
    {
      if s[pe] == LBRK {
        pe := Find(s, RBRK, pe + 1);
        if pe == |s| {
          return Lacks(RBRK);
        }
      } else if s[pe] == OPEN {
        i := i + 1;
      } else if s[pe] == CLOSE {
        if i == 0 {
          break;
        }
        i := i - 1;
      }
      pe := pe + 1;
    }
    r := if i != 0 || pe == |s| then Lacks(CLOSE) else Ends(pe);
  }

  /** globbrace on a word that has a brace: its alternatives with what stands before and after. The second
      scan meets the same brackets as the first, so its own check for a missing one cannot fail. */
  method Globbrace(s: Word) returns (r: Expansion)
    requires Find(s, OPEN, 0) < |s|
    ensures r == Alternatives(s)
  {
    var b := Find(s, OPEN, 0);
    var close := Balance(s, b + 1);
    if close.Lacks? {
      return Missing(close.c);
    }
    var pe := close.at;
    var i: nat, pl, pm := 0, b + 1, b + 1;
    var vl: seq<Word> := [];
    ghost var all := Cut(s, b + 1, b + 1, 0);
    while pm <= pe
      invariant b + 1 <= pl <= pm <= pe + 1
      invariant pm <= pe ==> FindClose(s, pm, i) == Ends(pe)
      invariant |vl| <= |all| && vl == Around(s[..b], all[..|vl|], s[pe + 1..])
      invariant if pm <= pe then all[|vl|..] == Cut(s, pl, pm, i) else |vl| == |all|
      decreases pe + 1 - pm
    {
      if s[pm] == LBRK {
        pm := Find(s, RBRK, pm + 1);
      } else if s[pm] == OPEN {
        i := i + 1;
      } else if s[pm] == CLOSE && i > 0 {
        i := i - 1;
      } else if s[pm] == CLOSE || (s[pm] == COMMA && i == 0) {
        assert all[|vl|] == s[pl..pm];
        vl := vl + [s[..b] + s[pl..pm] + s[pe + 1..]];
        pl := pm + 1;
      }
      pm := pm + 1;
    }
    assert all[..|all|] == all;
    r := Words(vl);
  }

  // ---------------------------------------------------------------- expbrace

  /** A slot of a word vector: a string, or the null pointer that ends the vector. */
  datatype Slot = Null | Str(word: Word)

  /** The vector nv holds the words ws and its terminator. */
  ghost predicate Vector(nv: array<Slot>, ws: seq<Word>)
    reads nv
  {
    |ws| < nv.Length && forall k :: 0 <= k <= |ws| ==> nv[k] == SlotOf(ws, k)
  }

  function SlotOf(ws: seq<Word>, k: nat): Slot
    requires k <= |ws|
  {
    if k < |ws| then Str(ws[k]) else Null
  }

  /** The words with the one at vl replaced by the list bl. */
  function Replace(ws: seq<Word>, vl: nat, bl: seq<Word>): seq<Word>
    requires vl < |ws|
  {
    ws[..vl] + bl + ws[vl + 1..]
  }

  /** xrealloc: a larger vector with the same beginning. */
  method Grow(nv: array<Slot>, size: nat) returns (r: array<Slot>)
    requires size >= nv.Length
    ensures fresh(r) && r.Length == size && forall k :: 0 <= k < nv.Length ==> r[k] == nv[k]
  {
    r := new Slot[size](_ => Null);
    for k := 0 to nv.Length
      invariant forall m :: 0 <= m < k ==> r[m] == nv[m]
    {
      r[k] := nv[k];
    }
  }

  /** The tail of the vector, terminator included, moved up by len from the top down. */
  method ShiftUp(nv: array<Slot>, vp: nat, ex: nat, len: nat)
    requires vp <= ex && ex + len < nv.Length
    modifies nv
    ensures forall m :: vp + len < m <= ex + len ==> nv[m] == old(nv[m - len])
    ensures forall k :: 0 <= k <= vp ==> nv[k] == old(nv[k])
  {
    var bp := ex;
    while bp != vp
      invariant vp <= bp <= ex
      invariant forall m :: bp + len < m <= ex + len ==> nv[m] == old(nv[m - len])
      invariant forall k :: 0 <= k <= bp ==> nv[k] == old(nv[k])
      decreases bp
    {
      nv[bp + len] := nv[bp];
      bp := bp - 1;
    }
  }

  /** Making room for the alternatives: the vector grows by at least GLOBSPACE when they would not fit, and
      nothing is written past its end. */
  method Insert(nv0: array<Slot>, vl: nat, ex: nat, bl: seq<Word>, ghost ws: seq<Word>) returns (nv: array<Slot>)
    requires Vector(nv0, ws) && ex == |ws| && vl < ex && |bl| >= 2
    modifies nv0
    ensures nv == nv0 || fresh(nv)
    ensures Vector(nv, Replace(ws, vl, bl))
  {
    nv := nv0;
    var len := |bl|;
    if ex + len >= nv.Length {
      var l := ex + len - nv.Length;
      nv := Grow(nv, nv.Length + if GLOBSPACE > l then GLOBSPACE else l);
    }
    nv[vl] := Str(bl[0]);
    len := len - 1;
    ShiftUp(nv, vl, ex, len);
    ghost var after := nv[..];
    assert forall m :: vl + len < m <= ex + len ==> after[m] == SlotOf(ws, m - len);
    var k := 1;
    while k < |bl|
      invariant 1 <= k <= |bl|
      invariant forall m :: vl <= m < vl + k ==> nv[m] == Str(bl[m - vl])
      invariant forall m :: 0 <= m < nv.Length && !(vl <= m < vl + k) ==> nv[m] == after[m]
    {
      nv[vl + k] := Str(bl[k]);
      k := k + 1;
    }
    ghost var r := Replace(ws, vl, bl);
    forall m | 0 <= m <= |r|
      ensures nv[m] == SlotOf(r, m)
    {
      if m >= vl + |bl| {
        assert SlotOf(r, m) == SlotOf(ws, m - len);
      }
    }
  }

  /** One group expanded in place: what the words from vl on stand for stays, and less is left to do. */
  lemma ReplaceStep(ws: seq<Word>, vl: nat)
    requires vl < |ws| && !Lone(ws[vl]) && Find(ws[vl], OPEN, 0) < |ws[vl]|
    ensures var a := Alternatives(ws[vl]);
            if a.Missing? then ExpandAll(ws[vl..]) == a
            else
              var r := Replace(ws, vl, a.words);
              && ExpandAll(r[vl..]) == ExpandAll(ws[vl..]) && CostAll(r[vl..]) < CostAll(ws[vl..])
              && r[..vl] == ws[..vl]
  {
    var w, rest := ws[vl], ws[vl + 1..];
    assert ws[vl..] == [w] + rest;
    assert [w] + rest == ws[vl..] && ([w] + rest)[1..] == rest;
    if Alternatives(w).Words? {
      var a := Alternatives(w).words;
      var r := Replace(ws, vl, a);
      assert r[vl..] == a + rest;
      assert r[..vl] == ws[..vl];
      ExpandAppend(a, rest);
    }
  }

  /** A word with nothing to expand joins the finished ones. */
  lemma KeepStep(ws: seq<Word>, vl: nat)
    requires vl < |ws| && (Lone(ws[vl]) || Find(ws[vl], OPEN, 0) == |ws[vl]|)
    ensures CostAll(ws[vl + 1..]) < CostAll(ws[vl..])
    ensures ExpandAll(ws[vl..]) == Append(Words([ws[vl]]), ExpandAll(ws[vl + 1..]))
    ensures Append(Words(ws[..vl]), ExpandAll(ws[vl..])) == Append(Words(ws[..vl + 1]), ExpandAll(ws[vl + 1..]))
  {
    assert ws[vl..] == [ws[vl]] + ws[vl + 1..];
    assert ws[..vl + 1] == ws[..vl] + [ws[vl]];
    var e := ExpandAll(ws[vl + 1..]);
    if e.Words? {
      assert ws[..vl] + ([ws[vl]] + e.words) == ws[..vl] + [ws[vl]] + e.words;
    }
  }

  /** expbrace: the worklist ends, with the left-to-right expansion of every word in the vector. `vl` goes
      one back after each group, so that the first alternative is looked at again. */
  method Expbrace(nv0: array<Slot>, ghost words: seq<Word>) returns (nv: array<Slot>, missing: Expansion)
    requires Vector(nv0, words)
    modifies nv0
    ensures nv == nv0 || fresh(nv)
    ensures missing == (if ExpandAll(words).Missing? then ExpandAll(words) else Words([]))
    ensures ExpandAll(words).Words? ==> Vector(nv, ExpandAll(words).words)
  {
    hide ExpandAll, CostAll, Alternatives, Lone;
    nv := nv0;
    missing := Words([]);
    var ex := 0;
    while nv[ex] != Null
      invariant ex <= |words|
      decreases |words| - ex
    {
      ex := ex + 1;
    }
    var vl := 0;
    ghost var ws := words;
    assert words[..0] == [] && words[0..] == words;
    while nv[vl] != Null
      invariant nv == nv0 || fresh(nv)
      invariant 0 <= vl <= |ws| == ex && Vector(nv, ws)
      invariant ExpandAll(words) == Append(Words(ws[..vl]), ExpandAll(ws[vl..]))
      decreases CostAll(ws[vl..])
    {
      var s := nv[vl].word;
      if Lone(s) {
        KeepStep(ws, vl);
      } else {
        if Find(s, OPEN, 0) < |s| {
          ReplaceStep(ws, vl);
          var bl := Globbrace(s);
          if bl.Missing? {
            missing := bl;
            return;
          }
          if |bl.words| == 1 {
            nv[vl] := Str(bl.words[0]);
          } else {
            nv := Insert(nv, vl, ex, bl.words, ws);
            ex := ex + |bl.words| - 1;
          }
          ws := Replace(ws, vl, bl.words);
          vl := vl - 1;
        } else {
          KeepStep(ws, vl);
        }
      }
      vl := vl + 1;
    }
    NothingLeft(ws);
  }

  lemma NothingLeft(ws: seq<Word>)
    ensures Append(Words(ws[..|ws|]), ExpandAll(ws[|ws|..])) == Words(ws)
  {
  }

  /** A brace by itself, and an empty pair, stay as they are. */
  lemma LoneKept()
    ensures Expand([OPEN]) == Words([[OPEN]]) && Expand([OPEN, CLOSE]) == Words([[OPEN, CLOSE]])
  {
  }

  /** A word without an opening brace stays as it is; one that opens a brace and never closes it is an error. */
  lemma OpenBrace(x: Word, y: Word)
    requires OPEN !in x
    ensures Expand(x) == Words([x])
    ensures x + y != [] && OPEN !in y && CLOSE !in y && LBRK !in y ==> Expand(x + [OPEN] + y) == Missing(CLOSE)
  {
    hide FindClose, Cut;
    FindFirst(x, [], 0);
    assert x + [] == x;
    if x + y != [] && OPEN !in y && CLOSE !in y && LBRK !in y {
      var w := x + [OPEN] + y;
      assert w == x + ([OPEN] + y);
      FindFirst(x, [OPEN] + y, 0);
      assert w[|x|] == OPEN;
      assert !Lone(w) by {
        if |w| == 2 && x == [] { assert w[1] == y[0]; }
        if x != [] { assert w[0] == x[0]; }
      }
      NeverClosed(w, |x| + 1);
    }
  }

  lemma {:induction false} FindFirst(x: Word, y: Word, k: nat)
    requires OPEN !in x && k <= |x| && (y == [] || y[0] == OPEN)
    ensures Find(x + y, OPEN, k) == |x|
    decreases |x| - k
  {
    if k < |x| {
      assert (x + y)[k] == x[k];
      FindFirst(x, y, k + 1);
    } else if y != [] {
      assert (x + y)[k] == y[0];
    }
  }

  lemma {:induction false} NeverClosed(w: Word, k: nat)
    requires k <= |w| && forall i :: k <= i < |w| ==> w[i] != OPEN && w[i] != CLOSE && w[i] != LBRK
    ensures FindClose(w, k, 0) == Lacks(CLOSE)
    decreases |w| - k
  {
    if k < |w| {
      NeverClosed(w, k + 1);
    }
  }

  /** A set that is opened in a group and never closed is an error, whatever stands behind it. */
  lemma OpenSet(x: Word, y: Word, v: Word)
    requires OPEN !in x && OPEN !in y && CLOSE !in y && LBRK !in y && RBRK !in v
    ensures Expand(x + [OPEN] + (y + ([LBRK] + v))) == Missing(RBRK)
  {
    hide FindClose, Cut;
    var tail := y + ([LBRK] + v);
    var w := x + [OPEN] + tail;
    assert w == x + ([OPEN] + tail);
    FindFirst(x, [OPEN] + tail, 0);
    assert w[|x|] == OPEN;
    assert |w| >= |x| + 2 && w[|x| + 1] == tail[0] != CLOSE;
    assert !Lone(w) by {
      if x != [] { assert w[0] == x[0]; }
    }
    var n := |x| + 1 + |y|;
    assert forall i :: |x| + 1 <= i < n ==> w[i] == y[i - |x| - 1];
    assert w[n] == LBRK && forall i :: n < i < |w| ==> w[i] == v[i - n - 1];
    SetOpen(w, |x| + 1, n);
  }

  lemma {:induction false} SetOpen(w: Word, k: nat, n: nat)
    requires k <= n < |w| && w[n] == LBRK && forall i :: n < i < |w| ==> w[i] != RBRK
    requires forall i :: k <= i < n ==> w[i] != OPEN && w[i] != CLOSE && w[i] != LBRK
    ensures FindClose(w, k, 0) == Lacks(RBRK)
    decreases n - k
  {
    if k < n {
      SetOpen(w, k + 1, n);
    }
  }
}
