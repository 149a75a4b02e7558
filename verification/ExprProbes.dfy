/** Which operators the evaluator of exp.c looks up as files: exactly those that stand where a file test has its
    file name, in every mode. */
module ExprProbes {
  import opened Common
  import opened Strings
  import opened Numbers
  import opened Expr

  /** Reading the words one after the other, without any levels: a file test takes its file name along, and a
      command in braces is passed over. */
  function Onward(ws: seq<Word>, p: nat): (q: nat)
    requires p < |ws|
    ensures p < q
  {
    if ws[p] == Chars("{") then Closing(ws, p + 1) + 1 else if IsTest(ws[p]) then p + 2 else p + 1
  }

  function LookedUp(ws: seq<Word>, p: nat): seq<Effect>
    requires p < |ws|
  {
    if IsTest(ws[p]) && p + 1 < |ws| then Probes(ws[p + 1]) else []
  }

  /** The operators behind file tests between p and q. */
  function Scan(ws: seq<Word>, p: nat, q: nat): seq<Effect>
    requires q <= |ws|
    decreases q - p
  {
    if p >= q then [] else LookedUp(ws, p) + Scan(ws, Onward(ws, p), q)
  }

  /** The reading that starts at p comes by q. */
  predicate Meets(ws: seq<Word>, p: nat, q: nat)
    requires q <= |ws|
    decreases q - p
  {
    p == q || (p < q && Meets(ws, Onward(ws, p), q))
  }

  lemma {:induction false} MeetsOn(ws: seq<Word>, p: nat, k: nat, q: nat)
    requires k <= q <= |ws| && Meets(ws, p, k)
    ensures Scan(ws, p, q) == Scan(ws, p, k) + Scan(ws, k, q)
    ensures Meets(ws, k, q) ==> Meets(ws, p, q)
    decreases k - p
  {
    hide Onward, LookedUp;
    if p < k {
      var n := Onward(ws, p);
      MeetsOn(ws, n, k, q);
      assert LookedUp(ws, p) + (Scan(ws, n, k) + Scan(ws, k, q)) == LookedUp(ws, p) + Scan(ws, n, k) + Scan(ws, k, q);
    }
  }

  /** The lookups in a history. */
  function Lookups(tr: seq<Effect>): seq<Effect> {
    if tr == [] then [] else Lookups(tr[..|tr| - 1]) + if tr[|tr| - 1].Probe? then [tr[|tr| - 1]] else []
  }

  /** What an evaluation that gives a value did: the lookups of its words. */
  ghost predicate Faithful(ws: seq<Word>, p: nat, tr: seq<Effect>, r: Result<Out, Failure>)
    requires p <= |ws| && (r.Ok? ==> r.value.p <= |ws|)
  {
    r.Ok? ==> Meets(ws, p, r.value.p) && Lookups(r.value.tr) == Lookups(tr) + Scan(ws, p, r.value.p)
  }

  /** A word that is neither a file test nor a brace is read by itself. */
  lemma OneWord(ws: seq<Word>, p: nat)
    requires p < |ws| && !IsTest(ws[p]) && ws[p] != Chars("{")
    ensures Meets(ws, p, p + 1) && Scan(ws, p, p + 1) == []
  {
    assert Onward(ws, p) == p + 1 && Scan(ws, p + 1, p + 1) == [];
  }

  lemma OperatorsPlain(level: nat, ws: seq<Word>, p: nat)
    requires Operator(level, ws, p).Some?
    ensures var q := Operator(level, ws, p).value.1; Meets(ws, p, q) && Scan(ws, p, q) == []
  {
    var q := Operator(level, ws, p).value.1;
    assert !IsTest(ws[p]) && ws[p] != Chars("{");
    OneWord(ws, p);
    if q == p + 2 {
      assert ws[p + 1] == Chars("=") && !IsTest(ws[p + 1]) && ws[p + 1] != Chars("{");
      hide Scan, Meets;
      OneWord(ws, p + 1);
      MeetsOn(ws, p, p + 1, q);
    }
  }

  /** Whatever the words, the mode and the world are: the operators looked up as files are those behind file tests,
      in order. */
  lemma {:induction false} ProbesAre(env: Env, level: nat, ws: seq<Word>, p: nat, m: Mode, tr: seq<Effect>)
    requires p <= |ws| && level <= 10
    ensures Faithful(ws, p, tr, Exp(env, level, ws, p, m, tr))
    decreases |ws| - p, 11 - level
  {
    hide Exp, Operator, RightMode, Scan, Meets, Lookups;
    var r := Exp(env, level, ws, p, m, tr);
    if level == 10 {
      ProbesAre6(env, ws, p, m, tr);
      AtOperand(env, ws, p, m, tr);
    } else if r.Ok? {
      ProbesAre(env, level + 1, ws, p, m, tr);
      EndsAt(env, level, ws, p, m, tr);
      var r1 := Exp(env, level + 1, ws, p, m, tr);
      var o := Operator(level, ws, r1.value.p);
      if o.Some? {
        var k, q := r1.value.p, o.value.1;
        ProbesAre(env, RightLevel(level), ws, q, RightMode(o.value.0, r1.value.v, m), r1.value.tr);
        OperatorsPlain(level, ws, k);
        MeetsOn(ws, p, k, r.value.p);
        MeetsOn(ws, k, q, r.value.p);
        assert Scan(ws, p, r.value.p) == Scan(ws, p, k) + Scan(ws, q, r.value.p);
      }
    }
  }

  lemma {:induction false} ProbesAre6(env: Env, ws: seq<Word>, p: nat, m: Mode, tr: seq<Effect>)
    requires p <= |ws|
    ensures Faithful(ws, p, tr, Exp6(env, ws, p, m, tr))
    decreases |ws| - p, 0
  {
    hide AnyOp, IsTest, Exp, Chars, Scan, Meets, Closing, Lookups, Decimal, Egetn;
    var r := Exp6(env, ws, p, m, tr);
    if r.Ok? {
      var w := ws[p];
      Brackets();
      if w == Chars("!") || w == Chars("~") {
        ProbesAre6(env, ws, p + 1, m, tr);
        OneWord(ws, p);
        MeetsOn(ws, p, p + 1, r.value.p);
      } else if w == Chars("(") {
        ProbesAre(env, 0, ws, p + 1, m, tr);
        var q := r.value.p - 1;
        OneWord(ws, p);
        OneWord(ws, q);
        MeetsOn(ws, p, p + 1, q);
        MeetsOn(ws, p, q, q + 1);
      } else {
        ProbesHere(env, ws, p, m, tr);
      }
    }
  }

  /** The operands that hold no other. */
  lemma ProbesHere(env: Env, ws: seq<Word>, p: nat, m: Mode, tr: seq<Effect>)
    requires p < |ws| && ws[p] != Chars("!") && ws[p] != Chars("~") && ws[p] != Chars("(")
    ensures Faithful(ws, p, tr, Exp6(env, ws, p, m, tr))
  {
    hide AnyOp, Exp, Chars, Scan, Meets, Closing, Lookups, Decimal;
    var w, r := ws[p], Exp6(env, ws, p, m, tr);
    if r.Ok? {
      if w == Chars("{") {
        BraceRead(ws, p);
        LookupsMore(tr, [Run(ws[p + 1..Closing(ws, p + 1)])]);
      } else if AnyOp(w) {
        NoRead(ws, p);
      } else if IsTest(w) {
        TestRead(ws, p);
        var file := ws[p + 1];
        LookupsMore(tr, Probes(file));
        if !m.skip {
          LookupsMore(tr + Probes(file), [Glob(file), Look(w[1], env.glob(tr + Probes(file) + [Glob(file)]).value)]);
        }
      } else {
        OneWord(ws, p);
        LookupsMore(tr, [Glob(w)]);
      }
    }
  }

  lemma Brackets()
    ensures Chars("!") == ['!' as int] && Chars("~") == ['~' as int] && Chars("(") == ['(' as int] && Chars("{") == ['{' as int]
    ensures forall w: Word :: IsTest(w) ==> At(w, 0) == DASH
  {
  }

  lemma NoRead(ws: seq<Word>, p: nat)
    requires p <= |ws|
    ensures Meets(ws, p, p) && Scan(ws, p, p) == []
  {
  }

  lemma BraceRead(ws: seq<Word>, p: nat)
    requires p < |ws| && ws[p] == Chars("{") && Closing(ws, p + 1) < |ws|
    ensures var q := Closing(ws, p + 1) + 1; Meets(ws, p, q) && Scan(ws, p, q) == []
  {
    var q := Closing(ws, p + 1) + 1;
    assert Onward(ws, p) == q && !IsTest(ws[p]);
    NoRead(ws, q);
  }

  lemma TestRead(ws: seq<Word>, p: nat)
    requires p + 1 < |ws| && IsTest(ws[p])
    ensures Meets(ws, p, p + 2) && Scan(ws, p, p + 2) == Probes(ws[p + 1])
  {
    assert Onward(ws, p) == p + 2;
    NoRead(ws, p + 2);
  }

  lemma {:induction false} LookupsMore(tr: seq<Effect>, more: seq<Effect>)
    ensures Lookups(tr + more) == Lookups(tr) + Lookups(more)
    ensures (forall e <- more :: e.Probe?) ==> Lookups(more) == more
    ensures (forall e <- more :: !e.Probe?) ==> Lookups(more) == []
    decreases |more|
  {
    if more == [] {
      assert tr + more == tr;
    } else {
      var n := |more| - 1;
      assert more == more[..n] + [more[n]];
      assert (tr + more)[..|tr| + n] == tr + more[..n];
      LookupsMore(tr, more[..n]);
    }
  }

  /** `-e /` where it is to be skipped: the file system decides between a value and an error. */
  lemma SkippedProbe(env: Env)
    ensures var ws, m := [Chars("-e"), Chars("/")], Mode(true, false);
            && History(Exp6(env, ws, 0, m, [])) == [Probe(Chars("/"))]
            && (Exp6(env, ws, 0, m, []).Ok? <==> env.present([Probe(Chars("/"))]))
  {
    hide Exp;
    var e, slash := Chars("-e"), Chars("/");
    assert |e| == 2 && e[0] == DASH && e[1] == 'e' as int;
    assert Chars("erwxfdzopls")[0] == 'e' as int;
    assert |Chars("!")| == |Chars("~")| == |Chars("(")| == |Chars("{")| == 1;
    assert !AnyOp(e) && AnyOp(slash) && IsTest(e);
    assert [] + Probes(slash) == [Probe(slash)];
  }
}
