/** The directory ring of dir.c: a doubly linked ring through dhead, the current directory dcwd on it, and
    reference counts held by job records. Read from dcwd along prev and without dhead it is the
    directory stack. */
module Dirs {
  import opened Common
  import opened Strings

  class Directory {
    var next: Directory?
    var prev: Directory?
    var count: nat
    const name: Word

    constructor (name: Word)
      ensures next == prev == null && count == 0 && this.name == name
    {
      next, prev, count, this.name := null, null, 0, name;
    }
  }

  datatype Outcome = Done | NoDir | Deep | BadDir | Empty | CantChange

  // ---------------------------------------------------------------- rings

  /** Neighbours in s are linked both ways. */
  ghost predicate Chain(s: seq<Directory>)
    reads s`next, s`prev
  {
    forall i :: 0 <= i < |s| - 1 ==> s[i].prev == s[i + 1] && s[i + 1].next == s[i]
  }

  lemma ChainCons(dp: Directory, s: seq<Directory>)
    requires s != []
    ensures Chain([dp] + s) <==> Chain(s) && dp.prev == s[0] && s[0].next == dp
  {
    var t := [dp] + s;
    assert forall i :: 0 <= i < |s| ==> t[i + 1] == s[i];
    if Chain(t) {
      forall i | 0 <= i < |s| - 1 ensures s[i].prev == s[i + 1] && s[i + 1].next == s[i] {
        assert t[i + 1].prev == t[i + 2] && t[i + 2].next == t[i + 1];
      }
      assert t[0].prev == t[1];
    }
  }

  /** The links before the first and behind the last record do not matter. */
  twostate lemma ChainKept(s: seq<Directory>)
    requires Distinct(s) && old(Chain(s))
    requires forall d :: d in s ==> (d == s[0] || d.next == old(d.next)) && (d == s[|s| - 1] || d.prev == old(d.prev))
    ensures Chain(s)
  {
    forall i | 0 <= i < |s| - 1 ensures s[i].prev == s[i + 1] && s[i + 1].next == s[i] {
      assert old(s[i].prev) == s[i + 1] && old(s[i + 1].next) == s[i];
      assert s[i] != s[|s| - 1] && s[i + 1] != s[0];
    }
  }

  lemma DistinctCons(dp: Directory, s: seq<Directory>)
    ensures Distinct([dp] + s) <==> Distinct(s) && dp !in s
  {
    var t := [dp] + s;
    assert forall i :: 0 <= i < |s| ==> t[i + 1] == s[i];
    if Distinct(t) {
      forall i, j | 0 <= i < j < |s| ensures s[i] != s[j] {
        assert t[i + 1] != t[j + 1];
      }
      forall i | 0 <= i < |s| ensures s[i] != dp {
        assert t[0] != t[i + 1];
      }
    }
  }

  /** The records of s in the order of prev, which leads from the last back to the first. */
  ghost predicate Ring(s: seq<Directory>)
    reads s`next, s`prev
  {
    && s != [] && Distinct(s)
    && Chain(s)
    && s[|s| - 1].prev == s[0] && s[0].next == s[|s| - 1]
  }

  function Head(s: seq<Directory>): Directory
    requires s != []
  {
    s[0]
  }

  function Last(s: seq<Directory>): Directory
    requires s != []
  {
    s[|s| - 1]
  }

  /** A ring may be read from any of its records. */
  lemma Turn(a: seq<Directory>, b: seq<Directory>)
    requires Ring(a + b)
    ensures a != [] && b != [] ==> Ring(b + a)
    ensures a == [] || b == [] ==> a + b == b + a
  {
    if a != [] && b != [] {
      var s, t, n := a + b, b + a, |b|;
      forall i | 0 <= i < |t| - 1 ensures t[i].prev == t[i + 1] && t[i + 1].next == t[i] {
        if i < n - 1 {
          assert s[|a| + i] == t[i] && s[|a| + i + 1] == t[i + 1];
        } else if i == n - 1 {
          assert t[i] == s[|s| - 1] && t[i + 1] == s[0];
        } else {
          assert s[i - n] == t[i] && s[i - n + 1] == t[i + 1];
        }
      }
      assert t[|t| - 1] == s[|a| - 1] && t[0] == s[|a|];
      assert s[|a| - 1].prev == s[|a| - 1 + 1];
      DistinctTurn(a, b);
    }
  }

  lemma DistinctTurn(a: seq<Directory>, b: seq<Directory>)
    requires Distinct(a + b)
    ensures Distinct(b + a)
  {
    var s, t := a + b, b + a;
    forall i, j | 0 <= i < j < |t| ensures t[i] != t[j] {
      var x := if i < |b| then |a| + i else i - |b|;
      var y := if j < |b| then |a| + j else j - |b|;
      assert s[x] == t[i] && s[y] == t[j] && x != y;
    }
  }

  lemma RingLinks(s: seq<Directory>, i: nat)
    requires Ring(s) && i < |s|
    ensures s[i].prev == s[if i < |s| - 1 then i + 1 else 0]
    ensures s[i].next == s[if i > 0 then i - 1 else |s| - 1]
  {
    if i > 0 {
      assert s[i - 1 + 1].next == s[i - 1];
    }
  }

  /** The stack: the ring without its head. */
  function Without(h: Directory, s: seq<Directory>): (r: seq<Directory>)
    ensures |r| <= |s|
  {
    if s == [] then [] else if s[0] == h then Without(h, s[1..]) else [s[0]] + Without(h, s[1..])
  }

  lemma {:induction false} WithoutIn(h: Directory, s: seq<Directory>, d: Directory)
    ensures d in Without(h, s) <==> d in s && d != h
    decreases |s|
  {
    if s != [] {
      WithoutIn(h, s[1..], d);
    }
  }

  lemma {:induction false} WithoutAppend(h: Directory, a: seq<Directory>, b: seq<Directory>)
    ensures Without(h, a + b) == Without(h, a) + Without(h, b)
    decreases |a|
  {
    if a == [] {
      assert a + b == b;
    } else {
      assert (a + b)[1..] == a[1..] + b;
      WithoutAppend(h, a[1..], b);
    }
  }

  lemma {:induction false} WithoutLength(h: Directory, s: seq<Directory>)
    requires Distinct(s)
    ensures |Without(h, s)| == |s| - (if h in s then 1 else 0)
    ensures Distinct(Without(h, s))
    decreases |s|
  {
    if s != [] {
      WithoutLength(h, s[1..]);
      if s[0] == h {
        assert h !in s[1..];
      }
      WithoutIn(h, s[1..], s[0]);
    }
  }

  /** Turning the ring turns the stack. */
  lemma TurnStack(h: Directory, loop: seq<Directory>, j: nat)
    requires j < |loop| && Distinct(loop) && h in loop && loop[j] != h
    ensures var i, s := |Without(h, loop[..j])|, Without(h, loop);
            i < |s| && s[i] == loop[j] && Without(h, loop[j..] + loop[..j]) == s[i..] + s[..i]
  {
    var a, b := loop[..j], loop[j..];
    assert loop == a + b;
    WithoutAppend(h, a, b);
    WithoutAppend(h, b, a);
    assert Without(h, b)[0] == b[0];
  }

  /** Taking a record out of the ring takes it out of the stack. */
  lemma DropStack(h: Directory, loop: seq<Directory>, j: nat)
    requires j < |loop| && Ring(loop) && h in loop && loop[j] != h
    ensures var i, s := |Without(h, loop[..j])|, Without(h, loop);
            i < |s| && s[i] == loop[j] && Without(h, loop[..j] + loop[j + 1..]) == s[..i] + s[i + 1..]
  {
    var a, b := loop[..j], loop[j + 1..];
    assert loop == a + ([loop[j]] + b);
    WithoutAppend(h, a, [loop[j]] + b);
    assert ([loop[j]] + b)[1..] == b;
    WithoutAppend(h, a, b);
    Middle(Without(h, a), loop[j], Without(h, b));
  }

  lemma Middle(a: seq<Directory>, d: Directory, b: seq<Directory>)
    ensures var s, i := a + ([d] + b), |a|; i < |s| && s[i] == d && s[..i] == a && s[i + 1..] == b
  {
  }

  // ---------------------------------------------------------------- references

  /** Every record in use is counted, none of them was freed, and a held record that left the ring has no
      links. */
  ghost predicate Counted(loop: seq<Directory>, refs: multiset<Directory>, freed: set<Directory>)
    reads loop`count, refs`count, refs`next, refs`prev
  {
    && (forall d :: d in freed ==> d !in loop && d !in refs)
    && (forall d :: d in loop ==> d.count == refs[d])
    && (forall d :: d in refs ==> d.count == refs[d])
    && (forall d :: d in refs && d !in loop ==> d.next == null && d.prev == null)
  }

  /** One count too few is right for one reference fewer, and a record without either may go. */
  lemma CountDown(dp: Directory, loop: seq<Directory>, refs: multiset<Directory>, freed: set<Directory>)
    requires dp in refs
    requires forall d :: d in freed ==> d !in loop && d !in refs
    requires forall d :: d in loop || d in refs ==> d.count == refs[d] - if d == dp then 1 else 0
    requires forall d :: d in refs && d !in loop ==> d.next == null && d.prev == null
    ensures Counted(loop, refs - multiset{dp}, freed)
    ensures dp !in loop && dp.count == 0 ==> Counted(loop, refs - multiset{dp}, freed + {dp})
    ensures dp.count == (refs - multiset{dp})[dp]
  {
    var r := refs - multiset{dp};
    assert forall d :: d in r ==> d in refs;
    assert forall d :: d != dp ==> r[d] == refs[d];
  }

  // ---------------------------------------------------------------- the directory commands

  class Dirs {
    var dhead: Directory
    var dcwd: Directory
    /** The ring from dcwd along prev. */
    ghost var loop: seq<Directory>
    /** The references job records hold. */
    ghost var refs: multiset<Directory>
    /** Records given back to the allocator, and all records there ever were. */
    ghost var freed: set<Directory>
    ghost var made: set<Directory>

    ghost predicate OnRing()
      reads this`dhead, this`dcwd, this`loop, this`refs, loop`next, loop`prev
    {
      Ring(loop) && loop[0] == dcwd && dcwd != dhead && dhead in loop && dhead !in refs
    }

    ghost predicate Valid()
      reads this`dhead, this`dcwd, this`loop, this`refs, this`freed
      reads loop`next, loop`prev, loop`count, refs`next, refs`prev, refs`count
    {
      OnRing() && Counted(loop, refs, freed)
    }

    ghost function Stack(): seq<Directory>
      reads this
    {
      Without(dhead, loop)
    }

    /** dinit */
    constructor (name: Word)
      ensures Valid() && fresh(dhead) && fresh(dcwd) && Stack() == [dcwd] && dcwd.name == name
      ensures refs == multiset{} && freed == {} && Accounted()
    {
      var head := new Directory([]);
      var dp := new Directory(name);
      head.next, head.prev, dp.next, dp.prev := dp, dp, head, head;
      dhead, dcwd := head, dp;
      loop, refs, freed, made := [dp, head], multiset{}, {}, {dp, head};
      new;
      assert loop[1..] == [dhead] && Without(dhead, [dhead]) == [];
    }

    /** The job table counts the current directory. */
    method Hold()
      requires Valid()
      modifies this`refs, dcwd`count
      ensures Valid() && refs == old(refs) + multiset{dcwd}
    {
      dcwd.count := dcwd.count + 1;
      refs := refs + multiset{dcwd};
    }

    /** dfree: a record off the ring is kept while a job counts it. */
    method Dfree(dp: Directory)
      requires dp !in freed && dp.count == refs[dp]
      modifies this`freed, dp`next, dp`prev
      ensures if dp in refs then dp.next == null && dp.prev == null && freed == old(freed)
              else unchanged(dp) && freed == old(freed) + {dp}
    {
      if dp.count != 0 {
        dp.next, dp.prev := null, null;
      } else {
        freed := freed + {dp};
      }
    }

    /** A record in use is linked exactly when it is on the ring. */
    lemma DetachedIfOff(dp: Directory)
      requires Valid() && (dp in loop || dp in refs)
      ensures (dp in loop) == (dp.next != null)
      ensures dp !in freed
    {
      if dp in loop {
        var i: nat :| i < |loop| && loop[i] == dp;
        RingLinks(loop, i);
      }
    }

    /** One hold fewer. */
    method Uncount(dp: Directory)
      requires Valid() && dp in refs
      modifies dp`count
      ensures var r := refs - multiset{dp};
              && OnRing() && Counted(loop, r, freed) && dp.count == r[dp]
              && (dp !in loop && dp.count == 0 ==> Counted(loop, r, freed + {dp}))
      ensures (dp in loop) == (dp.next != null)
    {
      hide Ring, Without;
      DetachedIfOff(dp);
      dp.count := dp.count - 1;
      CountDown(dp, loop, refs, freed);
    }

    /** A job record that counts dp goes away: dp is freed when it was the last one and dp is off the ring
        (the call of dfree there always finds a count of 0). */
    method Release(dp: Directory)
      requires Valid() && dp in refs
      modifies this`refs, this`freed, dp`count
      ensures Valid() && refs == old(refs) - multiset{dp}
      ensures freed == old(freed) + if dp in loop || dp in refs then {} else {dp}
    {
      hide Ring, Without, Counted, Distinct, Chain;
      Uncount(dp);
      refs := refs - multiset{dp};
      assert OnRing();
      if dp.count == 0 && dp.next == null {
        freed := freed + {dp};
        assert OnRing();
      }
    }

    /** The neighbours of dp are linked to each other. */
    static method Unlink(dp: Directory, ghost rest: seq<Directory>)
      requires rest != [] && Ring([dp] + rest)
      modifies Head(rest)`next, Last(rest)`prev
      ensures Ring(rest)
    {
      hide Chain, Distinct;
      ChainCons(dp, rest);
      DistinctCons(dp, rest);
      assert dp.next == rest[|rest| - 1];
      dp.prev.next := dp.next;
      dp.next.prev := dp.prev;
      ChainKept(rest);
    }

    /** The new record goes between the current directory and what its next leads to. */
    static method Link(dp: Directory, cwd: Directory, ghost s: seq<Directory>, ghost refs: multiset<Directory>, ghost freed: set<Directory>)
      requires Ring(s) && cwd == s[0] && dp !in s && Counted([dp] + s, refs, freed)
      modifies dp`next, dp`prev, Head(s)`next, Last(s)`prev
      ensures Ring([dp] + s) && Counted([dp] + s, refs, freed)
    {
      hide Chain, Distinct;
      DistinctCons(dp, s);
      dp.prev := cwd;
      dp.next := cwd.next;
      cwd.next := dp;
      dp.next.prev := dp;
      ChainKept(s);
      ChainCons(dp, s);
    }

    /** The new record takes the place of the current directory. */
    static method Replace(dp: Directory, cwd: Directory, ghost rest: seq<Directory>)
      requires Ring([cwd] + rest) && rest != [] && dp !in [cwd] + rest
      modifies dp`next, dp`prev, Head(rest)`next, Last(rest)`prev
      ensures Ring([dp] + rest)
    {
      hide Chain, Distinct;
      ChainCons(cwd, rest);
      DistinctCons(cwd, rest);
      DistinctCons(dp, rest);
      assert cwd.next == rest[|rest| - 1] && cwd.prev == rest[0];
      dp.next := cwd.next;
      dp.prev := cwd.prev;
      dp.prev.next := dp;
      dp.next.prev := dp;
      ChainKept(rest);
      ChainCons(dp, rest);
    }

    /** The walk of dfind for `+n`, n steps along prev past dhead; null for the error. */
    method Dfind(n: nat) returns (dp: Directory?, ghost j: nat)
      requires Valid() && n > 0
      ensures (dp != null) == (n < |Stack()|)
      ensures dp != null ==> 0 < j < |loop| && loop[j] == dp == Stack()[n] && dp != dhead && |Without(dhead, loop[..j])| == n
    {
      dp, j := dcwd, 0;
      var i := n;
      while i != 0
        invariant 0 <= i <= n && j < |loop| && dp == loop[j] && dp != dhead && (i < n ==> j > 0)
        invariant |Without(dhead, loop[..j])| == n - i
      {
        j := Step(loop, dhead, j);
        dp := dp.prev;
        if dp == dhead {
          dp := dp.prev;
        }
        if dp == dcwd {
          return null, 0;
        }
        i := i - 1;
      }
      TurnStack(dhead, loop, j);
    }

    /** What a command leaves alone: references, and all records but those it takes off the ring. */
    twostate predicate Gone(new out: set<Directory>)
      reads this
    {
      && refs == old(refs) && dhead == old(dhead)
      && freed == old(freed) + set d | d in out && d !in refs
    }

    /** Every record there ever was is on the ring, held by a job, or freed. */
    ghost predicate Accounted()
      reads this`made, this`loop, this`refs, this`freed
    {
      (forall d <- made :: d in loop || d in refs || d in freed) && forall d <- loop :: d in made
    }

    /** The ring gains only new records, and a record that leaves it is held or freed. */
    twostate predicate Tracked()
      reads this
    {
      && old(made) <= made && (forall d <- made :: d in old(made) || d in loop)
      && (forall d <- loop :: d in old(loop) || (fresh(d) && d in made))
      && (forall d <- old(loop) :: d in loop || d in refs || d in freed)
    }

    /** A record goes off the ring, and to the allocator unless a job counts it. */
    method Discard(dp: Directory, ghost a: seq<Directory>, ghost b: seq<Directory>)
      requires a + b != [] && Ring([dp] + (a + b)) && Counted([dp] + (a + b), refs, freed)
      modifies this`freed, dp`next, dp`prev, Head(a + b)`next, Last(a + b)`prev
      ensures Ring(b + a) && Counted(b + a, refs, freed)
      ensures freed == old(freed) + if dp in refs then {} else {dp}
    {
      hide Ring, Chain, Distinct;
      ghost var rest := a + b;
      RingWithout(dp, rest);
      assert dp in [dp] + rest && forall d :: d in rest ==> d in [dp] + rest;
      Unlink(dp, rest);
      Dfree(dp);
      assert Counted(rest, refs, freed);
      TurnRing(a, b, refs, freed);
    }

    /** A new record replaces the current directory, which goes the same way. */
    method Renew(dp: Directory, ghost rest: seq<Directory>)
      requires rest != [] && Ring([dcwd] + rest) && Counted([dcwd] + rest, refs, freed)
      requires dp !in [dcwd] + rest && dp !in refs && dp !in freed && dp.count == 0
      modifies this`freed, dp`next, dp`prev, dcwd`next, dcwd`prev, Head(rest)`next, Last(rest)`prev
      ensures Ring([dp] + rest) && Counted([dp] + rest, refs, freed)
      ensures freed == old(freed) + if dcwd in refs then {} else {dcwd}
    {
      DistinctCons(dcwd, rest);
      assert dcwd in [dcwd] + rest && forall d :: d in rest ==> d in [dcwd] + rest;
      assert forall d :: d in [dp] + rest ==> d in rest || d == dp;
      Replace(dp, dcwd, rest);
      Dfree(dcwd);
    }

    /** The current directory leaves the ring and dp, further down the stack, becomes current. */
    method Leave(dp: Directory, ghost j: nat)
      requires Valid() && 0 < j < |loop| && dp == loop[j] && dp != dhead
      modifies this`dcwd, this`loop, this`freed, loop
      ensures Valid() && Tracked() && Gone({old(dcwd)})
      ensures var s, n := old(Stack()), |Without(dhead, old(loop[..j]))|;
              0 < n < |s| && Stack() == s[n..] + s[1..n]
    {
      hide Ring, Counted, Without, Distinct;
      ghost var a, b := CdStack(dhead, loop, j);
      assert (a + b)[0] == loop[1] && (a + b)[|a + b| - 1] == loop[|loop| - 1];
      Discard(dcwd, a, b);
      loop := b + a;
      dcwd := dp;
    }

    /** A new directory takes the place of the current one. */
    method Enter(name: Word)
      requires Valid()
      modifies this`dcwd, this`loop, this`freed, this`made, loop
      ensures Valid() && Tracked() && Gone({old(dcwd)})
      ensures var s := old(Stack());
              s != [] && Stack() == [dcwd] + s[1..] && fresh(dcwd) && dcwd.name == name
    {
      hide Ring, Counted, Without, Distinct;
      var dp := new Directory(name);
      made := made + {dp};
      Seat(dp);
    }

    method Seat(dp: Directory)
      requires Valid() && dp !in loop && dp !in refs && dp !in freed && dp.count == 0
      modifies this`dcwd, this`loop, this`freed, dp, loop
      ensures Valid() && dcwd == dp && old(loop) != [] && old(loop)[0] == old(dcwd) && loop == [dp] + old(loop)[1..]
      ensures dhead == old(dhead) && freed == old(freed) + if old(dcwd) in refs then {} else {old(dcwd)}
      ensures old(Stack()) != [] && Stack() == [dp] + old(Stack())[1..]
    {
      hide Ring, Counted, Without, Distinct;
      StackTop(dhead, loop);
      ghost var rest := loop[1..];
      assert loop == [dcwd] + rest;
      Renew(dp, rest);
      StackPush(dhead, dp, rest);
      loop := [dp] + rest;
      dcwd := dp;
    }

    /** A new directory on top. */
    method Push(name: Word)
      requires Valid()
      modifies this`dcwd, this`loop, this`made, loop
      ensures Valid() && Tracked() && Gone({}) && Stack() == [dcwd] + old(Stack()) && fresh(dcwd) && dcwd.name == name
    {
      hide Ring, Counted, Without, Distinct;
      var dp := new Directory(name);
      made := made + {dp};
      SeatAbove(dp);
    }

    method SeatAbove(dp: Directory)
      requires Valid() && dp !in loop && dp !in refs && dp !in freed && dp.count == 0
      modifies this`dcwd, this`loop, dp, loop
      ensures Valid() && dcwd == dp && loop == [dp] + old(loop) && Stack() == [dp] + old(Stack())
    {
      hide Ring, Counted, Without, Distinct;
      CountedNew(dp, loop, refs, freed);
      Link(dp, dcwd, loop, refs, freed);
      StackPush(dhead, dp, loop);
      loop := [dp] + loop;
      dcwd := dp;
    }

    /** The two top directories change places; dp = loop[j] is the second. */
    method Swap(dp: Directory, ghost j: nat)
      requires Valid() && 0 < j < |loop| && dp == loop[j] && dp != dhead && |Without(dhead, loop[..j])| == 1
      modifies this`dcwd, this`loop, loop
      ensures Valid() && Tracked() && Gone({})
      ensures var s := old(Stack()); |s| > 1 && Stack() == [s[1], s[0]] + s[2..]
    {
      hide Ring, Counted, Without, Distinct;
      ghost var a, b := loop[..j], loop[j + 1..];
      SwapStack(dhead, loop, j);
      TakeOut(loop, j, refs, freed);
      assert a[0] == dcwd;
      MoveUp(dp, dcwd, a, b);
      loop := [dp] + (a + b);
      dcwd := dp;
    }

    /** dp goes from its place on the ring to the place above the current directory. */
    method MoveUp(dp: Directory, cwd: Directory, ghost a: seq<Directory>, ghost b: seq<Directory>)
      requires a != [] && a[0] == cwd && Ring([dp] + (b + a)) && Counted([dp] + (b + a), refs, freed) && dp !in b + a
      modifies dp, a, b
      ensures Ring([dp] + (a + b)) && Counted([dp] + (a + b), refs, freed)
    {
      hide Ring, Distinct;
      Unlink(dp, b + a);
      assert Counted([dp] + (b + a), refs, freed);
      Turn(b, a);
      assert forall d :: d in [dp] + (a + b) <==> d in [dp] + (b + a);
      Link(dp, cwd, a + b, refs, freed);
    }

    /** loop[j] comes to the top and the ring stays as it is. */
    method Rotate(dp: Directory, ghost j: nat)
      requires Valid() && j < |loop| && dp == loop[j] && dp != dhead
      modifies this`dcwd, this`loop
      ensures Valid() && Tracked() && Gone({})
      ensures var s, n := old(Stack()), |Without(dhead, old(loop[..j]))|;
              n < |s| && Stack() == s[n..] + s[..n]
    {
      hide Ring, Counted, Without, Distinct;
      RotateRing(dhead, loop, j, refs, freed);
      loop := loop[j..] + loop[..j];
      dcwd := dp;
    }

    /** A directory below the top goes. */
    method Remove(dp: Directory, ghost j: nat)
      requires Valid() && 0 < j < |loop| && dp == loop[j] && dp != dhead
      modifies this`loop, this`freed, loop
      ensures Valid() && Tracked() && Gone({dp})
      ensures var s, n := old(Stack()), |Without(dhead, old(loop[..j]))|;
              n < |s| && s[n] == dp && Stack() == s[..n] + s[n + 1..]
    {
      hide Ring, Counted, Without;
      ghost var a, b := loop[..j], loop[j + 1..];
      DropStack(dhead, loop, j);
      TakeOut(loop, j, refs, freed);
      Discard(dp, b, a);
      loop := a + b;
    }

    /** cd: `n` > 0 for an argument +n, otherwise `name` is where the shell went, and `ok` says whether it
        could. */
    method Dochngd(n: int, name: Word, ok: bool) returns (r: Outcome)
      requires Valid()
      modifies this, loop, refs
      ensures Valid() && Tracked()
      ensures r == if n > 0 && n >= |old(Stack())| then Deep else if !ok then CantChange else Done
      ensures r != Done ==> Stack() == old(Stack()) && Gone({})
      ensures r == Done ==> Gone({old(dcwd)})
      ensures r == Done && n > 0 ==> Stack() == old(Stack())[n..] + old(Stack())[1..n]
      ensures r == Done && n <= 0 ==> fresh(dcwd) && dcwd.name == name && Stack() == [dcwd] + old(Stack())[1..]
    {
      hide Ring, Counted, Without, Distinct;
      if n > 0 {
        var dp, j := Dfind(n);
        if dp == null {
          return Deep;
        }
        if !ok {
          return CantChange;
        }
        Leave(dp, j);
      } else {
        if !ok {
          return CantChange;
        }
        Enter(name);
      }
      return Done;
    }

    /** pushd: without an argument the two top directories change places, a number brings that one to the
        top, otherwise `name` goes on top. */
    method Dopushd(n: Option<int>, name: Word, ok: bool) returns (r: Outcome)
      requires Valid()
      modifies this, loop, refs
      ensures Valid() && Tracked() && Gone({})
      ensures r == match n
                   case None => if |old(Stack())| == 1 then NoDir else if ok then Done else CantChange
                   case Some(k) => if k > 0 && k >= |old(Stack())| then Deep else if ok then Done else CantChange
      ensures r != Done ==> Stack() == old(Stack())
      ensures r == Done ==>
                match n
                case None => Stack() == [old(Stack())[1], old(Stack())[0]] + old(Stack())[2..]
                case Some(k) => if k > 0 then Stack() == old(Stack())[k..] + old(Stack())[..k]
                                else fresh(dcwd) && dcwd.name == name && Stack() == [dcwd] + old(Stack())
    {
      hide Ring, Counted, Without, Distinct;
      if n == None {
        ghost var j := Second(dhead, loop);
        var dp := dcwd.prev;
        if dp == dhead {
          dp := dhead.prev;
        }
        if dp == dcwd {
          return NoDir;
        }
        if !ok {
          return CantChange;
        }
        Swap(dp, j);
      } else if n.value > 0 {
        var dp, j := Dfind(n.value);
        if dp == null {
          return Deep;
        }
        if !ok {
          return CantChange;
        }
        Rotate(dp, j);
      } else {
        if !ok {
          return CantChange;
        }
        Push(name);
      }
      return Done;
    }

    /** popd: without an argument the top goes and the shell moves to the next directory; with +n that
        directory goes. */
    method Dopopd(n: Option<int>, ok: bool) returns (r: Outcome)
      requires Valid()
      modifies this, loop, refs
      ensures Valid() && Tracked()
      ensures r == match n
                   case None => if |old(Stack())| == 1 then Empty else if ok then Done else CantChange
                   case Some(k) => if k <= 0 then BadDir else if k >= |old(Stack())| then Deep else Done
      ensures r != Done ==> Stack() == old(Stack()) && Gone({})
      ensures r == Done ==> var k := if n.None? then 0 else n.value;
                            Gone({old(Stack())[k]}) && Stack() == old(Stack())[..k] + old(Stack())[k + 1..]
    {
      hide Ring, Counted, Without, Distinct;
      if n == None {
        ghost var j := Second(dhead, loop);
        if dcwd.prev == dhead && dcwd.next == dhead {
          return Empty;
        }
        var p := dcwd.prev;
        if p == dhead {
          p := dhead.prev;
        }
        if !ok {
          return CantChange;
        }
        StackTop(dhead, loop);
        Leave(p, j);
      } else if n.value <= 0 {
        return BadDir;
      } else {
        var dp, j := Dfind(n.value);
        if dp == null {
          return Deep;
        }
        Remove(dp, j);
      }
      return Done;
    }
  }

  /** The current directory is on top. */
  lemma StackTop(h: Directory, loop: seq<Directory>)
    requires Ring(loop) && h in loop && loop[0] != h
    ensures |loop| > 1 && Without(h, loop) != [] && Without(h, loop)[0] == loop[0] && Without(h, loop[1..]) == Without(h, loop)[1..]
  {
  }

  lemma StackPush(h: Directory, dp: Directory, s: seq<Directory>)
    requires dp != h
    ensures Without(h, [dp] + s) == [dp] + Without(h, s)
  {
    assert ([dp] + s)[1..] == s;
  }

  lemma CountedNew(dp: Directory, loop: seq<Directory>, refs: multiset<Directory>, freed: set<Directory>)
    requires Counted(loop, refs, freed) && dp.count == 0 && dp !in refs && dp !in freed
    ensures Counted([dp] + loop, refs, freed)
  {
    assert forall d :: d in [dp] + loop ==> d == dp || d in loop;
    assert forall d :: d in loop ==> d in [dp] + loop;
  }

  lemma RotateRing(h: Directory, loop: seq<Directory>, j: nat, refs: multiset<Directory>, freed: set<Directory>)
    requires Ring(loop) && Counted(loop, refs, freed) && j < |loop| && h in loop && loop[j] != h
    ensures var t, s, n := loop[j..] + loop[..j], Without(h, loop), |Without(h, loop[..j])|;
            && Ring(t) && Counted(t, refs, freed) && h in t && t[0] == loop[j]
            && n < |s| && Without(h, t) == s[n..] + s[..n]
  {
    hide Chain, Counted, Without;
    assert loop == loop[..j] + loop[j..];
    TurnStack(h, loop, j);
    TurnRing(loop[..j], loop[j..], refs, freed);
  }

  /** The ring behind the current directory, and the stack when that one goes and loop[j] comes to the top. */
  lemma CdStack(h: Directory, loop: seq<Directory>, j: nat) returns (a: seq<Directory>, b: seq<Directory>)
    requires Ring(loop) && h in loop && loop[0] != h && 0 < j < |loop| && loop[j] != h
    ensures loop == [loop[0]] + (a + b) && b != [] && b[0] == loop[j] && h in b + a
    ensures var s, n := Without(h, loop), |Without(h, loop[..j])|;
            0 < n < |s| && Without(h, b + a) == s[n..] + s[1..n]
  {
    hide Chain, Without, Distinct;
    var rest := loop[1..];
    a, b := rest[..j - 1], rest[j - 1..];
    Pieces(loop, j);
    DistinctCons(loop[0], rest);
    TurnStack(h, rest, j - 1);
    StackPush(h, loop[0], rest);
    StackPush(h, loop[0], a);
    Shift(loop[0], Without(h, rest), |Without(h, a)|);
  }

  lemma Pieces(loop: seq<Directory>, j: nat)
    requires 0 < j < |loop|
    ensures var rest := loop[1..];
            && loop == [loop[0]] + rest && rest == rest[..j - 1] + rest[j - 1..] && rest[j - 1..][0] == rest[j - 1] == loop[j]
            && loop[..j] == [loop[0]] + rest[..j - 1]
  {
  }

  lemma Shift(d: Directory, t: seq<Directory>, i: nat)
    requires i < |t|
    ensures var s := [d] + t; t[i..] == s[i + 1..] && t[..i] == s[1..i + 1]
  {
  }

  /** The record under the top, past dhead; the top itself when there is no other. */
  lemma Second(h: Directory, loop: seq<Directory>) returns (j: nat)
    requires Ring(loop) && h in loop && loop[0] != h
    ensures j < |loop| && loop[j] != h && loop[j] == if loop[0].prev == h then h.prev else loop[0].prev
    ensures loop[j] == loop[0] ==> j == 0
    ensures j == 0 <==> |Without(h, loop)| == 1
    ensures j == 0 <==> loop[0].prev == h && loop[0].next == h
    ensures j > 0 ==> |Without(h, loop[..j])| == 1
  {
    j := Step(loop, h, 0);
    assert loop[..0] == [];
    WithoutLength(h, loop);
    RingLinks(loop, 0);
    if j > 0 {
      var _, _ := CdStack(h, loop, j);
    }
  }

  lemma SwapStack(h: Directory, loop: seq<Directory>, j: nat)
    requires Ring(loop) && h in loop && loop[0] != h && 0 < j < |loop| && loop[j] != h && |Without(h, loop[..j])| == 1
    ensures var s := Without(h, loop);
            |s| > 1 && Without(h, [loop[j]] + (loop[..j] + loop[j + 1..])) == [s[1], s[0]] + s[2..]
  {
    hide Chain, Without;
    DropStack(h, loop, j);
    StackPush(h, loop[j], loop[..j] + loop[j + 1..]);
    var s := Without(h, loop);
    assert s[..1] == [s[0]];
  }

  /** A record in the middle is taken out by reading the ring from there. */
  lemma TakeOut(loop: seq<Directory>, j: nat, refs: multiset<Directory>, freed: set<Directory>)
    requires Ring(loop) && 0 < j < |loop|
    ensures var s := loop[j + 1..] + loop[..j];
            && Ring([loop[j]] + s) && loop[j] !in s && (forall d :: d in loop <==> d in [loop[j]] + s)
            && (Counted(loop, refs, freed) ==> Counted([loop[j]] + s, refs, freed))
  {
    var s := loop[j + 1..] + loop[..j];
    assert loop == loop[..j] + loop[j..] && [loop[j]] + s == loop[j..] + loop[..j];
    TurnRing(loop[..j], loop[j..], refs, freed);
    DistinctCons(loop[j], s);
  }

  lemma RingWithout(dp: Directory, s: seq<Directory>)
    requires Ring([dp] + s)
    ensures dp !in s
  {
    DistinctCons(dp, s);
  }

  /** Reading the ring from elsewhere changes nothing but the start. */
  lemma TurnRing(a: seq<Directory>, b: seq<Directory>, refs: multiset<Directory>, freed: set<Directory>)
    requires Ring(a + b)
    ensures Ring(b + a) && (Counted(a + b, refs, freed) ==> Counted(b + a, refs, freed))
    ensures forall d :: d in a + b <==> d in b + a
  {
    Turn(a, b);
  }

  /** The next directory along prev; behind the last one comes the first. */
  lemma Step(loop: seq<Directory>, h: Directory, j: nat) returns (k: nat)
    requires Ring(loop) && h in loop && loop[0] != h && j < |loop| && loop[j] != h
    ensures k < |loop| && loop[k] != h
    ensures loop[k] == if loop[j].prev == h then h.prev else loop[j].prev
    ensures k > 0 ==> |Without(h, loop[..k])| == |Without(h, loop[..j])| + 1
    ensures k == 0 ==> |Without(h, loop)| == |Without(h, loop[..j])| + 1
  {
    RingLinks(loop, j);
    k := if j + 1 == |loop| then 0 else j + 1;
    if loop[k] == h {
      RingLinks(loop, k);
      var m := k + 1;
      k := if m == |loop| then 0 else m;
    }
    var end := if k == 0 then |loop| else k;
    assert loop[..end] == loop[..j] + loop[j..end];
    WithoutAppend(h, loop[..j], loop[j..end]);
    if end == j + 1 {
      assert loop[j..end] == [loop[j]];
    } else {
      assert loop[j..end] == [loop[j]] + [h];
    }
    assert loop[..|loop|] == loop;
  }
}
