/** The output side of dd: re-blocking under short and interrupted writes, and sparse output (dd.c). */
module DdOut {

  type Byte = b: int | 0 <= b < 256

  /** What one write call does: takes up to n bytes, is interrupted before it takes any, or fails for good. */
  datatype Reply = Took(n: nat) | Interrupted | Refused

  function Zeros(n: nat): (z: seq<Byte>)
    ensures |z| == n && forall i :: 0 <= i < n ==> z[i] == 0
  {
    seq(n, _ => 0)
  }

  /** A file after a write of b at pos: a gap before pos reads as zeros. */
  function Overlay(file: seq<Byte>, pos: nat, b: seq<Byte>): (r: seq<Byte>) {
    if pos >= |file| then file + Zeros(pos - |file|) + b
    else if pos + |b| >= |file| then file[..pos] + b
    else file[..pos] + b + file[pos + |b|..]
  }

  predicate AllZero(s: seq<Byte>) {
    forall i :: 0 <= i < |s| ==> s[i] == 0
  }

  lemma OverlayTwice(file: seq<Byte>, pos: nat, a: seq<Byte>, b: seq<Byte>)
    ensures Overlay(Overlay(file, pos, a), pos + |a|, b) == Overlay(file, pos, a + b)
  {
    hide Overlay;
    var x, y := Overlay(Overlay(file, pos, a), pos + |a|, b), Overlay(file, pos, a + b);
    OverlayAt(file, pos, a, 0);
    OverlayAt(Overlay(file, pos, a), pos + |a|, b, 0);
    OverlayAt(file, pos, a + b, 0);
    forall i | 0 <= i < |x| ensures x[i] == y[i] {
      OverlayAt(file, pos, a, i);
      OverlayAt(Overlay(file, pos, a), pos + |a|, b, i);
      OverlayAt(file, pos, a + b, i);
    }
  }

  lemma OverlayAt(file: seq<Byte>, pos: nat, b: seq<Byte>, i: nat)
    ensures |Overlay(file, pos, b)| == if pos + |b| > |file| then pos + |b| else |file|
    ensures i < |Overlay(file, pos, b)| ==>
              Overlay(file, pos, b)[i] == if pos <= i < pos + |b| then b[i - pos] else if i < |file| then file[i] else 0
  {
  }

  lemma ZerosAdd(m: nat, n: nat)
    ensures Zeros(m) + Zeros(n) == Zeros(m + n)
  {
  }

  lemma ZeroBytes(s: seq<Byte>)
    requires AllZero(s)
    ensures s == Zeros(|s|)
  {
  }

  /** Writing b behind a, which may be nothing yet. */
  lemma OverlayFrom(was: seq<Byte>, p0: nat, a: seq<Byte>, b: seq<Byte>)
    ensures a == [] ==> Overlay(was, p0 + |a|, b) == Overlay(was, p0, a + b)
    ensures Overlay(Overlay(was, p0, a), p0 + |a|, b) == Overlay(was, p0, a + b)
  {
    OverlayTwice(was, p0, a, b);
    assert a == [] ==> a + b == b;
  }

  lemma OverlayAtEnd(was: seq<Byte>, pending: int, b: seq<Byte>)
    ensures pending >= 0 ==> Overlay(was, |was| + pending, b) == was + Zeros(pending) + b
    ensures pending >= 0 ==> |Overlay(was, |was| + pending, b)| == |was| + pending + |b|
  {
  }

  // ---------------------------------------------------------------- what a script comes to

  /** What the next write of len bytes does; when the script has run out, writes are full. */
  function Answer(script: seq<Reply>, len: nat): Reply {
    if script == [] || (script[0].Took? && script[0].n > len) then Took(len) else script[0]
  }

  function Used(script: seq<Reply>): seq<Reply> {
    if script == [] then [] else script[1..]
  }

  /** No write fails for good. */
  predicate Willing(script: seq<Reply>) {
    forall r <- script :: r != Refused && r != Took(0)
  }

  /** The pending seek and the script that a block leaves behind, or the end of the run. */
  datatype Sent = Sent(pending: int, script: seq<Reply>) | Stopped

  /** A block, or what is left of it, under a script. */
  function Send(rest: seq<Byte>, pending: int, script: seq<Reply>, sparse: bool): Sent
    decreases |script|, |rest|
  {
    if sparse && AllZero(rest) then Sent(pending + |rest|, script)
    else
      match Answer(script, |rest|)
      case Refused => Stopped
      case Interrupted => Send(rest, 0, Used(script), sparse)
      case Took(k) =>
        if k == 0 then Stopped
        else if k == |rest| then Sent(0, Used(script))
        else Send(rest[k..], 0, Used(script), sparse)
  }

  /** All full blocks of d, one after the other. */
  function SendBlocks(d: seq<Byte>, dbsz: nat, s: Sent, sparse: bool): Sent
    requires dbsz > 0
    decreases |d|
  {
    if s.Stopped? || |d| < dbsz then s else SendBlocks(d[dbsz..], dbsz, Send(d[..dbsz], s.pending, s.script, sparse), sparse)
  }

  /** n bytes are whole blocks of k. */
  predicate Whole(n: nat, k: nat)
    requires 0 < k
    decreases n
  {
    n == 0 || (n >= k && Whole(n - k, k))
  }

  /** One block more. */
  lemma {:induction false} SendBlocksMore(a: seq<Byte>, b: seq<Byte>, dbsz: nat, s: Sent, sparse: bool)
    requires dbsz > 0 && Whole(|a|, dbsz) && |b| == dbsz
    ensures var t := SendBlocks(a, dbsz, s, sparse);
            SendBlocks(a + b, dbsz, s, sparse) == if t.Stopped? then t else Send(b, t.pending, t.script, sparse)
    decreases |a|
  {
    hide Send;
    if s.Sent? {
      if |a| < dbsz {
        assert a == [] && a + b == b && b[..dbsz] == b && b[dbsz..] == [];
      } else {
        assert (a + b)[..dbsz] == a[..dbsz] && (a + b)[dbsz..] == a[dbsz..] + b;
        SendBlocksMore(a[dbsz..], b, dbsz, Send(a[..dbsz], s.pending, s.script, sparse), sparse);
      }
    }
  }

  /** Less than a block behind whole blocks. */
  lemma {:induction false} WholeRest(n: nat, rest: nat, k: nat)
    requires 0 < k && Whole(n, k) && rest < k
    ensures Whole(n + rest, k) <==> rest == 0
    decreases n
  {
    if n > 0 {
      WholeRest(n - k, rest, k);
    }
  }

  /** A willing output never stops. */
  lemma {:induction false} WillingSends(rest: seq<Byte>, pending: int, script: seq<Reply>, sparse: bool)
    requires Willing(script) && rest != []
    ensures var s := Send(rest, pending, script, sparse); s.Sent? && Willing(s.script)
    decreases |script|, |rest|
  {
    if !(sparse && AllZero(rest)) {
      assert script != [] ==> script[0] in script;
      assert forall r <- Used(script) :: r in script;
      match Answer(script, |rest|)
      case Interrupted => WillingSends(rest, 0, Used(script), sparse);
      case Took(k) => if k != |rest| { WillingSends(rest[k..], 0, Used(script), sparse); }
    }
  }

  lemma SendStep(rest: seq<Byte>, pending: int, script: seq<Reply>, sparse: bool)
    requires rest != []
    ensures var r, s := Answer(script, |rest|), Send(rest, pending, script, sparse);
            && (r.Took? ==> r.n <= |rest|) && |Used(script)| <= |script| && (r.Interrupted? ==> |Used(script)| < |script|)
            && if sparse && AllZero(rest) then s == Sent(pending + |rest|, script)
               else if r.Refused? || r == Took(0) then s == Stopped
               else if r == Took(|rest|) then s == Sent(0, Used(script))
               else s == Send(rest[if r.Took? then r.n else 0..], 0, Used(script), sparse)
  {
    assert rest[0..] == rest;
  }

  lemma SmoothSends(rest: seq<Byte>, pending: int, sparse: bool)
    requires rest != []
    ensures Send(rest, pending, [], sparse) == Sent(if sparse && AllZero(rest) then pending + |rest| else 0, [])
  {
  }

  /** A seek shorter than the block is only left pending by a block with data in it. */
  lemma {:induction false} ShortSeek(rest: seq<Byte>, pending: int, script: seq<Reply>, sparse: bool)
    requires pending >= 0 && Send(rest, pending, script, sparse).Sent? && 0 < Send(rest, pending, script, sparse).pending < |rest|
    ensures sparse && !AllZero(rest)
    decreases |script|, |rest|
  {
    if !(sparse && AllZero(rest)) && !sparse {
      match Answer(script, |rest|)
      case Interrupted => ShortSeek(rest, 0, Used(script), sparse);
      case Took(k) =>
        if k != |rest| {
          NoSeek(rest[k..], Used(script));
        }
    }
  }

  lemma {:induction false} NoSeek(rest: seq<Byte>, script: seq<Reply>)
    requires Send(rest, 0, script, false).Sent?
    ensures Send(rest, 0, script, false).pending == 0
    decreases |script|, |rest|
  {
    match Answer(script, |rest|)
    case Interrupted => NoSeek(rest, Used(script));
    case Took(k) => if k != |rest| { NoSeek(rest[k..], Used(script)); }
  }

  lemma {:induction false} SeekIsNat(rest: seq<Byte>, pending: nat, script: seq<Reply>, sparse: bool)
    requires rest != []
    ensures Send(rest, pending, script, sparse).Sent? ==> Send(rest, pending, script, sparse).pending >= 0
    decreases |script|, |rest|
  {
    if !(sparse && AllZero(rest)) {
      match Answer(script, |rest|)
      case Refused =>
      case Interrupted => SeekIsNat(rest, 0, Used(script), sparse);
      case Took(k) => if 0 < k < |rest| { SeekIsNat(rest[k..], 0, Used(script), sparse); }
    }
  }

  /** When less than a block is pending behind whole blocks, the last of them has data in it. */
  lemma {:induction false} LastHasData(d: seq<Byte>, dbsz: nat, s: Sent, sparse: bool)
    requires dbsz > 0 && Whole(|d|, dbsz) && d != [] && (s.Sent? ==> s.pending >= 0)
    requires var t := SendBlocks(d, dbsz, s, sparse); t.Sent? && 0 < t.pending < dbsz
    ensures sparse && |d| >= dbsz && !AllZero(d[|d| - dbsz..])
    decreases |d|
  {
    var b := d[..dbsz];
    SeekIsNat(b, s.pending, s.script, sparse);
    if |d| == dbsz {
      assert b == d && d[0..] == d;
      ShortSeek(d, s.pending, s.script, sparse);
    } else {
      LastHasData(d[dbsz..], dbsz, Send(b, s.pending, s.script, sparse), sparse);
      assert d[dbsz..][|d| - dbsz - dbsz..] == d[|d| - dbsz..];
    }
  }

  // ---------------------------------------------------------------- the output side

  class Out {
    const db: array<Byte>
    const dbsz: nat
    const sparse: bool
    var dbp: nat
    var dbcnt: nat
    var pending: int
    var bytes: int
    /** The output file and its offset, and what the next writes will do (when it runs out, writes are full). */
    var file: seq<Byte>
    var pos: nat
    var script: seq<Reply>
    /** Every write takes all it is given. */
    ghost const smooth: bool
    ghost const script0: seq<Reply>

    constructor (db: array<Byte>, dbsz: nat, sparse: bool, script: seq<Reply>)
      requires 0 < dbsz <= db.Length
      ensures this.db == db && this.dbsz == dbsz && this.sparse == sparse && this.script == script
      ensures script0 == script && (smooth <==> script == [])
      ensures Valid() && Given() == [] && dbcnt == 0 && pending == 0 && file == []
    {
      this.db, this.dbsz, this.sparse, this.script := db, dbsz, sparse, script;
      smooth, script0 := script == [], script;
      dbp, dbcnt, pending, bytes, file, pos := 0, 0, 0, 0, [], 0;
    }

    /** Between calls: the offset is at the end of the file, all bytes are counted, the buffer is packed,
        and a pending seek of less than a block sits behind a partly written block that has data in it,
        which does not happen while writes are full. */
    ghost predicate Valid()
      reads this
    {
      dbp == dbcnt <= db.Length && Flushed()
    }

    ghost predicate Flushed()
      reads this
    {
      && 0 < dbsz <= db.Length && pos == |file| && 0 <= pending && bytes == |file| && (!sparse ==> pending == 0)
      && (0 < pending < dbsz ==>
            var w := dbsz - pending; w <= |file| && !AllZero(file[|file| - w..]))
      && (smooth ==> script == [] && (pending == 0 || pending >= dbsz))
      && (Willing(script0) ==> Willing(script)) && Sends(file + Zeros(pending))
    }

    /** What has left the buffer is whole blocks, and the script says what they leave pending. */
    ghost predicate Sends(d: seq<Byte>)
      reads `pending, `script
    {
      0 < dbsz && Whole(|d|, dbsz) && SendBlocks(d, dbsz, Sent(0, script0), sparse) == Sent(pending, script)
    }

    /** Everything given to the output side so far. */
    ghost function Given(): seq<Byte>
      reads this, db
      requires Valid()
    {
      file + Zeros(pending) + db[..dbcnt]
    }

    /** bwrite: one write system call. */
    method Bwrite(from: nat, len: nat) returns (r: Reply)
      requires 0 < len && from + len <= db.Length
      modifies `file, `pos, `script
      ensures r == Answer(old(script), len) && script == Used(old(script))
      ensures r.Took? ==> r.n <= len && pos == old(pos) + r.n
      ensures r.Took? && r.n > 0 ==> file == Overlay(old(file), old(pos), db[from..from + r.n])
      ensures (r.Took? && r.n == 0) || r.Refused? ==> file == old(file)
      ensures r.Interrupted? ==> file == old(file) && pos == old(pos)
    {
      if script == [] {
        r := Took(len);
      } else {
        r := if script[0].Took? && script[0].n > len then Took(len) else script[0];
        script := script[1..];
      }
      if r.Took? && r.n > 0 {
        file := Overlay(file, pos, db[from..from + r.n]);
        pos := pos + r.n;
      }
    }

    /** The test whether the rest of a block is all zero. */
    method IsZero(from: nat, cnt: nat) returns (zero: bool)
      requires from + cnt <= db.Length
      ensures zero == AllZero(db[from..from + cnt])
    {
      zero := true;
      var i := 0;
      while i < cnt
        invariant 0 <= i <= cnt && zero && AllZero(db[from..from + i])
      {
        if db[from + i] != 0 {
          assert db[from..from + cnt][i] == db[from + i];
          return false;
        }
        i := i + 1;
      }
    }

    /** The inner loop of dd_out: n bytes from the buffer at outp0 go out, in however many writes, or (sparse
        and not forced) join the pending seek once the rest of the block is zero. */
    method WriteBlock(outp0: nat, n: nat, force: bool) returns (ok: bool)
      requires 0 < n && outp0 + n <= db.Length && 0 < dbsz
      requires pos == |file| && 0 <= pos + pending && (!force ==> 0 <= pending)
      modifies `file, `pos, `script, `pending, `bytes
      ensures ok && force ==>
                && pending == 0 && pos == old(pos + pending) + n && bytes == old(bytes + pending) + n
                && file == Overlay(old(file), old(pos + pending), db[outp0..outp0 + n])
      ensures ok && !force ==> BlockSent(old(file), old(pending), old(bytes), outp0, n)
      ensures Send(old(db[outp0..outp0 + n]), old(pending), old(script), sparse && !force)
           == if ok then Sent(pending, script) else Stopped
    {
      hide Overlay, Zeros, Send, BlockSent, AllZero, Answer, Halfway;
      ghost var block, silent := db[outp0..outp0 + n], sparse && !force;
      var outp: nat, cnt: nat := outp0, n;
      ghost var p0: nat, done: nat := pos + pending, 0;
      ghost var was := file;
      StartBlock(outp0);
      while true
        invariant done + cnt == n && outp == outp0 + done && 0 < cnt
        invariant Halfway(old(file), p0, outp0, done, old(pending), old(bytes))
        invariant !force && sparse && (done > 0 || pending != old(pending)) ==> !AllZero(db[outp0..outp0 + n])
        invariant Send(block, old(pending), old(script), silent) == Send(db[outp..outp + cnt], pending, script, silent)
        decreases |script|, cnt
      {
        SendStep(db[outp..outp + cnt], pending, script, silent);
        if !force && sparse {
          var zero := IsZero(outp, cnt);
          if zero {
            SkipRest(cnt, was, p0, outp0, done, n, old(pending), old(bytes));
            return true;
          }
        }
        var r := Push(outp, cnt, was, p0, outp0, done, old(pending), old(bytes));
        if r.Refused? || (r.Took? && r.n == 0) {
          return false;
        }
        var nw := if r.Took? then r.n else 0;
        assert db[outp..outp + cnt][nw..] == db[outp + nw..outp + cnt];
        outp := outp + nw;
        if nw == n || nw == cnt {
          AllWritten(was, p0, outp0, n, old(pending), old(bytes));
          return true;
        }
        cnt := cnt - nw;
        done := done + nw;
      }
    }

    /** One round: the pending seek is made, a write is tried, and both are counted. */
    method Push(outp: nat, cnt: nat, ghost was: seq<Byte>, ghost p0: nat, ghost outp0: nat, ghost done: nat,
                ghost pending0: int, ghost bytes0: int) returns (r: Reply)
      requires Halfway(was, p0, outp0, done, pending0, bytes0) && p0 == |was| + pending0
      requires outp == outp0 + done && 0 < cnt && outp + cnt <= db.Length
      modifies `file, `pos, `script, `pending, `bytes
      ensures r == Answer(old(script), cnt) && script == Used(old(script))
      ensures r.Interrupted? || (r.Took? && r.n > 0) ==> pending == 0
      ensures r.Took? ==> r.n <= cnt
      ensures r.Interrupted? ==> Halfway(was, p0, outp0, done, pending0, bytes0)
      ensures r.Took? && r.n > 0 ==> Halfway(was, p0, outp0, done + r.n, pending0, bytes0)
    {
      hide Overlay;
      if pending != 0 {
        pos := pos + pending;
      }
      assert pos == p0 + done;
      r := Bwrite(outp, cnt);
      if r.Refused? || (r.Took? && r.n == 0) {
        return;
      }
      var nw := if r.Took? then r.n else 0;
      if r.Took? {
        assert db[outp0..outp] + db[outp..outp + nw] == db[outp0..outp + nw];
        OverlayFrom(was, p0, db[outp0..outp], db[outp..outp + nw]);
      }
      if pending != 0 {
        bytes := bytes + pending;
        pending := 0;
      }
      bytes := bytes + nw;
    }

    /** Inside a block: nothing written yet, or the first `done` bytes. */
    ghost predicate Halfway(was: seq<Byte>, p0: int, outp0: nat, done: nat, pending0: int, bytes0: int)
      reads this, db
    {
      && outp0 + done <= db.Length && 0 <= p0
      && (done == 0 ==>
            && file == was
            && ((pending == pending0 && pos == |was| && bytes == bytes0)
                || (pending == 0 && pos == p0 && bytes == bytes0 + pending0)))
      && (done > 0 ==> pending == 0 && pos == p0 + done && bytes == bytes0 + pending0 + done
                       && file == Overlay(was, p0, db[outp0..outp0 + done]))
    }

    /** A block handled without force: file and pending seek together have grown by its bytes. */
    ghost predicate BlockSent(was: seq<Byte>, pending0: int, bytes0: int, outp0: nat, n: nat)
      reads this, db
    {
      && outp0 + n <= db.Length && 0 <= pending0 && 0 <= pending && pos == |file|
      && file + Zeros(pending) == was + Zeros(pending0) + db[outp0..outp0 + n]
      && bytes - |file| == bytes0 - |was|
      && (!sparse ==> pending0 == 0 ==> pending == 0)
      && (pending == 0 || (pending == pending0 + n && file == was)
          || (pending < n <= |file| + pending && !AllZero(file[|file| + pending - n..])))
    }

    lemma StartBlock(outp0: nat)
      requires outp0 <= db.Length && pos == |file| && 0 <= pos + pending
      ensures Halfway(file, pos + pending, outp0, 0, pending, bytes)
    {
    }

    lemma AllWritten(was: seq<Byte>, p0: nat, outp0: nat, n: nat, pending0: int, bytes0: int)
      requires Halfway(was, p0, outp0, n, pending0, bytes0) && 0 < n && p0 == |was| + pending0
      ensures pending0 >= 0 ==> BlockSent(was, pending0, bytes0, outp0, n)
      ensures outp0 + n <= db.Length && pending == 0 && pos == p0 + n && bytes == bytes0 + pending0 + n
      ensures file == Overlay(was, p0, db[outp0..outp0 + n])
    {
      OverlayAtEnd(was, pending0, db[outp0..outp0 + n]);
      assert Zeros(0) == [];
    }

    /** The rest of a sparse block is zero and joins the pending seek. */
    method SkipRest(cnt: nat, ghost was: seq<Byte>, ghost p0: nat, ghost outp0: nat, ghost done: nat, ghost n: nat,
                    ghost pending0: int, ghost bytes0: int)
      requires Halfway(was, p0, outp0, done, pending0, bytes0) && done + cnt == n && cnt > 0 && outp0 + n <= db.Length
      requires p0 == |was| + pending0 && 0 <= pending0 && sparse
      requires AllZero(db[outp0 + done..outp0 + n])
      requires done > 0 || pending != pending0 ==> !AllZero(db[outp0..outp0 + n])
      modifies `pending
      ensures pending == old(pending) + cnt
      ensures BlockSent(was, pending0, bytes0, outp0, n)
    {
      hide Overlay, Zeros;
      RestZero(was, p0, outp0, done, n, pending0, bytes0);
      pending := pending + cnt;
    }

    /** Where a sparse block ends early: the rest is zero and becomes pending. */
    lemma RestZero(was: seq<Byte>, p0: nat, outp0: nat, done: nat, n: nat, pending0: int, bytes0: int)
      requires Halfway(was, p0, outp0, done, pending0, bytes0) && done < n && outp0 + n <= db.Length
      requires p0 == |was| + pending0 && 0 <= pending0
      requires AllZero(db[outp0 + done..outp0 + n])
      requires done > 0 || pending != pending0 ==> !AllZero(db[outp0..outp0 + n])
      ensures done == 0 ==> pos == |file| && file == was && pending == pending0 && bytes == bytes0
      ensures done > 0 ==> pos == |file| && pending == 0 && bytes - |file| == bytes0 - |was|
      ensures file + Zeros(pending + n - done) == was + Zeros(pending0) + db[outp0..outp0 + n]
      ensures done > 0 ==> done <= |file| && !AllZero(file[|file| - done..])
    {
      var a, b := db[outp0..outp0 + done], db[outp0 + done..outp0 + n];
      assert db[outp0..outp0 + n] == a + b;
      ZeroBytes(b);
      ZerosAdd(pending, n - done);
      OverlayAtEnd(was, pending0, a);
      if done == 0 {
        assert a == [] && b == db[outp0..outp0 + n];
      } else {
        assert file[|file| - done..] == a;
      }
    }

    /** memmove of the last dbcnt bytes before dbp to the front. */
    method Reassemble()
      requires dbcnt <= dbp <= db.Length
      modifies db, `dbp
      ensures dbp == dbcnt && db[..dbcnt] == old(db[dbp - dbcnt..dbp])
    {
      ghost var was := db[dbp - dbcnt..dbp];
      forall i | 0 <= i < dbcnt {
        db[i] := db[dbp - dbcnt + i];
      }
      dbp := dbcnt;
      assert db[..dbcnt] == was;
    }

    /** What has left the buffer and what is still in it from outp on make up `given`. */
    ghost predicate Holds(outp: nat, given: seq<Byte>)
      reads this, db
    {
      Flushed() && outp + dbcnt == dbp <= db.Length && file + Zeros(pending) + db[outp..dbp] == given
    }

    /** One block of dd_out's outer loop. */
    method OneBlock(outp: nat, ghost given: seq<Byte>) returns (ok: bool)
      requires Holds(outp, given) && dbsz <= dbcnt
      modifies `file, `pos, `script, `pending, `bytes, `dbcnt
      ensures ok ==> dbcnt == old(dbcnt) - dbsz && Holds(outp + dbsz, given)
      ensures Willing(script0) ==> ok
    {
      hide Overlay, Zeros, AllZero, BlockSent, Send, SendBlocks, Whole;
      ghost var file0, pending0, bytes0, was := file, pending, bytes, script;
      if Willing(script0) {
        WillingSends(db[outp..outp + dbsz], pending, script, sparse);
      }
      ok := WriteBlock(outp, dbsz, false);
      if ok {
        StillFlushed(file0, pending0, bytes0, was, outp);
        Shorter(file0, pending0, outp, given);
        dbcnt := dbcnt - dbsz;
      }
    }

    /** dd_out(0): full blocks out, the rest to the front of the buffer. No byte is lost, added or moved,
        however the writes are cut up. */
    method DdOutFull() returns (ok: bool)
      requires Valid() && dbcnt >= dbsz
      modifies this, db
      ensures ok ==> Valid() && Given() == old(Given()) && dbcnt < dbsz
      ensures Willing(script0) ==> ok
    {
      hide Overlay, Zeros, AllZero, Willing, Sends;
      var outp: nat := 0;
      ghost var given := Given();
      while true
        invariant Holds(outp, given) && dbsz <= dbcnt
        decreases dbcnt
      {
        ok := OneBlock(outp, given);
        if !ok {
          return;
        }
        outp := outp + dbsz;
        if dbcnt < dbsz {
          break;
        }
      }
      Reassemble();
    }

    lemma StillFlushed(file0: seq<Byte>, pending0: int, bytes0: int, was: seq<Reply>, outp0: nat)
      requires 0 < dbsz <= db.Length && BlockSent(file0, pending0, bytes0, outp0, dbsz)
      requires bytes0 == |file0| && (!sparse ==> pending0 == 0)
      requires Whole(|file0 + Zeros(pending0)|, dbsz) && (Willing(script0) ==> Willing(was)) && (smooth ==> was == [])
      requires SendBlocks(file0 + Zeros(pending0), dbsz, Sent(0, script0), sparse) == Sent(pending0, was)
      requires Send(db[outp0..outp0 + dbsz], pending0, was, sparse) == Sent(pending, script)
      ensures Flushed() && outp0 + dbsz <= db.Length
      ensures file + Zeros(pending) == file0 + Zeros(pending0) + db[outp0..outp0 + dbsz]
    {
      hide SendBlocks, Send;
      SendBlocksMore(file0 + Zeros(pending0), db[outp0..outp0 + dbsz], dbsz, Sent(0, script0), sparse);
      if Willing(was) {
        WillingSends(db[outp0..outp0 + dbsz], pending0, was, sparse);
      }
      if smooth {
        SmoothSends(db[outp0..outp0 + dbsz], pending0, sparse);
      }
    }

    lemma Shorter(file0: seq<Byte>, pending0: nat, outp: nat, given: seq<Byte>)
      requires outp + dbsz <= dbp <= db.Length && 0 <= pending
      requires file0 + Zeros(pending0) + db[outp..dbp] == given
      requires file + Zeros(pending) == file0 + Zeros(pending0) + db[outp..outp + dbsz]
      ensures file + Zeros(pending) + db[outp + dbsz..dbp] == given
    {
      var a, b, c := file0 + Zeros(pending0), db[outp..outp + dbsz], db[outp + dbsz..dbp];
      assert db[outp..dbp] == b + c;
      assert a + b + c == a + (b + c);
    }

    /** dd_out(1): the whole buffer goes out, at the offset plus the pending seek. */
    method DdOutForced() returns (ok: bool)
      requires 0 < dbcnt <= db.Length && 0 < dbsz && pos == |file| && 0 <= pos + pending
      modifies this
      ensures ok ==> dbcnt == 0 && dbp == 0 && pending == 0 && pos == old(pos + pending + dbcnt)
      ensures ok ==> bytes == old(bytes + pending + dbcnt)
      ensures ok ==> file == Overlay(old(file), old(pos + pending), old(db[..dbcnt]))
      ensures Willing(old(script)) ==> ok && Willing(script)
    {
      hide Overlay, Send, Willing;
      if Willing(script) {
        WillingSends(db[0..dbcnt], pending, script, false);
      }
      assert db[0..dbcnt] == db[..dbcnt];
      ok := WriteBlock(0, dbcnt, true);
      if ok {
        dbcnt := 0;
        dbp := 0;
      }
    }

    /** The end of dd_close. The file is exactly what was given, except in one case: the buffer is empty and
        less than a block is pending, which a short write into a sparse block can leave. Then the seek
        goes backward, and zeros are written over the last block, which has data in it. */
    method DdClose() returns (ok: bool)
      requires Flushed() && dbcnt <= db.Length
      modifies this, db
      ensures ok ==> |file| == bytes == |old(file)| + old(pending) + old(dbcnt)
      ensures ok ==> file == Closed(old(file) + Zeros(old(pending)) + old(db[..dbcnt]), dbsz, old(dbcnt) == 0 && 0 < old(pending) < dbsz)
      ensures Willing(script0) ==> ok
    {
      hide Overlay, Willing;
      ok := true;
      ghost var pending0, empty := pending, dbcnt == 0;
      if dbcnt == 0 && pending != 0 {
        forall i | 0 <= i < dbsz {
          db[i] := 0;
        }
        assert db[..dbsz] == Zeros(dbsz);
        dbcnt := dbsz;
        dbp := dbcnt;
        pending := pending - dbsz;
      }
      if dbcnt > 0 {
        ghost var file0, b := file, db[..dbcnt];
        ok := DdOutForced();
        if empty {
          CloseEmpty(file0, pending0, dbsz);
        } else {
          OverlayAtEnd(file0, pending0, b);
        }
      } else {
        assert Zeros(0) == [] && db[..0] == [];
      }
    }
  }

  /** What is left of `whole` when zeros go over its last block. */
  function Closed(whole: seq<Byte>, dbsz: nat, backward: bool): seq<Byte> {
    if backward && dbsz <= |whole| then whole[..|whole| - dbsz] + Zeros(dbsz) else whole
  }

  /** Writing the last block of a run of pending zeros as a real block. */
  lemma CloseEmpty(file: seq<Byte>, pending: int, dbsz: nat)
    requires 0 < pending && 0 < dbsz
    requires pending < dbsz ==> dbsz - pending <= |file|
    ensures var r, whole := Overlay(file, |file| + pending - dbsz, Zeros(dbsz)), file + Zeros(pending) + [];
            |r| == |file| + pending && r == Closed(whole, dbsz, pending < dbsz)
  {
    var r, all := Overlay(file, |file| + pending - dbsz, Zeros(dbsz)), file + Zeros(pending);
    assert all + [] == all;
    if pending >= dbsz {
      ZerosAdd(pending - dbsz, dbsz);
      OverlayAtEnd(file, pending - dbsz, Zeros(dbsz));
    } else {
      var q := |file| - (dbsz - pending);
      assert all[..|all| - dbsz] == file[..q];
      assert r == file[..q] + Zeros(dbsz);
    }
  }
}
