/** The copy loop of dd and its three conversion functions: def, block and unblock (dd.c, conv.c), with
    no translation table. */
module DdConv {
  import opened DdOut
  import opened DdRecords

  class Dd {
    /** in.db, in.dbsz, in.dbp, in.dbcnt and in.dbrcnt; the static intrunc of block. */
    const ib: array<Byte>
    const ibsz: nat
    const cbsz: nat
    const out: Out
    var inp: nat
    var icnt: nat
    var ircnt: nat
    var intrunc: bool

    constructor (ib: array<Byte>, ibsz: nat, cbsz: nat, out: Out)
      ensures this.ib == ib && this.ibsz == ibsz && this.cbsz == cbsz && this.out == out
      ensures inp == icnt == 0 && !intrunc
    {
      this.ib, this.ibsz, this.cbsz, this.out := ib, ibsz, cbsz, out;
      inp, icnt, ircnt, intrunc := 0, 0, 0, false;
    }

    /** One read call: the chunk lands behind what the buffer holds. */
    method Read(chunk: seq<Byte>)
      requires inp + |chunk| <= ib.Length
      modifies this`inp, this`icnt, this`ircnt, ib
      ensures icnt == old(icnt) + |chunk| && ircnt == |chunk| && inp == old(inp) + |chunk|
      ensures ib[..inp] == old(ib[..inp]) + chunk
    {
      ghost var was := ib[..inp];
      forall i | 0 <= i < |chunk| {
        ib[inp + i] := chunk[i];
      }
      icnt := icnt + |chunk|;
      ircnt := |chunk|;
      inp := inp + |chunk|;
      assert ib[..inp] == was + chunk;
    }

    // -------------------------------------------------------------- block

    /** The two buffers of a record conversion, as setup sizes them; the output side has room. */
    ghost predicate Separate()
      reads this, out
    {
      && 0 < cbsz && 0 < ibsz && ib != out.db
      && ib.Length == (if ibsz > cbsz then ibsz else cbsz) + cbsz && out.db.Length == out.dbsz + cbsz
      && out.Valid() && out.dbcnt < out.dbsz
    }

    /** Between reads block keeps an unfinished line in the input buffer, or nothing while it drops one. */
    ghost predicate BlockReady()
      reads this, out, ib
    {
      && Separate() && inp == icnt < cbsz && (intrunc ==> icnt == 0)
      && icnt <= ib.Length && NL !in ib[..icnt]
    }

    ghost function BlockState(): (st: State)
      reads this, out, ib
      requires BlockReady()
    {
      if intrunc then Dropping else Line(ib[..icnt])
    }

    /** The line copied out until a newline, the end of the input or the end of the record. */
    method CopyRecord(q: nat) returns (cnt: nat, newline: bool)
      requires Separate() && 0 < icnt && q + icnt == inp <= ib.Length
      modifies out.db
      ensures cnt <= cbsz && cnt <= icnt && NL !in ib[q..q + cnt]
      ensures newline ==> cnt < cbsz && cnt < icnt && ib[q + cnt] == NL
      ensures !newline ==> cnt == if cbsz < icnt then cbsz else icnt
      ensures out.db[..out.dbcnt] == old(out.db[..out.dbcnt])
      ensures out.db[out.dbcnt..out.dbcnt + cnt] == ib[q..q + cnt]
    {
      var maxlen := if cbsz < icnt then cbsz else icnt;
      cnt, newline := 0, false;
      while cnt < maxlen
        invariant cnt <= maxlen && NL !in ib[q..q + cnt]
        invariant out.db[..out.dbcnt] == old(out.db[..out.dbcnt])
        invariant out.db[out.dbcnt..out.dbcnt + cnt] == ib[q..q + cnt]
      {
        var ch := ib[q + cnt];
        if ch == NL {
          newline := true;
          break;
        }
        out.db[out.dbp + cnt] := ch;
        assert out.db[out.dbcnt..out.dbcnt + cnt] == ib[q..q + cnt];
        assert ib[q..q + cnt + 1] == ib[q..q + cnt] + [ch];
        assert out.db[out.dbcnt..out.dbcnt + cnt + 1] == out.db[out.dbcnt..out.dbcnt + cnt] + [ch];
        cnt := cnt + 1;
      }
    }

    /** The record in the buffer is padded, counted, and written with what is before it when a block is full. */
    method EmitRecord(cnt: nat, ghost line: seq<Byte>) returns (ok: bool)
      requires Separate() && cnt == |line| <= cbsz && out.db[out.dbcnt..out.dbcnt + cnt] == line
      modifies out, out.db
      ensures ok ==> Separate() && out.Given() == old(out.Given()) + Padded(line, cbsz)
      ensures Willing(out.script0) ==> ok
    {
      hide Zeros;
      ghost var before := out.db[..out.dbcnt];
      forall i | cnt <= i < cbsz {
        out.db[out.dbp + i] := SP;
      }
      out.dbp := out.dbp + cbsz;
      out.dbcnt := out.dbcnt + cbsz;
      assert out.db[..out.dbcnt] == before + Padded(line, cbsz);
      ok := true;
      if out.dbcnt >= out.dbsz {
        ok := out.DdOutFull();
      }
    }

    /** Toss characters to a newline. */
    method Toss(q0: nat, cnt0: nat) returns (q: nat, cnt: nat)
      requires q0 + cnt0 <= ib.Length
      ensures cnt <= cnt0 && q == q0 + cnt0 - (if cnt == 0 then 0 else cnt - 1)
      ensures var d := ib[q0..q0 + cnt0]; NL !in d[..cnt0 - cnt] && (cnt > 0 ==> d[cnt0 - cnt] == NL)
    {
      q, cnt := q0, cnt0;
      while cnt > 0
        invariant cnt <= cnt0 && q == q0 + cnt0 - cnt && NL !in ib[q0..q]
      {
        var c := ib[q];
        q := q + 1;
        if c == NL {
          break;
        }
        assert ib[q0..q] == ib[q0..q - 1] + [c];
        cnt := cnt - 1;
      }
      assert ib[q0..q0 + cnt0][..cnt0 - cnt] == ib[q0..q0 + cnt0 - cnt];
    }

    /** Inside block: what has come out and what the rest of the input buffer will give make up the whole. */
    ghost predicate Blocking(given: seq<Byte>, final: State)
      reads this, out, out.db, ib
    {
      && Separate() && icnt <= inp <= ib.Length && (intrunc ==> icnt == 0)
      && var st, rest := if intrunc then Dropping else START, ib[inp - icnt..inp];
         Feed(st, rest, cbsz) == final && out.Given() + Emitted(st, rest, cbsz) == given
    }

    /** A short record without a newline: reassemble the input block. */
    method KeepLine(ghost given: seq<Byte>, ghost final: State)
      requires Blocking(given, final) && !intrunc && icnt < cbsz && NL !in ib[inp - icnt..inp]
      modifies ib
      ensures Kept(given, final)
    {
      hide Feed, Emitted, Zeros;
      ghost var rest := ib[inp - icnt..inp];
      FeedPlain([], rest, cbsz);
      assert [] + rest == rest;
      assert out.Given() + [] == out.Given();
      MoveDown();
    }

    /** memmove of the unread input to the front of its buffer. */
    method MoveDown()
      requires icnt <= inp <= ib.Length
      modifies ib
      ensures ib[..icnt] == old(ib[inp - icnt..inp])
    {
      ghost var rest := ib[inp - icnt..inp];
      forall i | 0 <= i < icnt {
        ib[i] := ib[inp - icnt + i];
      }
      assert forall i :: 0 <= i < icnt ==> ib[i] == rest[i];
      assert ib[..icnt] == rest;
    }

    ghost predicate Kept(given: seq<Byte>, final: State)
      reads this, out, out.db, ib
    {
      Separate() && !intrunc && icnt < cbsz && NL !in ib[..icnt] && final == Line(ib[..icnt]) && out.Given() == given
    }

    /** A line of cnt bytes with its newline, already copied behind the output. */
    method ShortLine(cnt: nat, ghost given: seq<Byte>, ghost final: State) returns (ok: bool)
      requires Blocking(given, final) && !intrunc && cnt < icnt && cnt < cbsz
      requires var q := inp - icnt;
               ib[q + cnt] == NL && NL !in ib[q..q + cnt] && out.db[out.dbcnt..out.dbcnt + cnt] == ib[q..q + cnt]
      modifies this`icnt, out, out.db
      ensures ok ==> Blocking(given, final) && icnt < old(icnt)
      ensures Willing(out.script0) ==> ok
    {
      hide Feed, Emitted, Padded, Zeros;
      ghost var q, before := inp - icnt, out.Given();
      ghost var rest, x := ib[q..inp], ib[q..q + cnt];
      icnt := icnt - cnt - 1;
      ghost var after := ib[inp - icnt..inp];
      assert rest == x + [NL] + after;
      FeedLine(x, after, cbsz);
      Grouping(before, Padded(x, cbsz), Emitted(START, after, cbsz));
      ok := EmitRecord(cnt, x);
    }

    /** The input behind a full record x: the rest y of what was read, its line tossed. */
    method TossLine(ghost x: seq<Byte>, ghost y: seq<Byte>)
      requires |x| == cbsz && 0 < cbsz <= icnt <= inp <= ib.Length && NL !in x && !intrunc
      requires y == ib[inp - icnt + cbsz..inp]
      modifies this`icnt, this`intrunc
      ensures icnt < old(icnt) && (intrunc ==> icnt == 0)
      ensures var st, after := if intrunc then Dropping else START, ib[inp - icnt..inp];
              && Feed(START, x + y, cbsz) == Feed(st, after, cbsz)
              && Emitted(START, x + y, cbsz) == x + Emitted(st, after, cbsz)
    {
      hide Feed, Emitted;
      var q := inp - icnt;
      icnt := icnt - cbsz;
      var left;
      q, left := Toss(q + cbsz, icnt);
      icnt := left;
      if icnt == 0 {
        intrunc := true;
      } else {
        icnt := icnt - 1;
      }
      FullRecord(x, y, left);
      assert ib[inp - icnt..inp] == if left == 0 then [] else y[|y| - left + 1..];
    }

    /** A full record, already copied. */
    method LongLine(ghost given: seq<Byte>, ghost final: State) returns (ok: bool)
      requires Blocking(given, final) && !intrunc && cbsz <= icnt
      requires var q := inp - icnt; NL !in ib[q..q + cbsz] && out.db[out.dbcnt..out.dbcnt + cbsz] == ib[q..q + cbsz]
      modifies this`icnt, this`intrunc, out, out.db
      ensures ok ==> Blocking(given, final) && icnt < old(icnt)
      ensures Willing(out.script0) ==> ok
    {
      hide Feed, Emitted, Padded, Zeros;
      ghost var before, rest := out.Given(), ib[inp - icnt..inp];
      assert rest[..cbsz] == ib[inp - icnt..inp - icnt + cbsz];
      assert rest[..cbsz] + rest[cbsz..] == rest;
      assert rest[cbsz..] == ib[inp - icnt + cbsz..inp];
      TossLine(rest[..cbsz], rest[cbsz..]);
      Grouping(before, rest[..cbsz], Emitted(if intrunc then Dropping else START, ib[inp - icnt..inp], cbsz));
      FullIsPadded(rest[..cbsz]);
      ok := EmitRecord(cbsz, rest[..cbsz]);
    }

    /** One turn of block's main loop. */
    method BlockRound(ghost given: seq<Byte>, ghost final: State) returns (ok: bool, more: bool)
      requires Blocking(given, final) && 0 < icnt
      modifies this`icnt, this`intrunc, ib, out, out.db
      ensures ok && more ==> Blocking(given, final) && icnt < old(icnt)
      ensures ok && !more ==> Kept(given, final)
      ensures Willing(out.script0) ==> ok
    {
      hide Feed, Emitted, Zeros;
      var q := inp - icnt;
      var cnt, newline := CopyRecord(q);
      if !newline && icnt < cbsz {
        KeepLine(given, final);
        return true, false;
      }
      more := true;
      if newline {
        ok := ShortLine(cnt, given, final);
      } else {
        ok := LongLine(given, final);
      }
    }

    lemma FullIsPadded(x: seq<Byte>)
      requires |x| == cbsz
      ensures Padded(x, cbsz) == x
    {
    }

    /** A full record x, and behind it y with a line end `left` bytes before its own end, or none (0). */
    lemma FullRecord(x: seq<Byte>, y: seq<Byte>, left: nat)
      requires |x| == cbsz > 0 && NL !in x && left <= |y| && NL !in y[..|y| - left]
      requires left > 0 ==> y[|y| - left] == NL
      ensures var st, after := if left == 0 then Dropping else START, if left == 0 then [] else y[|y| - left + 1..];
              && Feed(START, x + y, cbsz) == Feed(st, after, cbsz)
              && Emitted(START, x + y, cbsz) == x + Emitted(st, after, cbsz)
    {
      hide Feed, Emitted;
      FeedNothing(Dropping);
      FeedFull(x, y, cbsz);
      var z := y[..|y| - left];
      if left == 0 {
        assert z == y;
        FeedDropping(y, cbsz);
      } else {
        var after := y[|y| - left + 1..];
        SplitNewline(y, |y| - left);
        FeedDropped(z, after, cbsz);
      }
    }

    lemma SplitNewline(d: seq<Byte>, k: nat)
      requires k < |d| && d[k] == NL
      ensures d == d[..k] + [NL] + d[k + 1..]
    {
    }

    /** While dropping: a newline `left` bytes before the end of d, or none (0). */
    lemma DropLine(d: seq<Byte>, left: nat)
      requires 0 < cbsz && left <= |d| && NL !in d[..|d| - left] && (left > 0 ==> d[|d| - left] == NL)
      ensures var st, after := if left == 0 then Dropping else START, if left == 0 then [] else d[|d| - left + 1..];
              Feed(Dropping, d, cbsz) == Feed(st, after, cbsz) && Emitted(Dropping, d, cbsz) == Emitted(st, after, cbsz)
    {
      hide Feed, Emitted;
      FeedNothing(Dropping);
      var z := d[..|d| - left];
      if left == 0 {
        assert z == d;
        FeedDropping(d, cbsz);
      } else {
        SplitNewline(d, |d| - left);
        FeedDropped(z, d[|d| - left + 1..], cbsz);
      }
    }

    lemma FeedNothing(st: State)
      requires 0 < cbsz && (st.Line? ==> |st.text| < cbsz)
      ensures Feed(st, [], cbsz) == st && Emitted(st, [], cbsz) == []
    {
    }

    /** The start of block: while dropping, everything up to a newline goes. */
    method Resume(ghost st: State, ghost d: seq<Byte>, ghost before: seq<Byte>)
      requires Separate() && inp == icnt <= ib.Length && ircnt <= icnt && icnt - ircnt < cbsz
      requires NL !in ib[..icnt - ircnt] && (intrunc ==> icnt == ircnt)
      requires st == if intrunc then Dropping else Line(ib[..icnt - ircnt])
      requires d == ib[icnt - ircnt..icnt] && before == out.Given()
      modifies this`icnt, this`inp, this`intrunc
      ensures Blocking(before + Emitted(st, d, cbsz), Feed(st, d, cbsz))
    {
      hide Feed, Emitted, Zeros;
      if intrunc {
        var q, cnt := Toss(0, ircnt);
        DropLine(d, cnt);
        if cnt == 0 {
          icnt := 0;
          inp := 0;
          assert ib[inp - icnt..inp] == [];
          return;
        }
        intrunc := false;
        icnt := cnt - 1;
        inp := q + cnt - 1;
        assert ib[inp - icnt..inp] == d[|d| - cnt + 1..];
      } else {
        ResumeLine(ib[..icnt - ircnt], d);
        assert ib[0..icnt] == ib[..icnt - ircnt] + d;
      }
    }

    /** block(): the input just read, on top of the line or the dropping it finds, comes out as records. */
    method Block() returns (ok: bool)
      requires Separate() && inp == icnt <= ib.Length && ircnt <= icnt && icnt - ircnt < cbsz
      requires NL !in ib[..icnt - ircnt] && (intrunc ==> icnt == ircnt)
      modifies this`icnt, this`inp, this`intrunc, ib, out, out.db
      ensures ok ==> BlockReady()
      ensures ok ==> var st, d := old(if intrunc then Dropping else Line(ib[..icnt - ircnt])), old(ib[icnt - ircnt..icnt]);
                     && BlockState() == Feed(st, d, cbsz)
                     && out.Given() == old(out.Given()) + Emitted(st, d, cbsz)
      ensures Willing(out.script0) ==> ok
    {
      hide Feed, Emitted, Zeros, Blocking;
      ghost var st := if intrunc then Dropping else Line(ib[..icnt - ircnt]);
      ghost var d := ib[icnt - ircnt..icnt];
      ghost var given, final := out.Given() + Emitted(st, d, cbsz), Feed(st, d, cbsz);
      Resume(st, d, out.Given());
      ok := BlockLoop(given, final);
    }

    /** block's main loop. */
    method BlockLoop(ghost given: seq<Byte>, ghost final: State) returns (ok: bool)
      requires Blocking(given, final)
      modifies this`icnt, this`inp, this`intrunc, ib, out, out.db
      ensures ok ==> BlockReady() && BlockState() == final && out.Given() == given
      ensures Willing(out.script0) ==> ok
    {
      hide Feed, Emitted, Zeros;
      ok := true;
      var more := true;
      while icnt > 0 && more
        invariant if more then Blocking(given, final) else Kept(given, final)
        decreases more, icnt
      {
        ok, more := BlockRound(given, final);
        if !ok {
          return;
        }
      }
      if more {
        FeedNothing(if intrunc then Dropping else START);
        assert ib[inp - icnt..inp] == [] && ib[..0] == [];
        assert out.Given() + [] == out.Given();
      }
      inp := icnt;
    }

    /** An unfinished line kept from before and the new bytes are fed like one piece. */
    lemma ResumeLine(line: seq<Byte>, d: seq<Byte>)
      requires 0 < cbsz && |line| < cbsz && NL !in line
      ensures Feed(Line(line), d, cbsz) == Feed(START, line + d, cbsz)
      ensures Emitted(Line(line), d, cbsz) == Emitted(START, line + d, cbsz)
    {
      FeedPlain([], line, cbsz);
      assert [] + line == line;
      FeedAppend(START, line, d, cbsz);
    }

    /** block_close: an unfinished line is padded to a record. out.dbp stays where it is, since dd_close
        writes the whole buffer from its start. */
    method BlockClose()
      requires BlockReady()
      modifies out, out.db
      ensures out.Flushed() && out.dbcnt <= out.db.Length
      ensures out.file == old(out.file) && out.pending == old(out.pending)
      ensures out.db[..out.dbcnt] == old(out.db[..out.dbcnt]) + Tail(old(BlockState()), cbsz)
    {
      if icnt > 0 {
        ghost var before := out.db[..out.dbcnt];
        forall i | 0 <= i < icnt {
          out.db[out.dbp + i] := ib[inp - icnt + i];
        }
        forall i | icnt <= i < cbsz {
          out.db[out.dbp + i] := SP;
        }
        out.dbcnt := out.dbcnt + cbsz;
        assert out.db[..out.dbcnt] == before + Padded(ib[..icnt], cbsz);
      }
    }

    // -------------------------------------------------------------- unblock

    /** The trailing blanks of the record at q: how much of it stays. */
    method Strip(q: nat, n: nat) returns (cnt: nat)
      requires q + n <= ib.Length
      ensures cnt <= n && ib[q..q + cnt] == Stripped(ib[q..q + n])
    {
      cnt := n;
      while cnt > 0 && ib[q + cnt - 1] == SP
        invariant cnt <= n && Stripped(ib[q..q + n]) == Stripped(ib[q..q + cnt])
      {
        assert ib[q..q + cnt][..cnt - 1] == ib[q..q + cnt - 1];
        cnt := cnt - 1;
      }
    }

    /** memmove of cnt input bytes behind the output, and the counts. */
    method PutBytes(q: nat, cnt: nat)
      requires ib != out.db && out.Valid() && q + cnt <= ib.Length && out.dbcnt + cnt <= out.db.Length
      modifies out`dbp, out`dbcnt, out.db
      ensures out.dbp == out.dbcnt == old(out.dbcnt) + cnt
      ensures out.db[..out.dbcnt] == old(out.db[..out.dbcnt]) + ib[q..q + cnt]
    {
      ghost var before := out.db[..out.dbcnt];
      forall i | 0 <= i < cnt {
        out.db[out.dbp + i] := ib[q + i];
      }
      out.dbp := out.dbp + cnt;
      out.dbcnt := out.dbcnt + cnt;
      assert out.db[..out.dbcnt] == before + ib[q..q + cnt];
    }

    /** A stripped record and its newline behind the output. */
    method PutLine(q: nat, cnt: nat, n: nat)
      requires Separate() && q + cnt <= ib.Length && cnt <= cbsz && q + n <= ib.Length
      requires ib[q..q + cnt] == Stripped(ib[q..q + n])
      modifies out, out.db
      ensures out.Valid() && out.file == old(out.file) && out.pending == old(out.pending)
      ensures out.Given() == old(out.Given()) + (Stripped(ib[q..q + n]) + [NL])
    {
      hide Zeros, Stripped;
      ghost var sent, before, line := out.file + Zeros(out.pending), out.db[..out.dbcnt], ib[q..q + cnt];
      if cnt > 0 {
        PutBytes(q, cnt);
      } else {
        assert line == [] && before + line == before;
      }
      ghost var k := out.dbcnt;
      assert out.db[..k] == before + line;
      out.dbcnt := out.dbcnt + 1;
      out.db[out.dbp] := NL;
      out.dbp := out.dbp + 1;
      assert out.db[..k + 1] == out.db[..k] + [NL];
      Grouping(before, line, [NL]);
      Grouping(sent, before, line + [NL]);
    }

    /** One turn of unblock's loop. */
    method UnblockRecord(q: nat) returns (ok: bool)
      requires Separate() && q + cbsz <= ib.Length
      modifies out, out.db
      ensures ok ==> Separate() && out.Given() == old(out.Given()) + (Stripped(ib[q..q + cbsz]) + [NL])
      ensures Willing(out.script0) ==> ok
    {
      hide Zeros, Stripped;
      var cnt := Strip(q, cbsz);
      PutLine(q, cnt, cbsz);
      ok := true;
      if out.dbcnt >= out.dbsz {
        ok := out.DdOutFull();
      }
    }

    /** unblock(): every whole record in the buffer becomes a line, the rest waits. */
    method Unblock() returns (ok: bool)
      requires Separate() && inp == icnt <= ib.Length
      modifies this`icnt, this`inp, ib, out, out.db
      ensures ok ==> Separate() && inp == icnt < cbsz && ib[..icnt] == Leftover(old(ib[..icnt]), cbsz)
      ensures ok ==> out.Given() == old(out.Given()) + Unblocked(old(ib[..icnt]), cbsz)
      ensures Willing(out.script0) ==> ok
    {
      hide Zeros, Unblocked, Leftover;
      ghost var d := ib[..icnt];
      ghost var given := out.Given() + Unblocked(d, cbsz);
      var q: nat := 0;
      assert ib[0..inp] == d;
      while icnt >= cbsz
        invariant Separate() && q + icnt == inp <= ib.Length
        invariant out.Given() + Unblocked(ib[q..inp], cbsz) == given && Leftover(ib[q..inp], cbsz) == Leftover(d, cbsz)
      {
        ghost var before, r, rest := out.Given(), ib[q..q + cbsz], ib[q + cbsz..inp];
        assert ib[q..inp] == r + rest;
        OneRecord(r, rest, cbsz);
        Grouping(before, Stripped(r) + [NL], Unblocked(rest, cbsz));
        ok := UnblockRecord(q);
        if !ok {
          return;
        }
        q := q + cbsz;
        icnt := icnt - cbsz;
      }
      NoRecord(ib[q..inp], cbsz);
      assert out.Given() + [] == out.Given();
      ok := true;
      if icnt > 0 {
        MoveDown();
      } else {
        assert ib[q..inp] == [] == ib[..icnt];
      }
      inp := icnt;
    }

    /** unblock_close: a short last record becomes a line too. */
    method UnblockClose()
      requires Separate() && inp == icnt < cbsz
      modifies out, out.db
      ensures out.Valid() && out.file == old(out.file) && out.pending == old(out.pending)
      ensures out.Given() == old(out.Given()) + if icnt == 0 then [] else Stripped(old(ib[..icnt])) + [NL]
    {
      hide Zeros, Stripped, SendBlocks, Whole;
      if icnt > 0 {
        var cnt := Strip(0, icnt);
        assert ib[0..icnt] == ib[..icnt];
        PutLine(0, cnt, icnt);
      } else {
        assert out.Given() + [] == out.Given();
      }
    }

    // -------------------------------------------------------------- def

    /** Without record conversion the two sides share one buffer and the same position in it. */
    ghost predicate Shared()
      reads this, out
    {
      && 0 < ibsz && ib == out.db && ib.Length >= out.dbsz + ibsz - 1
      && out.Valid() && out.dbcnt < out.dbsz && inp == icnt == out.dbcnt
    }

    /** def(): the bytes just read join the output; full blocks are written. */
    method Def() returns (ok: bool)
      requires 0 < ibsz && ib == out.db && ib.Length >= out.dbsz + ibsz - 1 && out.Valid()
      requires out.dbcnt <= inp == icnt <= ib.Length
      modifies this`icnt, this`inp, out, out.db
      ensures ok ==> Shared()
      ensures ok ==> out.Given() == old(out.Given()) + old(ib[out.dbcnt..icnt])
      ensures Willing(out.script0) ==> ok
    {
      hide Zeros;
      assert ib[..icnt] == ib[..out.dbcnt] + ib[out.dbcnt..icnt];
      out.dbp := inp;
      out.dbcnt := icnt;
      ok := true;
      if icnt >= out.dbsz {
        ok := out.DdOutFull();
        inp := out.dbp;
        icnt := out.dbcnt;
      }
    }
  
    // -------------------------------------------------------------- the copy

    /** Where a run stands after reading d, however it came in. */
    ghost predicate Done(conv: Conv, d: seq<Byte>)
      reads this, out, out.db, ib
    {
      match conv
      case AsIs => Shared() && out.Given() == d
      case ToBlocks => BlockReady() && BlockState() == Feed(START, d, cbsz) && out.Given() == Emitted(START, d, cbsz)
      case ToLines =>
        && Separate() && inp == icnt < cbsz
        && ib[..icnt] == Leftover(d, cbsz) && out.Given() == Unblocked(d, cbsz)
    }

    /** The bytes dd_close leaves to the output side. */
    ghost predicate Closing(given: seq<Byte>)
      reads this, out, out.db
    {
      out.Flushed() && out.dbcnt <= out.db.Length && out.file + Zeros(out.pending) + out.db[..out.dbcnt] == given
    }

    method OneBlockRead(chunk: seq<Byte>, ghost d: seq<Byte>) returns (ok: bool)
      requires Done(ToBlocks, d) && |chunk| <= ibsz
      modifies this`icnt, this`inp, this`ircnt, this`intrunc, ib, out, out.db
      ensures ok ==> Done(ToBlocks, d + chunk)
      ensures Willing(out.script0) ==> ok
    {
      hide Feed, Emitted, Zeros;
      ghost var st, before := BlockState(), ib[..inp];
      Read(chunk);
      assert ib[..icnt - ircnt] == before && ib[icnt - ircnt..icnt] == chunk;
      FeedAppend(START, d, chunk, cbsz);
      ok := Block();
    }

    method OneUnblockRead(chunk: seq<Byte>, ghost d: seq<Byte>) returns (ok: bool)
      requires Done(ToLines, d) && |chunk| <= ibsz
      modifies this`icnt, this`inp, this`ircnt, ib, out, out.db
      ensures ok ==> Done(ToLines, d + chunk)
      ensures Willing(out.script0) ==> ok
    {
      hide Unblocked, Leftover, Zeros;
      Read(chunk);
      UnblockAppend(d, chunk, cbsz);
      ok := Unblock();
    }

    method OneDefRead(chunk: seq<Byte>, ghost d: seq<Byte>) returns (ok: bool)
      requires Done(AsIs, d) && |chunk| <= ibsz
      modifies this`icnt, this`inp, this`ircnt, ib, out, out.db
      ensures ok ==> Done(AsIs, d + chunk)
      ensures Willing(out.script0) ==> ok
    {
      hide Zeros;
      ghost var before := ib[..inp];
      Read(chunk);
      assert ib[..inp][..out.dbcnt] == before && ib[out.dbcnt..icnt] == chunk;
      assert out.db[..out.dbcnt] == before;
      ok := Def();
    }

    /** def_close, block_close or unblock_close. */
    method CloseConversion(conv: Conv, ghost d: seq<Byte>)
      requires Done(conv, d)
      modifies out, out.db
      ensures Closing(Meaning(conv, d, cbsz)) && (conv.AsIs? || 0 < cbsz) && Emptied(conv, d)
    {
      hide Feed, Emitted, Zeros, Unblocked, Leftover, Stripped, Padded;
      match conv {
        case AsIs =>
          if icnt > 0 {
            out.dbcnt := icnt;
          }
        case ToBlocks =>
          ghost var sent, buffered, rest := out.file + Zeros(out.pending), out.db[..out.dbcnt], Tail(BlockState(), cbsz);
          BlockClose();
          Grouping(sent, buffered, rest);
        case ToLines =>
          UnblockClose();
      }
    }

    /** dd_in until the end of the input, then dd_close. The file is the conversion of the whole input
        whatever the reads and writes were, but for the one case that Backward describes, in which its last
        block comes out as zeros. A willing output is copied to the end. */
    method Copy(conv: Conv, chunks: seq<seq<Byte>>) returns (ok: bool)
      requires Done(conv, []) && forall i :: 0 <= i < |chunks| ==> 0 < |chunks[i]| <= ibsz
      modifies this`icnt, this`inp, this`ircnt, this`intrunc, ib, out, out.db
      ensures Willing(out.script0) ==> ok
      ensures ok ==> out.bytes == |out.file|
      ensures var d := Joined(chunks);
              ok ==> out.file == Closed(Meaning(conv, d, cbsz), out.dbsz, Backward(conv, d, cbsz, out.dbsz, out.script0, out.sparse))
    {
      hide Meaning, Zeros, Closed, Backward, Willing;
      ok := true;
      var i := 0;
      assert chunks[..0] == [];
      while i < |chunks|
        invariant 0 <= i <= |chunks| && Done(conv, Joined(chunks[..i])) && ok
      {
        ghost var d := Joined(chunks[..i]);
        match conv {
          case AsIs => ok := OneDefRead(chunks[i], d);
          case ToBlocks => ok := OneBlockRead(chunks[i], d);
          case ToLines => ok := OneUnblockRead(chunks[i], d);
        }
        if !ok {
          return;
        }
        assert chunks[..i + 1][..i] == chunks[..i];
        i := i + 1;
      }
      assert chunks[..i] == chunks;
      CloseConversion(conv, Joined(chunks));
      BackwardSeek(conv, Joined(chunks));
      ok := out.DdClose();
    }

    // -------------------------------------------------------------- bs=

    /** With bs and no conversion: one buffer of one block, and nothing in it between reads. */
    ghost predicate Direct()
      reads this, out
    {
      && 0 < ibsz == out.dbsz == ib.Length && ib == out.db && inp == icnt == 0
      && out.dbp == out.dbcnt == 0 && out.pending == 0 && out.pos == |out.file| == out.bytes
    }

    /** Each read goes out by itself, by as many writes as it takes; nothing stays behind. */
    method OneDirectRead(chunk: seq<Byte>) returns (ok: bool)
      requires Direct() && 0 < |chunk| <= ibsz
      modifies this`icnt, this`inp, this`ircnt, ib, out
      ensures ok ==> Direct() && out.file == old(out.file) + chunk
      ensures Willing(old(out.script)) ==> ok && Willing(out.script)
    {
      ghost var was := out.file;
      Read(chunk);
      inp := 0;
      out.dbcnt := icnt;
      assert ib[..0] == [] && out.db[..out.dbcnt] == chunk;
      OverlayAtEnd(was, 0, chunk);
      assert was + Zeros(0) + chunk == was + chunk;
      ok := out.DdOutForced();
      icnt := 0;
    }

    /** dd_in with bs. At the end def_close and dd_close find no byte buffered and no seek pending. */
    method CopyDirect(chunks: seq<seq<Byte>>) returns (ok: bool)
      requires Direct() && out.file == [] && forall i :: 0 <= i < |chunks| ==> 0 < |chunks[i]| <= ibsz
      modifies this`icnt, this`inp, this`ircnt, ib, out
      ensures Willing(old(out.script)) ==> ok && Willing(out.script)
      ensures ok ==> Direct() && out.file == Joined(chunks) && out.bytes == |out.file|
    {
      ok := true;
      var i := 0;
      assert chunks[..0] == [];
      while i < |chunks|
        invariant 0 <= i <= |chunks| && Direct() && out.file == Joined(chunks[..i]) && ok
        invariant Willing(old(out.script)) ==> Willing(out.script)
      {
        ok := OneDirectRead(chunks[i]);
        if !ok {
          return;
        }
        assert chunks[..i + 1][..i] == chunks[..i];
        i := i + 1;
      }
      assert chunks[..i] == chunks;
    }

    /** The closing state agrees with what the input and the script say about the last seek. */
    lemma BackwardSeek(conv: Conv, d: seq<Byte>)
      requires 0 < out.dbsz && (conv.AsIs? || 0 < cbsz) && Closing(Meaning(conv, d, cbsz)) && Emptied(conv, d)
      ensures Backward(conv, d, cbsz, out.dbsz, out.script0, out.sparse) <==> out.dbcnt == 0 && 0 < out.pending < out.dbsz
    {
      hide SendBlocks, Meaning, Whole;
      ghost var sent := out.file + Zeros(out.pending);
      if out.dbcnt == 0 {
        assert sent + out.db[..0] == sent;
      }
      if ClosesEmpty(conv, d, cbsz) {
        WholeRest(|sent|, out.dbcnt, out.dbsz);
      }
    }

    /** The buffer that is left at the end: less than a block unless a last record was added to it. */
    ghost predicate Emptied(conv: Conv, d: seq<Byte>)
      reads this, out
      requires conv.AsIs? || 0 < cbsz
    {
      if ClosesEmpty(conv, d, cbsz) then out.dbcnt < out.dbsz else out.dbcnt > 0
    }
  }

  /** setup: the buffers as large as dd makes them, which every step above fits. The bs operand only counts
      without a conversion and without sparse. */
  method Setup(conv: Conv, bs: bool, ibs: nat, obs: nat, cbsz: nat, sparse: bool, script: seq<Reply>) returns (dd: Dd)
    requires 0 < ibs && 0 < obs && (!conv.AsIs? ==> 0 < cbsz) && (bs ==> conv.AsIs? && !sparse && ibs == obs)
    ensures fresh(dd) && fresh(dd.out) && fresh(dd.ib) && fresh(dd.out.db)
    ensures dd.ibsz == ibs && dd.out.dbsz == obs && dd.cbsz == cbsz && dd.out.sparse == sparse
    ensures dd.out.script0 == dd.out.script == script && dd.out.file == []
    ensures conv.AsIs? ==> dd.ib == dd.out.db && dd.ib.Length == obs + if bs then 0 else ibs - 1
    ensures !conv.AsIs? ==> dd.ib.Length == (if ibs > cbsz then ibs else cbsz) + cbsz && dd.out.db.Length == obs + cbsz
    ensures if bs then dd.Direct() else dd.Done(conv, [])
  {
    if conv.AsIs? {
      var dbsz := obs;
      if !bs {
        dbsz := dbsz + ibs - 1;
      }
      var db := new Byte[dbsz](_ => 0);
      var out := new Out(db, obs, sparse, script);
      dd := new Dd(db, ibs, cbsz, out);
    } else {
      var ib := new Byte[(if ibs > cbsz then ibs else cbsz) + cbsz](_ => 0);
      var db := new Byte[obs + cbsz](_ => 0);
      var out := new Out(db, obs, sparse, script);
      dd := new Dd(ib, ibs, cbsz, out);
      assert ib[..0] == [];
    }
  }

  datatype Conv = AsIs | ToBlocks | ToLines

  /** No unfinished record is left to add at the end. */
  function ClosesEmpty(conv: Conv, d: seq<Byte>, cbsz: nat): bool
    requires conv.AsIs? || 0 < cbsz
  {
    match conv
    case AsIs => true
    case ToBlocks => Tail(Feed(START, d, cbsz), cbsz) == []
    case ToLines => Leftover(d, cbsz) == []
  }

  /** The output is whole blocks, and the script leaves less than a block of them pending: then dd_close seeks
      back over the last block. */
  predicate Backward(conv: Conv, d: seq<Byte>, cbsz: nat, dbsz: nat, script: seq<Reply>, sparse: bool)
    requires 0 < dbsz && (conv.AsIs? || 0 < cbsz)
  {
    var m := Meaning(conv, d, cbsz);
    && ClosesEmpty(conv, d, cbsz) && Whole(|m|, dbsz)
    && var s := SendBlocks(m, dbsz, Sent(0, script), sparse); s.Sent? && 0 < s.pending < dbsz
  }

  /** The copy is right exactly when dd_close does not seek backward, and it only does so in a sparse copy. */
  lemma BackwardIsWrong(conv: Conv, d: seq<Byte>, cbsz: nat, dbsz: nat, script: seq<Reply>, sparse: bool)
    requires 0 < dbsz && (conv.AsIs? || 0 < cbsz)
    ensures var m, back := Meaning(conv, d, cbsz), Backward(conv, d, cbsz, dbsz, script, sparse);
            (Closed(m, dbsz, back) == m <==> !back) && (back ==> sparse)
  {
    hide Meaning, SendBlocks;
    var m := Meaning(conv, d, cbsz);
    if Backward(conv, d, cbsz, dbsz, script, sparse) {
      NothingPending(dbsz, script, sparse);
      LastHasData(m, dbsz, Sent(0, script), sparse);
      var i: nat :| i < dbsz && m[|m| - dbsz..][i] != 0;
      assert Closed(m, dbsz, true)[|m| - dbsz + i] == 0;
    }
  }

  lemma NothingPending(dbsz: nat, script: seq<Reply>, sparse: bool)
    requires 0 < dbsz
    ensures SendBlocks([], dbsz, Sent(0, script), sparse) == Sent(0, script)
  {
  }

  /** When every write takes all it is given, dd_close never seeks backward. */
  lemma {:induction false} SmoothIsForward(d: seq<Byte>, dbsz: nat, pending: nat, sparse: bool)
    requires 0 < dbsz && (pending == 0 || pending >= dbsz)
    ensures var s := SendBlocks(d, dbsz, Sent(pending, []), sparse); s.Sent? && !(0 < s.pending < dbsz)
    decreases |d|
  {
    if |d| >= dbsz {
      hide Send;
      SmoothSends(d[..dbsz], pending, sparse);
      SmoothIsForward(d[dbsz..], dbsz, if sparse && AllZero(d[..dbsz]) then pending + dbsz else 0, sparse);
    }
  }

  /** The backward seek in a run: blocks of two bytes, the input 1 0, and a first write that takes one byte.
      The second byte becomes pending, and writing the last block from there leaves 0 0. */
  method BackwardRun() returns (dd: Dd)
    ensures fresh(dd) && dd.out.script0 == [Took(1)] && dd.out.file == [0, 0]
  {
    dd := Setup(AsIs, false, 2, 2, 0, true, [Took(1)]);
    BackwardExample();
    WillingExample();
    var chunks: seq<seq<Byte>> := [[1, 0]];
    assert chunks[..0] == [];
    assert Joined(chunks) == [] + [1, 0] == [1, 0];
    var ok := dd.Copy(AsIs, chunks);
    assert Meaning(AsIs, [1, 0], 0) == [1, 0];
  }

  lemma WillingExample()
    ensures Willing([Took(1)])
  {
  }

  lemma BackwardExample()
    ensures Backward(AsIs, [1, 0], 0, 2, [Took(1)], true) && Closed([1, 0], 2, true) == [0, 0]
  {
    var b: seq<Byte> := [1, 0];
    assert b[..2] == b && b[2..] == [] && b[0] != 0 && b[1..] == [0];
    assert Send([0], 0, [], true) == Sent(1, []);
    assert Send(b, 0, [Took(1)], true) == Send([0], 0, [], true);
    assert Zeros(2) == [0, 0] && b[..0] == [];
  }

  function Joined(chunks: seq<seq<Byte>>): seq<Byte> {
    if chunks == [] then [] else Joined(chunks[..|chunks| - 1]) + chunks[|chunks| - 1]
  }

  /** The output a conversion promises for an input. */
  function Meaning(conv: Conv, d: seq<Byte>, cbsz: nat): seq<Byte> {
    if conv.AsIs? || cbsz == 0 then d
    else if conv.ToBlocks? then Blocked(d, cbsz)
    else Lined(d, cbsz)
  }

  lemma OneRecord(r: seq<Byte>, rest: seq<Byte>, cbsz: nat)
    requires |r| == cbsz > 0
    ensures Unblocked(r + rest, cbsz) == Stripped(r) + [NL] + Unblocked(rest, cbsz)
    ensures Leftover(r + rest, cbsz) == Leftover(rest, cbsz)
  {
    assert (r + rest)[..cbsz] == r && (r + rest)[cbsz..] == rest;
  }

  lemma NoRecord(d: seq<Byte>, cbsz: nat)
    requires |d| < cbsz
    ensures Unblocked(d, cbsz) == [] && Leftover(d, cbsz) == d
  {
  }
}
