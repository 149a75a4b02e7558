/** What conv=block and conv=unblock mean, byte by byte and line by line (conv.c, with no translation
    table). */
module DdRecords {
  import opened DdOut

  const NL: Byte := 10
  const SP: Byte := 32

  function Spaces(n: nat): (s: seq<Byte>)
    ensures |s| == n && forall i :: 0 <= i < n ==> s[i] == SP
  {
    seq(n, _ => SP)
  }

  // ---------------------------------------------------------------- block, byte by byte

  /** Between bytes: the current line so far, or that the rest of a cut line is being dropped. */
  datatype State = Line(text: seq<Byte>) | Dropping

  const START := Line([])

  /** A record: the line, space padded to cbsz. */
  function Padded(line: seq<Byte>, cbsz: nat): seq<Byte>
    requires |line| <= cbsz
  {
    line + Spaces(cbsz - |line|)
  }

  ghost predicate Ready(st: State, cbsz: nat) {
    st.Line? ==> |st.text| < cbsz && NL !in st.text
  }

  function After(st: State, c: Byte, cbsz: nat): State {
    if st.Dropping? then if c == NL then START else Dropping
    else if c == NL then START
    else if |st.text| + 1 == cbsz then Dropping
    else Line(st.text + [c])
  }

  function Output(st: State, c: Byte, cbsz: nat): seq<Byte>
    requires st.Line? ==> |st.text| < cbsz
  {
    if st.Dropping? then []
    else if c == NL then Padded(st.text, cbsz)
    else if |st.text| + 1 == cbsz then st.text + [c]
    else []
  }

  function Feed(st: State, d: seq<Byte>, cbsz: nat): (r: State)
    requires cbsz > 0 && (st.Line? ==> |st.text| < cbsz)
    ensures r.Line? ==> |r.text| < cbsz
    decreases |d|
  {
    if d == [] then st else Feed(After(st, d[0], cbsz), d[1..], cbsz)
  }

  function Emitted(st: State, d: seq<Byte>, cbsz: nat): seq<Byte>
    requires cbsz > 0 && (st.Line? ==> |st.text| < cbsz)
    decreases |d|
  {
    if d == [] then [] else Output(st, d[0], cbsz) + Emitted(After(st, d[0], cbsz), d[1..], cbsz)
  }

  lemma FeedCons(st: State, c: Byte, rest: seq<Byte>, cbsz: nat)
    requires cbsz > 0 && (st.Line? ==> |st.text| < cbsz)
    ensures Feed(st, [c] + rest, cbsz) == Feed(After(st, c, cbsz), rest, cbsz)
    ensures Emitted(st, [c] + rest, cbsz) == Output(st, c, cbsz) + Emitted(After(st, c, cbsz), rest, cbsz)
  {
    assert ([c] + rest)[1..] == rest;
  }

  /** Cutting the input anywhere changes nothing. */
  lemma {:induction false} FeedAppend(st: State, a: seq<Byte>, b: seq<Byte>, cbsz: nat)
    requires cbsz > 0 && (st.Line? ==> |st.text| < cbsz)
    ensures Feed(st, a + b, cbsz) == Feed(Feed(st, a, cbsz), b, cbsz)
    ensures Emitted(st, a + b, cbsz) == Emitted(st, a, cbsz) + Emitted(Feed(st, a, cbsz), b, cbsz)
    decreases |a|
  {
    if a == [] {
      assert a + b == b;
    } else {
      hide Emitted, Feed;
      var c, x := a[0], a[1..];
      assert a + b == [c] + (x + b) && a == [c] + x;
      FeedCons(st, c, x + b, cbsz);
      FeedCons(st, c, x, cbsz);
      FeedAppend(After(st, c, cbsz), x, b, cbsz);
      Grouping(Output(st, c, cbsz), Emitted(After(st, c, cbsz), x, cbsz), Emitted(Feed(st, a, cbsz), b, cbsz));
    }
  }

  lemma Grouping(a: seq<Byte>, b: seq<Byte>, c: seq<Byte>)
    ensures a + (b + c) == a + b + c
  {
  }

  lemma {:induction false} FeedPlain(line: seq<Byte>, x: seq<Byte>, cbsz: nat)
    requires |line| + |x| < cbsz && NL !in x
    ensures Feed(Line(line), x, cbsz) == Line(line + x) && Emitted(Line(line), x, cbsz) == []
    decreases |x|
  {
    if x == [] {
      assert line + x == line;
    } else {
      FeedPlain(line + [x[0]], x[1..], cbsz);
      ByteMoves(line, x);
    }
  }

  lemma ByteMoves(line: seq<Byte>, x: seq<Byte>)
    requires x != []
    ensures line + [x[0]] + x[1..] == line + x
  {
  }

  lemma {:induction false} FeedDropping(x: seq<Byte>, cbsz: nat)
    requires cbsz > 0 && NL !in x
    ensures Feed(Dropping, x, cbsz) == Dropping && Emitted(Dropping, x, cbsz) == []
    decreases |x|
  {
    if x != [] {
      FeedDropping(x[1..], cbsz);
    }
  }

  /** A short line with its newline. */
  lemma FeedLine(x: seq<Byte>, rest: seq<Byte>, cbsz: nat)
    requires |x| < cbsz && NL !in x
    ensures Feed(START, x + [NL] + rest, cbsz) == Feed(START, rest, cbsz)
    ensures Emitted(START, x + [NL] + rest, cbsz) == Padded(x, cbsz) + Emitted(START, rest, cbsz)
  {
    hide Feed, Emitted, Padded;
    FeedPlain([], x, cbsz);
    assert [] + x == x;
    FeedAppend(START, x, [NL] + rest, cbsz);
    Grouping(x, [NL], rest);
    FeedCons(Line(x), NL, rest, cbsz);
  }

  /** A line that fills a record, up to there. */
  lemma FeedFull(x: seq<Byte>, rest: seq<Byte>, cbsz: nat)
    requires |x| == cbsz > 0 && NL !in x
    ensures Feed(START, x + rest, cbsz) == Feed(Dropping, rest, cbsz)
    ensures Emitted(START, x + rest, cbsz) == x + Emitted(Dropping, rest, cbsz)
  {
    var y, c := x[..cbsz - 1], x[cbsz - 1];
    hide Feed, Emitted;
    FeedPlain([], y, cbsz);
    assert [] + y == y && y + [c] == x;
    FeedAppend(START, y, [c] + rest, cbsz);
    Grouping(y, [c], rest);
    FeedCons(Line(y), c, rest, cbsz);
  }

  /** The dropped rest of a line, with its newline. */
  lemma FeedDropped(x: seq<Byte>, rest: seq<Byte>, cbsz: nat)
    requires cbsz > 0 && NL !in x
    ensures Feed(Dropping, x + [NL] + rest, cbsz) == Feed(START, rest, cbsz)
    ensures Emitted(Dropping, x + [NL] + rest, cbsz) == Emitted(START, rest, cbsz)
  {
    hide Feed, Emitted;
    FeedDropping(x, cbsz);
    FeedAppend(Dropping, x, [NL] + rest, cbsz);
    Grouping(x, [NL], rest);
    FeedCons(Dropping, NL, rest, cbsz);
  }

  /** What is still to come out when the input ends. */
  function Tail(st: State, cbsz: nat): seq<Byte>
    requires st.Line? ==> |st.text| < cbsz
  {
    if st.Line? && st.text != [] then Padded(st.text, cbsz) else []
  }

  /** conv=block of a whole input. */
  function Blocked(d: seq<Byte>, cbsz: nat): seq<Byte>
    requires cbsz > 0
  {
    Emitted(START, d, cbsz) + Tail(Feed(START, d, cbsz), cbsz)
  }

  // ---------------------------------------------------------------- block, line by line

  /** A line as a record of exactly cbsz bytes: padded with spaces, or cut. */
  function Record(line: seq<Byte>, cbsz: nat): (r: seq<Byte>)
    ensures |r| == cbsz
  {
    if |line| >= cbsz then line[..cbsz] else Padded(line, cbsz)
  }

  function Text(lines: seq<seq<Byte>>): seq<Byte> {
    if lines == [] then [] else lines[0] + [NL] + Text(lines[1..])
  }

  function Records(lines: seq<seq<Byte>>, cbsz: nat): seq<Byte> {
    if lines == [] then [] else Record(lines[0], cbsz) + Records(lines[1..], cbsz)
  }

  ghost predicate AreLines(lines: seq<seq<Byte>>) {
    forall i :: 0 <= i < |lines| ==> NL !in lines[i]
  }

  lemma FeedWholeLine(x: seq<Byte>, rest: seq<Byte>, cbsz: nat)
    requires cbsz > 0 && NL !in x
    ensures Feed(START, x + [NL] + rest, cbsz) == Feed(START, rest, cbsz)
    ensures Emitted(START, x + [NL] + rest, cbsz) == Record(x, cbsz) + Emitted(START, rest, cbsz)
  {
    hide Feed, Emitted, Padded;
    if |x| < cbsz {
      FeedLine(x, rest, cbsz);
    } else {
      assert x + [NL] + rest == x[..cbsz] + (x[cbsz..] + [NL] + rest);
      FeedFull(x[..cbsz], x[cbsz..] + [NL] + rest, cbsz);
      FeedDropped(x[cbsz..], rest, cbsz);
    }
  }

  /** An unfinished line. */
  lemma FeedLast(last: seq<Byte>, cbsz: nat)
    requires cbsz > 0 && NL !in last
    ensures Emitted(START, last, cbsz) + Tail(Feed(START, last, cbsz), cbsz) == if last == [] then [] else Record(last, cbsz)
  {
    hide Feed, Emitted, Padded;
    if |last| < cbsz {
      FeedPlain([], last, cbsz);
      assert [] + last == last;
    } else {
      assert last == last[..cbsz] + last[cbsz..];
      FeedFull(last[..cbsz], last[cbsz..], cbsz);
      FeedDropping(last[cbsz..], cbsz);
    }
  }

  lemma {:induction false} FeedText(lines: seq<seq<Byte>>, last: seq<Byte>, cbsz: nat)
    requires cbsz > 0 && AreLines(lines)
    ensures Feed(START, Text(lines) + last, cbsz) == Feed(START, last, cbsz)
    ensures Emitted(START, Text(lines) + last, cbsz) == Records(lines, cbsz) + Emitted(START, last, cbsz)
    decreases |lines|
  {
    hide Feed, Emitted;
    if lines == [] {
      assert Text(lines) + last == last;
    } else {
      var x, more := lines[0], Text(lines[1..]) + last;
      FeedText(lines[1..], last, cbsz);
      assert Text(lines) + last == x + [NL] + more;
      FeedWholeLine(x, more, cbsz);
      Grouping(Record(x, cbsz), Records(lines[1..], cbsz), Emitted(START, last, cbsz));
    }
  }

  /** conv=block turns each line into one record, and an unfinished last line into a padded or cut one. */
  lemma BlockedIsRecords(lines: seq<seq<Byte>>, last: seq<Byte>, cbsz: nat)
    requires cbsz > 0 && AreLines(lines) && NL !in last
    ensures Blocked(Text(lines) + last, cbsz) ==
            Records(lines, cbsz) + (if last == [] then [] else Record(last, cbsz))
  {
    hide Feed, Emitted, Tail, Record, Records;
    FeedText(lines, last, cbsz);
    FeedLast(last, cbsz);
    Grouping(Records(lines, cbsz), Emitted(START, last, cbsz), Tail(Feed(START, last, cbsz), cbsz));
  }

  // ---------------------------------------------------------------- unblock

  /** A record without its trailing spaces. */
  function Stripped(r: seq<Byte>): (s: seq<Byte>)
    ensures |s| <= |r| && s == r[..|s|] && (s != [] ==> s[|s| - 1] != SP)
    ensures forall i :: |s| <= i < |r| ==> r[i] == SP
  {
    if r != [] && r[|r| - 1] == SP then Stripped(r[..|r| - 1]) else r
  }

  /** conv=unblock of whole records, and what is left over. */
  function Unblocked(d: seq<Byte>, cbsz: nat): seq<Byte>
    requires cbsz > 0
    decreases |d|
  {
    if |d| < cbsz then [] else Stripped(d[..cbsz]) + [NL] + Unblocked(d[cbsz..], cbsz)
  }

  function Leftover(d: seq<Byte>, cbsz: nat): (r: seq<Byte>)
    requires cbsz > 0
    ensures |r| < cbsz
    decreases |d|
  {
    if |d| < cbsz then d else Leftover(d[cbsz..], cbsz)
  }

  /** conv=unblock of a whole input: a short last record counts as one. */
  function Lined(d: seq<Byte>, cbsz: nat): seq<Byte>
    requires cbsz > 0
  {
    var last := Leftover(d, cbsz);
    Unblocked(d, cbsz) + if last == [] then [] else Stripped(last) + [NL]
  }

  lemma {:induction false} UnblockAppend(a: seq<Byte>, b: seq<Byte>, cbsz: nat)
    requires cbsz > 0
    ensures Unblocked(a + b, cbsz) == Unblocked(a, cbsz) + Unblocked(Leftover(a, cbsz) + b, cbsz)
    ensures Leftover(a + b, cbsz) == Leftover(Leftover(a, cbsz) + b, cbsz)
    decreases |a|
  {
    if |a| >= cbsz {
      var r, x := a[..cbsz], a[cbsz..];
      assert (a + b)[cbsz..] == x + b && (a + b)[..cbsz] == r;
      UnblockAppend(x, b, cbsz);
      assert Unblocked(a + b, cbsz) == Stripped(r) + [NL] + Unblocked(x + b, cbsz);
      Grouping(Stripped(r) + [NL], Unblocked(x, cbsz), Unblocked(Leftover(x, cbsz) + b, cbsz));
    } else {
      assert Unblocked(a, cbsz) == [] && Leftover(a, cbsz) == a;
    }
  }

  // ---------------------------------------------------------------- the round trip

  /** A line that survives: it fits a record and does not end in a space. */
  predicate Survives(line: seq<Byte>, cbsz: nat) {
    |line| <= cbsz && (line != [] ==> line[|line| - 1] != SP)
  }

  lemma {:induction false} StrippedIs(line: seq<Byte>, n: nat)
    requires line != [] ==> line[|line| - 1] != SP
    ensures Stripped(line + Spaces(n)) == line
    decreases n
  {
    if n == 0 {
      assert line + Spaces(n) == line;
    } else {
      assert (line + Spaces(n))[..|line| + n - 1] == line + Spaces(n - 1);
      StrippedIs(line, n - 1);
    }
  }

  lemma RecordRoundTrip(line: seq<Byte>, cbsz: nat)
    requires NL !in line
    ensures Stripped(Record(line, cbsz)) == line <==> Survives(line, cbsz)
    ensures NL !in Stripped(Record(line, cbsz))
  {
    if Survives(line, cbsz) {
      if |line| == cbsz {
        assert line[..cbsz] == line + Spaces(0) == line;
        StrippedIs(line, 0);
      } else {
        StrippedIs(line, cbsz - |line|);
      }
    }
  }

  lemma {:induction false} UnblockRecords(lines: seq<seq<Byte>>, cbsz: nat)
    requires cbsz > 0 && lines != []
    ensures Lined(Records(lines, cbsz), cbsz) == Stripped(Record(lines[0], cbsz)) + [NL] + Lined(Records(lines[1..], cbsz), cbsz)
  {
    var r, more := Record(lines[0], cbsz), Records(lines[1..], cbsz);
    assert (r + more)[..cbsz] == r && (r + more)[cbsz..] == more;
  }

  lemma FirstNewline(a: seq<Byte>, x: seq<Byte>, s: seq<Byte>)
    requires NL !in a && s == a + [NL] + x
    ensures |a| < |s| && s[|a|] == NL && (forall i :: 0 <= i < |a| ==> s[i] != NL)
    ensures s[..|a|] == a && s[|a| + 1..] == x
  {
  }

  lemma SameLines(a: seq<Byte>, b: seq<Byte>, x: seq<Byte>, y: seq<Byte>)
    requires NL !in a && NL !in b && a + [NL] + x == b + [NL] + y
    ensures a == b && x == y
  {
    FirstNewline(a, x, a + [NL] + x);
    FirstNewline(b, y, a + [NL] + x);
  }

  /** unblock after block gives a newline-terminated text back exactly when every line fits a record and
      ends in something other than a space. */
  lemma RoundTrip(lines: seq<seq<Byte>>, cbsz: nat)
    requires cbsz > 0 && AreLines(lines)
    ensures Lined(Blocked(Text(lines), cbsz), cbsz) == Text(lines) <==>
            forall i :: 0 <= i < |lines| ==> Survives(lines[i], cbsz)
  {
    BlockedIsRecords(lines, [], cbsz);
    assert Text(lines) + [] == Text(lines);
    assert Records(lines, cbsz) + [] == Records(lines, cbsz);
    RecordsRoundTrip(lines, cbsz);
  }

  lemma {:induction false} RecordsRoundTrip(lines: seq<seq<Byte>>, cbsz: nat)
    requires cbsz > 0 && AreLines(lines)
    ensures Lined(Records(lines, cbsz), cbsz) == Text(lines) <==>
            forall i :: 0 <= i < |lines| ==> Survives(lines[i], cbsz)
    decreases |lines|
  {
    if lines != [] {
      UnblockRecords(lines, cbsz);
      RecordRoundTrip(lines[0], cbsz);
      RecordsRoundTrip(lines[1..], cbsz);
      var s := Stripped(Record(lines[0], cbsz));
      if s + [NL] + Lined(Records(lines[1..], cbsz), cbsz) == lines[0] + [NL] + Text(lines[1..]) {
        SameLines(s, lines[0], Lined(Records(lines[1..], cbsz), cbsz), Text(lines[1..]));
        forall i | 0 <= i < |lines|
          ensures Survives(lines[i], cbsz)
        {
          if i > 0 {
            assert lines[i] == lines[1..][i - 1];
          }
        }
      }
    }
  }

  // ---------------------------------------------------------------- byte by byte

  /** A record holds the bytes of its line, and spaces (byte 32) behind them. */
  lemma RecordIs(line: seq<Byte>, cbsz: nat, i: nat)
    requires i < cbsz
    ensures Record(line, cbsz)[i] == if i < |line| then line[i] else 32
  {
  }

  /** A line read back is its record without the spaces at the end; it ends in a newline (byte 10). */
  lemma StrippedBytes(r: seq<Byte>)
    ensures var s := Stripped(r);
            && |s| <= |r| && (forall i :: 0 <= i < |s| ==> s[i] == r[i]) && (forall i :: |s| <= i < |r| ==> r[i] == 32)
            && (s != [] ==> s[|s| - 1] != 32) && NL == 10
  {
  }

  function Bytes(rs: seq<seq<Byte>>): seq<Byte> {
    if rs == [] then [] else rs[0] + Bytes(rs[1..])
  }

  /** The lines of whole records and of what is left over behind them, which counts as a record of its own. */
  function LinesOf(rs: seq<seq<Byte>>, rest: seq<Byte>): seq<Byte> {
    if rs == [] then if rest == [] then [] else Stripped(rest) + [10]
    else Stripped(rs[0]) + [10] + LinesOf(rs[1..], rest)
  }

  lemma LinedStep(r: seq<Byte>, more: seq<Byte>, cbsz: nat)
    requires |r| == cbsz > 0
    ensures Lined(r + more, cbsz) == Stripped(r) + [NL] + Lined(more, cbsz)
  {
    hide Stripped;
    var d := r + more;
    assert d[..cbsz] == r && d[cbsz..] == more;
  }

  /** unblock makes a line of every record and of a short one at the end, even if it is blank. */
  lemma {:induction false} LinedIs(rs: seq<seq<Byte>>, rest: seq<Byte>, cbsz: nat)
    requires |rest| < cbsz && forall r <- rs :: |r| == cbsz
    ensures Lined(Bytes(rs) + rest, cbsz) == LinesOf(rs, rest)
    decreases |rs|
  {
    hide Stripped;
    if rs == [] {
      assert Bytes(rs) + rest == rest;
    } else {
      hide Lined;
      var more := Bytes(rs[1..]) + rest;
      assert Bytes(rs) + rest == rs[0] + more;
      LinedIs(rs[1..], rest, cbsz);
      LinedStep(rs[0], more, cbsz);
    }
  }
}
