/** What happens to a job, told without the functions of the state machine: which marks each status leaves, when the
    user hears of a job and what is shown at the next prompt, and what it means to start one again. */
module JobLaws {
  import opened Common
  import opened Dirs
  import opened JobTable

  /** p and q belong to one job. */
  predicate Together(rec: map<Process, Rec>, p: Process, q: Process) {
    p in rec && q in rec && rec[p].lead == rec[q].lead
  }

  /** Some process of p's job carries the flag. */
  predicate Any(rec: map<Process, Rec>, p: Process, f: Flag) {
    exists q <- rec :: Together(rec, p, q) && f in rec[q].flags
  }

  /** What wait3 said of a process is what its record says: whether it stopped, was killed, by which signal, and
      with which exit code. */
  predicate Recorded(was: Rec, r: Rec, st: Status) {
    && r.reason == (match st case StoppedBy(sig) => sig case KilledBy(sig, _) => sig case Exited(code) => code)
    && Running !in r.flags && Foregnd !in r.flags
    && (Stopped in r.flags <==> st.StoppedBy?)
    && (Interrupted in r.flags <==> Interrupted in was.flags || (st.KilledBy? && st.sig == 2))
    && (Signaled in r.flags <==> Signaled in was.flags || (st.KilledBy? && st.sig != 2))
    && (Dumped in r.flags <==> Dumped in was.flags || (st.KilledBy? && st.core))
    && (NExited in r.flags <==> NExited in was.flags || st == Exited(0))
    && (AExited in r.flags <==> AExited in was.flags || (st.Exited? && st.code != 0))
    && (Notify in r.flags <==> Notify in was.flags)
  }

  /** A record that nothing but a flush or a mark for the prompt has touched. */
  predicate OnlyMarked(was: Rec, r: Rec) {
    && r.lead == was.lead && r.cwd == was.cwd && r.reason == was.reason && r.jobid == was.jobid
    && (r.pid == was.pid || r.pid == 0) && (r.index == was.index || r.index == 0)
    && forall f: Flag :: f != NeedNote && f != Reported ==> (f in r.flags <==> f in was.flags)
  }

  /** The steps of Child once the process is found. */
  lemma Unfolded(t: Table, p: Process, st: Status, notify: bool)
    requires Inv(t) && Live(t.rs, p)
    ensures var l, t1 := t.rs.rec[p].lead, With(t, Heard(t.rs.rec, p, st));
            var flags := JobFlags(News(t.rs.rec, p, st), l);
            && IsLeader(t.rs, l) && l in t1.rs.rec && InRange(t1.rs) && t1.rs.rec.Keys == t.rs.rec.Keys
            && Child(t, t.rs.rec[p].pid, st, notify)
               == if Running in flags || Reported in flags then t1 else Told(Settled(t1, l, flags), l, flags, notify)
  {
    hide Led, Rings, Indexed, Named, Reportable, MaxIndex, Current, Settled, Told, JobFlags, News;
    LeaderLives(t, p);
    FoundByPid(t, p);
  }

  lemma HeardRecords(rec: map<Process, Rec>, p: Process, st: Status)
    requires p in rec
    ensures Recorded(rec[p], Heard(rec, p, st)[p], st)
    ensures forall q <- rec :: q != p ==> Heard(rec, p, st)[q] == rec[q]
  {
  }

  predicate Marked(rec: map<Process, Rec>, r: map<Process, Rec>) {
    rec.Keys == r.Keys && forall q <- rec :: OnlyMarked(rec[q], r[q])
  }

  lemma SettledMarks(t: Table, l: Process, flags: set<Flag>)
    requires l in t.rs.rec
    ensures Marked(t.rs.rec, Settled(t, l, flags).rs.rec)
  {
    hide ClrCurr;
  }

  lemma ToldMarks(t: Table, l: Process, flags: set<Flag>, notify: bool)
    requires InRange(t.rs) && l in t.rs.rec
    ensures Marked(t.rs.rec, Told(t, l, flags, notify).rs.rec)
  {
    hide ClrCurr, MaxIndex;
  }

  lemma MarkedTwice(a: map<Process, Rec>, b: map<Process, Rec>, c: map<Process, Rec>)
    requires Marked(a, b) && Marked(b, c)
    ensures Marked(a, c)
  {
  }

  /** The record of the process that changed says what happened to it; the others only get or lose marks. */
  lemma ChildRecords(t: Table, p: Process, st: Status, notify: bool)
    requires Inv(t) && Live(t.rs, p)
    ensures var r := Child(t, t.rs.rec[p].pid, st, notify).rs.rec;
            && r.Keys == t.rs.rec.Keys && Recorded(t.rs.rec[p], r[p], st)
            && forall q <- r :: q != p ==> OnlyMarked(t.rs.rec[q], r[q])
  {
    hide Inv, Heard, Settled, Told, Recorded, OnlyMarked, Child;
    Unfolded(t, p, st, notify);
    HeardRecords(t.rs.rec, p, st);
    var l, t1 := t.rs.rec[p].lead, With(t, Heard(t.rs.rec, p, st));
    var flags := JobFlags(News(t.rs.rec, p, st), l);
    var r := Child(t, t.rs.rec[p].pid, st, notify).rs.rec;
    if Running in flags || Reported in flags {
      Unmarked(t1.rs.rec);
    } else {
      SettledMarks(t1, l, flags);
      ToldMarks(Settled(t1, l, flags), l, flags, notify);
      MarkedTwice(t1.rs.rec, Settled(t1, l, flags).rs.rec, r);
    }
    StillRecorded(t.rs.rec[p], t1.rs.rec[p], r[p], st);
  }

  lemma Unmarked(rec: map<Process, Rec>)
    ensures Marked(rec, rec)
  {
  }

  lemma StillRecorded(was: Rec, a: Rec, b: Rec, st: Status)
    requires Recorded(was, a, st) && OnlyMarked(a, b)
    ensures Recorded(was, b, st)
  {
  }

  /** While another process of the job runs, or its stop was reported, news of one change its record and nothing else. */
  lemma StillRunning(t: Table, p: Process, q: Process, st: Status, notify: bool)
    requires Inv(t) && Live(t.rs, p) && Together(t.rs.rec, p, q) && q != p
    requires Running in t.rs.rec[q].flags || Reported in t.rs.rec[q].flags
    ensures var r := Child(t, t.rs.rec[p].pid, st, notify);
            p in r.rs.rec && r == t.(rs := t.rs.(rec := t.rs.rec[p := r.rs.rec[p]]))
  {
    hide Inv, Child, Settled, Told, AfterWait;
    Unfolded(t, p, st, notify);
    var l := t.rs.rec[p].lead;
    assert News(t.rs.rec, p, st)[q] == t.rs.rec[q];
    assert forall f <- t.rs.rec[q].flags :: f in JobFlags(News(t.rs.rec, p, st), l);
  }

  // ---------------------------------------------------------------- when the user hears of it

  /** The job of p rests once p has changed: none of the others runs, and it was not reported before. */
  predicate Rests(rec: map<Process, Rec>, p: Process) {
    forall q <- rec :: q != p && Together(rec, p, q) ==> rec[q].flags !! {Running, Reported}
  }

  predicate Stops(rec: map<Process, Rec>, p: Process, st: Status) {
    st.StoppedBy? || exists q <- rec :: q != p && Together(rec, p, q) && Stopped in rec[q].flags
  }

  lemma FlagsAre(rec: map<Process, Rec>, p: Process, st: Status)
    requires p in rec && Rests(rec, p)
    ensures var flags := JobFlags(News(rec, p, st), rec[p].lead);
            && flags !! {Running, Reported}
            && (Stopped in flags <==> Stops(rec, p, st))
            && (Foregnd in flags <==> Any(rec, p, Foregnd)) && (Notify in flags <==> Any(rec, p, Notify))
  {
    var news := News(rec, p, st);
    assert forall q <- rec, f: Flag :: q != p ==> (f in news[q].flags <==> f in rec[q].flags);
    assert forall f: Flag :: f in JobFlags(news, rec[p].lead) <==> exists q <- news :: news[q].lead == rec[p].lead && f in news[q].flags;
    assert Stopped in news[p].flags <==> st.StoppedBy?;
    assert Foregnd in news[p].flags <==> Foregnd in rec[p].flags;
    assert Notify in news[p].flags <==> Notify in rec[p].flags;
  }

  /** No mark and no life has changed. */
  predicate Unheard(rec: map<Process, Rec>, r: map<Process, Rec>) {
    rec.Keys == r.Keys
    && forall q <- rec :: (NeedNote in r[q].flags <==> NeedNote in rec[q].flags) && r[q].pid == rec[q].pid && r[q].lead == rec[q].lead
  }

  /** When a job comes to rest: in the foreground nothing is said; with notification a stopped job stays as it is, and
      an ended one is gone; and without, its leader is marked for the next prompt. */
  lemma RestingJob(t: Table, p: Process, st: Status, notify: bool)
    requires Inv(t) && Live(t.rs, p) && Rests(t.rs.rec, p)
    ensures var rec, r, l := t.rs.rec, Child(t, t.rs.rec[p].pid, st, notify).rs.rec, t.rs.rec[p].lead;
            var said := notify || Any(rec, p, Notify);
            && r.Keys == rec.Keys
            && (Any(rec, p, Foregnd) || (said && Stops(rec, p, st)) ==> Unheard(rec, r))
            && (!Any(rec, p, Foregnd) && said && !Stops(rec, p, st) ==>
                forall q <- rec :: r[q].pid == if Together(rec, p, q) then 0 else rec[q].pid)
            && (!Any(rec, p, Foregnd) && !said ==>
                forall q <- rec :: && (NeedNote in r[q].flags <==> q == l || NeedNote in rec[q].flags)
                                   && r[q].pid == rec[q].pid && r[q].lead == rec[q].lead)
  {
    hide Inv, Heard, Settled, Told, Child;
    Unfolded(t, p, st, notify);
    FlagsAre(t.rs.rec, p, st);
    var l, t1 := t.rs.rec[p].lead, With(t, Heard(t.rs.rec, p, st));
    var flags := JobFlags(News(t.rs.rec, p, st), l);
    HeardQuiet(t.rs.rec, p, st);
    SettledQuiet(t1, l, flags);
    ToldAre(Settled(t1, l, flags), l, flags, notify);
  }

  lemma HeardQuiet(rec: map<Process, Rec>, p: Process, st: Status)
    requires p in rec
    ensures Unheard(rec, Heard(rec, p, st))
  {
  }

  lemma SettledQuiet(t: Table, l: Process, flags: set<Flag>)
    requires l in t.rs.rec
    ensures Unheard(t.rs.rec, Settled(t, l, flags).rs.rec)
  {
    hide ClrCurr;
  }

  lemma ToldAre(t: Table, l: Process, flags: set<Flag>, notify: bool)
    requires InRange(t.rs) && l in t.rs.rec
    ensures var rec, r := t.rs.rec, Told(t, l, flags, notify).rs.rec;
            var said := notify || Notify in flags;
            && r.Keys == rec.Keys
            && (Foregnd in flags || (said && Stopped in flags) ==> Unheard(rec, r))
            && (Foregnd !in flags && said && Stopped !in flags ==>
                forall q <- rec :: r[q].pid == if rec[q].lead == l then 0 else rec[q].pid)
            && (Foregnd !in flags && !said ==>
                forall q <- rec :: && (NeedNote in r[q].flags <==> q == l || NeedNote in rec[q].flags)
                                   && r[q].pid == rec[q].pid && r[q].lead == rec[q].lead)
  {
    hide ClrCurr, MaxIndex;
  }

  /** Then exactly its stopped processes count as reported, which keeps later news of them quiet. */
  lemma RestingReported(t: Table, p: Process, st: Status, notify: bool)
    requires Inv(t) && Live(t.rs, p) && Rests(t.rs.rec, p)
    ensures var rec, r := t.rs.rec, Child(t, t.rs.rec[p].pid, st, notify).rs.rec;
            && r.Keys == rec.Keys
            && forall q <- rec ::
                 Reported in r[q].flags <==> if Together(rec, p, q) then Stopped in r[q].flags else Reported in rec[q].flags
  {
    hide Inv, Heard, Settled, Told, Child;
    Unfolded(t, p, st, notify);
    FlagsAre(t.rs.rec, p, st);
    var l, t1 := t.rs.rec[p].lead, With(t, Heard(t.rs.rec, p, st));
    var flags := JobFlags(News(t.rs.rec, p, st), l);
    HeardReported(t.rs.rec, p, st);
    SettledReported(t1, l, flags);
    ToldReported(Settled(t1, l, flags), l, flags, notify);
  }

  lemma HeardReported(rec: map<Process, Rec>, p: Process, st: Status)
    requires p in rec
    ensures var r := Heard(rec, p, st);
            && r.Keys == rec.Keys && Reported !in r[p].flags && r[p].lead == rec[p].lead
            && forall q <- rec :: q != p ==> r[q] == rec[q]
  {
  }

  lemma SettledReported(t: Table, l: Process, flags: set<Flag>)
    requires l in t.rs.rec
    ensures var rec, r := t.rs.rec, Settled(t, l, flags).rs.rec;
            && r.Keys == rec.Keys
            && forall q <- rec :: && r[q].lead == rec[q].lead && (Stopped in r[q].flags <==> Stopped in rec[q].flags)
                                  && (Reported in r[q].flags <==> Reported in rec[q].flags
                                                                   || (rec[q].lead == l && Stopped in rec[q].flags))
  {
    hide ClrCurr;
  }

  lemma ToldReported(t: Table, l: Process, flags: set<Flag>, notify: bool)
    requires InRange(t.rs) && l in t.rs.rec
    ensures var rec, r := t.rs.rec, Told(t, l, flags, notify).rs.rec;
            && r.Keys == rec.Keys
            && forall q <- rec :: forall f <- {Reported, Stopped} :: f in r[q].flags <==> f in rec[q].flags
  {
    hide ClrCurr, MaxIndex;
  }

  // ---------------------------------------------------------------- the next prompt

  /** No process of p's job runs or is stopped. */
  predicate Over(rec: map<Process, Rec>, p: Process) {
    !Any(rec, p, Running) && !Any(rec, p, Stopped)
  }

  /** What showing the records of s makes of the table: those marked lose the mark, and the jobs among them that are
      over are given up. */
  ghost predicate Shown(rec: map<Process, Rec>, s: seq<Process>, r: map<Process, Rec>) {
    && r.Keys == rec.Keys
    && (forall q <- rec :: r[q].lead == rec[q].lead)
    && (forall q <- rec, f: Flag :: f != NeedNote ==> (f in r[q].flags <==> f in rec[q].flags))
    && (forall q <- rec :: NeedNote in r[q].flags <==> NeedNote in rec[q].flags && q !in s && !Closed(rec, s, q))
    && (forall q <- rec :: r[q].pid == if Closed(rec, s, q) then 0 else rec[q].pid)
  }

  /** One of the records of s belongs to the job of q, is marked, and the job is over. */
  ghost predicate Closed(rec: map<Process, Rec>, s: seq<Process>, q: Process) {
    exists p <- s :: Together(rec, p, q) && NeedNote in rec[p].flags && Over(rec, p)
  }

  lemma JobFlagsAre(rec: map<Process, Rec>, p: Process)
    requires p in rec
    ensures JobFlags(rec, rec[p].lead) !! {Running, Stopped} <==> Over(rec, p)
  {
    var l := rec[p].lead;
    assert forall f: Flag :: f in JobFlags(rec, l) <==> exists q <- rec :: rec[q].lead == l && f in rec[q].flags;
    assert forall f: Flag :: Any(rec, p, f) <==> exists q <- rec :: rec[q].lead == l && f in rec[q].flags;
  }

  /** The records after one of them is shown. */
  function OneShown(rec: map<Process, Rec>, p: Process): map<Process, Rec>
    requires p in rec
  {
    var rec1 := rec[p := rec[p].(flags := rec[p].flags - {NeedNote})];
    if NeedNote !in rec[p].flags then rec
    else if Over(rec, p) then map q <- rec1 :: if rec1[q].lead == rec[p].lead then Zeroed(rec1[q]) else rec1[q]
    else rec1
  }

  lemma NoteIs(t: Table, p: Process)
    requires InRange(t.rs) && p in t.rs.rec
    ensures Note(t, p).rs.rec == OneShown(t.rs.rec, p)
  {
    hide Flush, JobFlags, Over;
    var rec := t.rs.rec;
    var rec1 := rec[p := rec[p].(flags := rec[p].flags - {NeedNote})];
    JobFlagsAre(rec1, p);
    OverSame(rec, rec1, p);
    FlushRecords(With(t, rec1), rec[p].lead);
  }

  lemma OneIsShown(rec: map<Process, Rec>, p: Process)
    requires p in rec
    ensures Shown(rec, [p], OneShown(rec, p))
  {
    hide Over, Closed;
    ClosedByOne(rec, p);
  }

  lemma NoteShows(t: Table, p: Process)
    requires InRange(t.rs) && p in t.rs.rec
    ensures Shown(t.rs.rec, [p], Note(t, p).rs.rec)
  {
    hide Note, Shown, OneShown;
    NoteIs(t, p);
    OneIsShown(t.rs.rec, p);
  }

  lemma ClosedByOne(rec: map<Process, Rec>, p: Process)
    requires p in rec
    ensures forall q <- rec :: Closed(rec, [p], q) <==> rec[q].lead == rec[p].lead && NeedNote in rec[p].flags && Over(rec, p)
  {
    hide Over;
    assert p in [p];
  }

  lemma FlushRecords(t: Table, l: Process)
    requires InRange(t.rs)
    ensures Flush(t, l).rs.rec == map p <- t.rs.rec :: if t.rs.rec[p].lead == l then Zeroed(t.rs.rec[p]) else t.rs.rec[p]
  {
    hide ClrCurr, MaxIndex;
  }

  lemma OverSame(rec: map<Process, Rec>, r: map<Process, Rec>, p: Process)
    requires rec.Keys == r.Keys && forall q <- rec :: r[q].lead == rec[q].lead
    requires forall q <- rec, f: Flag :: f != NeedNote ==> (f in r[q].flags <==> f in rec[q].flags)
    ensures Over(rec, p) <==> Over(r, p)
  {
  }

  lemma {:induction false} NotesShow(t: Table, s: seq<Process>)
    requires InRange(t.rs) && forall p <- s :: p in t.rs.rec
    ensures Shown(t.rs.rec, s, NoteList(t, s).rs.rec)
    decreases |s|
  {
    hide Note, Over;
    if s != [] {
      var t1 := Note(t, s[0]);
      NoteShows(t, s[0]);
      NotesShow(t1, s[1..]);
      ShownTwice(t.rs.rec, s, t1.rs.rec, NoteList(t, s).rs.rec);
    }
  }

  lemma ShownTwice(rec: map<Process, Rec>, s: seq<Process>, r1: map<Process, Rec>, r: map<Process, Rec>)
    requires s != [] && (forall p <- s :: p in rec)
    requires Shown(rec, [s[0]], r1) && Shown(r1, s[1..], r)
    ensures Shown(rec, s, r)
  {
    hide Over;
    assert s == [s[0]] + s[1..];
    forall q <- rec ensures Closed(rec, s, q) <==> Closed(rec, [s[0]], q) || Closed(r1, s[1..], q) {
      ClosedSplit(rec, s, r1, q);
    }
  }

  lemma ClosedSplit(rec: map<Process, Rec>, s: seq<Process>, r1: map<Process, Rec>, q: Process)
    requires s != [] && (forall p <- s :: p in rec) && Shown(rec, [s[0]], r1) && q in rec
    ensures Closed(rec, s, q) <==> Closed(rec, [s[0]], q) || Closed(r1, s[1..], q)
  {
    hide Over;
    assert s == [s[0]] + s[1..];
    forall p <- rec ensures Over(rec, p) <==> Over(r1, p) {
      OverSame(rec, r1, p);
    }
    if p :| p in s && Together(rec, p, q) && NeedNote in rec[p].flags && Over(rec, p) {
      if p == s[0] {
        assert Closed(rec, [s[0]], q);
      } else if !Closed(rec, [s[0]], p) {
        assert p in s[1..] && NeedNote in r1[p].flags;
      }
    }
  }

  /** The prompt: no mark is left, and exactly the marked jobs that are over are given up. */
  lemma PromptShows(t: Table)
    requires Inv(t)
    ensures InRange(t.rs)
    ensures var rec, r := t.rs.rec, NoteList(t, t.rs.procs).rs.rec;
            && r.Keys == rec.Keys && (forall q <- rec :: NeedNote !in r[q].flags)
            && forall q <- rec :: r[q].pid == if Any(rec, q, NeedNote) && Over(rec, q) then 0 else rec[q].pid
  {
    hide Led, Rings, Indexed, Named, Reportable, Current, MaxIndex, Over, NoteList;
    var rec, s := t.rs.rec, t.rs.procs;
    NotesShow(t, s);
    forall q <- rec ensures Closed(rec, s, q) <==> Any(rec, q, NeedNote) && Over(rec, q) {
      forall p <- rec ensures Together(rec, p, q) ==> (Over(rec, p) <==> Over(rec, q)) {
        OverTogether(rec, p, q);
      }
    }
  }

  lemma OverTogether(rec: map<Process, Rec>, p: Process, q: Process)
    requires p in rec && q in rec
    ensures Together(rec, p, q) ==> (Over(rec, p) <==> Over(rec, q))
  {
  }

  /** A background job that ends without notification is off the table after the next prompt; one that stops stays. */
  lemma AtThePrompt(t: Table, p: Process, st: Status, notify: bool)
    requires Inv(t) && Live(t.rs, p) && Rests(t.rs.rec, p)
    requires !Any(t.rs.rec, p, Foregnd) && !notify && !Any(t.rs.rec, p, Notify)
    ensures var t1 := Child(t, t.rs.rec[p].pid, st, notify);
            && InRange(t1.rs)
            && var r := NoteList(t1, t1.rs.procs).rs.rec;
            && r.Keys == t.rs.rec.Keys
            && forall q <- r :: Together(t.rs.rec, p, q) && Live(t.rs, q) ==> (r[q].pid == 0 <==> !Stops(t.rs.rec, p, st))
  {
    hide Inv, Sound, Current, NoteList, Child, Over, Recorded, OnlyMarked, Any, Rests, Stops;
    var rec, t1 := t.rs.rec, Child(t, t.rs.rec[p].pid, st, notify);
    var r1, l := t1.rs.rec, rec[p].lead;
    assert rec[p].pid != 0;
    ChildKeeps(t, rec[p].pid, st, notify);
    RestingJob(t, p, st, notify);
    ChildRecords(t, p, st, notify);
    LeaderLives(t, p);
    PromptShows(t1);
    RestingOver(rec, r1, p, st);
    forall q <- rec | Together(rec, p, q)
      ensures Any(r1, q, NeedNote) && (Over(r1, q) <==> Over(r1, p)) {
      assert l in r1 && NeedNote in r1[l].flags && r1[l].lead == rec[l].lead == l;
      Somewhere(r1, l, q, NeedNote);
      OverTogether(r1, p, q);
    }
  }

  lemma Somewhere(rec: map<Process, Rec>, p: Process, q: Process, f: Flag)
    requires Together(rec, q, p) && f in rec[p].flags
    ensures Any(rec, q, f)
  {
  }

  lemma RestingOver(rec: map<Process, Rec>, r: map<Process, Rec>, p: Process, st: Status)
    requires p in rec && r.Keys == rec.Keys && Rests(rec, p) && (forall q <- rec :: r[q].lead == rec[q].lead)
    requires Recorded(rec[p], r[p], st) && forall q <- r :: q != p ==> OnlyMarked(rec[q], r[q])
    ensures Over(r, p) <==> !Stops(rec, p, st)
  {
    assert forall q <- rec :: q != p ==> (Running in r[q].flags <==> Running in rec[q].flags);
    assert forall q <- rec :: q != p ==> (Stopped in r[q].flags <==> Stopped in rec[q].flags);
    hide Recorded, OnlyMarked;
    assert Running !in r[p].flags && (Stopped in r[p].flags <==> st.StoppedBy?) by {
      MarksOf(rec[p], r[p], st);
    }
    if q :| q in rec && q != p && Together(rec, p, q) && Stopped in rec[q].flags {
      Somewhere(r, q, p, Stopped);
    }
    if st.StoppedBy? {
      Somewhere(r, p, p, Stopped);
    }
  }

  lemma MarksOf(was: Rec, r: Rec, st: Status)
    requires Recorded(was, r, st)
    ensures Running !in r.flags && (Stopped in r.flags <==> st.StoppedBy?)
  {
  }

  // ---------------------------------------------------------------- the current jobs

  /** The first leader on the list that is neither of two, a stopped one if there is any. */
  ghost predicate Best(rs: Records, r: Process?, x: Process?, y: Process?) {
    if r == null then forall p <- rs.procs :: IsLeader(rs, p) ==> p == x || p == y
    else
      && IsLeader(rs, r) && r != x && r != y
      && exists k :: 0 <= k < |rs.procs| && rs.procs[k] == r
                     && forall i :: 0 <= i < |rs.procs| && IsLeader(rs, rs.procs[i]) && rs.procs[i] != x && rs.procs[i] != y ==>
                          if Stopped in rs.rec[rs.procs[i]].flags then Stopped in rs.rec[r].flags && i >= k
                          else Stopped in rs.rec[r].flags || i >= k
  }

  lemma {:induction false} FirstIsFirst(rs: Records, s: seq<Process>, curr: Process?, pp: Process, stopped: bool) returns (k: nat)
    ensures var r := First(rs, s, curr, pp, stopped);
            r != null ==> k < |s| && s[k] == r && forall i :: 0 <= i < k ==> !Candidate(rs, s[i], curr, pp, stopped)
  {
    k := 0;
    if s != [] && !Candidate(rs, s[0], curr, pp, stopped) {
      k := FirstIsFirst(rs, s[1..], curr, pp, stopped);
      assert forall i :: 0 < i <= k && i < |s| ==> s[i] == s[1..][i - 1];
      k := k + 1;
    }
  }

  lemma GetCurrIsBest(rs: Records, curr: Process?, pp: Process)
    requires Sound(rs)
    ensures Best(rs, GetCurr(rs, curr, pp), curr, pp)
  {
    hide Led, Rings, Indexed, Named;
    forall p <- rs.procs
      ensures IsLeader(rs, p) && p != curr && p != pp <==> Candidate(rs, p, curr, pp, false)
    {
      if Live(rs, p) {
        LeaderByPid(rs, p);
      }
    }
    var k := FirstIsFirst(rs, rs.procs, curr, pp, true);
    var m := FirstIsFirst(rs, rs.procs, curr, pp, false);
    assert forall i :: 0 <= i < |rs.procs| ==> rs.procs[i] in rs.procs;
  }

  /** Taking a job out of the current and previous ones: the previous one moves up, and what is missing is filled in. */
  lemma TakenOut(t: Table, pp: Process)
    requires Sound(t.rs) && Current(t)
    ensures var r := ClrCurr(t, pp);
            && r == t.(curr := r.curr, prev := r.prev)
            && (pp != t.curr ==> r.curr == t.curr && (pp != t.prev ==> r.prev == t.prev))
            && (pp == t.curr ==> if t.prev != null then r.curr == t.prev else Best(t.rs, r.curr, pp, pp))
            && (pp == t.curr || pp == t.prev ==> Best(t.rs, r.prev, r.curr, pp))
  {
    hide Led, Rings, Indexed, Named, GetCurr, Best;
    GetCurrIsBest(t.rs, t.curr, pp);
    GetCurrIsBest(t.rs, ClrCurr(t, pp).curr, pp);
  }

  /** The current jobs once a job has come to rest. */
  lemma RestingCurrent(t: Table, p: Process, st: Status, notify: bool)
    requires Inv(t) && Live(t.rs, p) && Rests(t.rs.rec, p)
    ensures var l, r := t.rs.rec[p].lead, Child(t, t.rs.rec[p].pid, st, notify);
            if Stops(t.rs.rec, p, st) then
              r.curr == l && r.currjob == t.currjob && r.prev == if t.curr != null && t.curr != l then t.curr else t.prev
            else
              && r.curr != l && r.prev != l && (r.currjob == t.currjob || (t.currjob == l && r.currjob == null))
              && (l != t.curr ==> r.curr == t.curr && (l != t.prev ==> r.prev == t.prev))
              && (l == t.curr && t.prev != null ==> r.curr == t.prev)
  {
    hide Led, Rings, Indexed, Named, Reportable, MaxIndex, Heard, Child, Best, GetCurr, Report;
    Unfolded(t, p, st, notify);
    FlagsAre(t.rs.rec, p, st);
    HeardKeeps(t, p, st);
    var l, t1 := t.rs.rec[p].lead, With(t, Heard(t.rs.rec, p, st));
    var flags := JobFlags(News(t.rs.rec, p, st), l);
    FlagsKeepAll(t1, l);
    var t2 := With(t1, Report(t1.rs.rec, l));
    TakenOut(t2, l);
    ClrCurrSound(t2, l);
  }

  // ---------------------------------------------------------------- starting again

  /** Whatever of the job runs or is stopped runs now, in the foreground or in the background as asked. */
  lemma StartRuns(t: Table, l: Process, foregnd: bool)
    requires Inv(t) && IsLeader(t.rs, l)
    ensures var rec, r := t.rs.rec, Start(t, l, foregnd).rs.rec;
            && r.Keys == rec.Keys
            && forall q <- rec ::
                 if rec[q].lead == l && (Running in rec[q].flags || Stopped in rec[q].flags) then
                   && r[q] == rec[q].(flags := r[q].flags)
                   && Running in r[q].flags && Stopped !in r[q].flags && (Foregnd in r[q].flags <==> foregnd)
                   && forall f :: f !in {Running, Stopped, Foregnd} ==> (f in r[q].flags <==> f in rec[q].flags)
                 else r[q] == rec[q]
    ensures var r := Start(t, l, foregnd);
            && (foregnd ==> r.curr == t.curr && r.prev == t.prev)
            && (!foregnd ==> r.curr != l && r.prev != l && (l != t.curr ==> r.curr == t.curr))
  {
    hide Led, Rings, Indexed, Named, MaxIndex, ClrCurr;
    FlagsKeep(t, Restart(t.rs.rec, l, foregnd));
    ClrCurrSound(With(t, Restart(t.rs.rec, l, foregnd)), l);
    TakenOut(With(t, Restart(t.rs.rec, l, foregnd)), l);
  }

  // ---------------------------------------------------------------- a new process

  lemma {:induction false} FirstFreeIsLeast(rec: map<Process, Rec>, i: nat, n: nat)
    requires i <= n && !Used(rec, n)
    ensures forall k :: i <= k < FirstFree(rec, i, n) ==> Used(rec, k)
    decreases n - i
  {
    if Used(rec, i) {
      FirstFreeIsLeast(rec, i + 1, n);
    }
  }

  /** The index of a new job: one more than the highest while that is below 9, and the least free one after that. */
  lemma IndexIs(t: Table)
    requires Inv(t)
    ensures var i := NewIndex(t.rs);
            if t.maxindex < 9 then i == t.maxindex + 1 else i > 0 && !Used(t.rs.rec, i) && forall k :: 0 < k < i ==> Used(t.rs.rec, k)
  {
    hide Led, Rings, Indexed, Named, Used;
    AboveMax(t.rs);
    if t.maxindex >= 9 {
      FirstFreeIsLeast(t.rs.rec, 1, t.maxindex + 1);
    }
  }

  /** A process joins the current job, with its index and number, or leads a new one from the current directory; a new
      job becomes current if there is none, and otherwise previous if there is none. */
  lemma AllocSays(t: Table, p: Process, pid: int, flags: set<Flag>, cwd: Directory)
    requires Inv(t) && p !in t.rs.rec
    ensures var r := Alloc(t, p, pid, flags, cwd);
            && r.rs.procs == [p] + t.rs.procs && r.rs.rec.Keys == t.rs.rec.Keys + {p}
            && (forall q <- t.rs.rec :: r.rs.rec[q] == t.rs.rec[q])
            && r.rs.rec[p].pid == pid && r.rs.rec[p].flags == flags
            && if t.currjob != null then
                 var j := t.rs.rec[t.currjob];
                 && r.rs.rec[p].lead == t.currjob && r.rs.rec[p].cwd == null
                 && r.rs.rec[p].index == j.index && r.rs.rec[p].jobid == j.pid
                 && r.currjob == t.currjob && r.curr == t.curr && r.prev == t.prev && r.maxindex == t.maxindex
               else
                 && r.rs.rec[p].lead == p && r.rs.rec[p].cwd == cwd && r.rs.rec[p].jobid == pid
                 && r.rs.rec[p].index == NewIndex(t.rs) && r.currjob == p
                 && (t.curr == null ==> r.curr == p && r.prev == t.prev)
                 && (t.curr != null ==> r.curr == t.curr && r.prev == if t.prev == null then p else t.prev)
  {
    hide Led, Rings, Indexed, Named, NewIndex, MaxIndex;
  }
}
