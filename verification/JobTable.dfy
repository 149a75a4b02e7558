/** The job table of proc.c as a state machine: what each step makes of the records, the rings of friends,
    and the current and previous job, and the invariant that every step keeps. */
module JobTable {
  import opened Common
  import opened Dirs

  /** The flags of a process that steer the table; PTIME and PPTIME only matter for printing. */
  datatype Flag = Running | Stopped | NExited | AExited | Signaled | Interrupted | Dumped | Notify | Foregnd | Reported | NeedNote
                | PipedOut | PipedErr

  /** What wait3 reports of a child. */
  datatype Status = StoppedBy(sig: int) | KilledBy(sig: int, core: bool) | Exited(code: int)

  const SIGINT := 2
  const BIGINDEX := 9

  class Process {
    var next: Process?
    var friends: Process?
    var cwd: Directory?
    var flags: set<Flag>
    var reason: int
    var index: nat
    var pid: int
    var jobid: int

    constructor ()
      ensures next == null && friends == null
    {
      next, friends, cwd, flags, reason, index, pid, jobid := null, null, null, {}, 0, 0, 0, 0;
    }
  }

  /** The contents of a record, and the leader of the job it belongs to. */
  datatype Rec = Rec(lead: Process, cwd: Directory?, flags: set<Flag>, reason: int, index: nat, pid: int, jobid: int)

  /** The list from proclist on, what each record holds, and each job's ring of friends from its leader on. */
  datatype Records = Records(procs: seq<Process>, rec: map<Process, Rec>, ring: map<Process, seq<Process>>)

  /** The records with pcurrjob, pcurrent, pprevious and pmaxindex. */
  datatype Table = Table(rs: Records, currjob: Process?, curr: Process?, prev: Process?, maxindex: nat)

  // ---------------------------------------------------------------- the invariant

  predicate InRange(rs: Records) {
    forall p <- rs.procs :: p in rs.rec.Keys
  }

  /** The list holds the records that are described, each once. */
  predicate Listed(rs: Records) {
    Distinct(rs.procs) && InRange(rs) && forall p <- rs.rec :: p in rs.procs
  }

  /** Every record belongs to a leader. */
  predicate Led(rec: map<Process, Rec>) {
    forall p <- rec :: rec[p].lead in rec && rec[rec[p].lead].lead == rec[p].lead
  }

  predicate Covered(rec: map<Process, Rec>, ring: map<Process, seq<Process>>) {
    forall p <- rec :: rec[p].lead in ring && p in ring[rec[p].lead]
  }

  predicate Shaped(ring: map<Process, seq<Process>>) {
    forall l <- ring :: ring[l] != [] && ring[l][0] == l && Distinct(ring[l])
  }

  predicate Owned(rec: map<Process, Rec>, ring: map<Process, seq<Process>>) {
    forall l <- ring, p <- ring[l] :: p in rec && rec[p].lead == l
  }

  /** The rings of friends are disjoint, one for each leader, with the records of its job. */
  predicate Rings(rec: map<Process, Rec>, ring: map<Process, seq<Process>>) {
    Covered(rec, ring) && Shaped(ring) && Owned(rec, ring)
  }

  predicate Live(rs: Records, p: Process) {
    p in rs.rec && rs.rec[p].pid != 0
  }

  /** A job is live or flushed as a whole, under one index that no other live job has. */
  predicate Indexed(rec: map<Process, Rec>)
    requires Led(rec)
  {
    && (forall p <- rec :: (rec[p].pid == 0 <==> rec[rec[p].lead].pid == 0) && rec[p].index == rec[rec[p].lead].index)
    && (forall p <- rec :: rec[p].index == 0 <==> rec[p].pid == 0)
    && (forall p <- rec, q <- rec :: rec[p].index == rec[q].index > 0 ==> rec[p].lead == rec[q].lead)
  }

  /** Live processes have distinct pids, and the leader's is the job's, which no process forgets. Leaders alone
      hold a directory. */
  predicate Named(rec: map<Process, Rec>)
    requires Led(rec)
  {
    && (forall p <- rec :: rec[p].pid != 0 ==> rec[p].jobid == rec[rec[p].lead].pid)
    && (forall p <- rec :: rec[p].jobid != 0)
    && (forall p <- rec, q <- rec :: rec[p].pid == rec[q].pid != 0 ==> p == q)
    && (forall p <- rec :: rec[p].cwd != null <==> p == rec[p].lead)
  }

  /** A flushed job has no status left to report. */
  predicate Reportable(rec: map<Process, Rec>) {
    forall p <- rec :: NeedNote in rec[p].flags ==> rec[p].pid != 0
  }

  predicate Sound(rs: Records) {
    Listed(rs) && Led(rs.rec) && Rings(rs.rec, rs.ring) && Indexed(rs.rec) && Named(rs.rec) && Reportable(rs.rec)
  }

  predicate IsLeader(rs: Records, p: Process) {
    Live(rs, p) && rs.rec[p].lead == p
  }

  /** pcurrent and pprevious are null or distinct live leaders, and there is no previous job without a
      current one. */
  predicate Current(t: Table) {
    && (t.curr == null || IsLeader(t.rs, t.curr))
    && (t.prev == null || IsLeader(t.rs, t.prev))
    && (t.prev != null ==> t.curr != null && t.curr != t.prev)
  }

  /** The highest index in use, 0 without one. */
  function MaxIndex(s: seq<Process>, rec: map<Process, Rec>): (m: nat)
    requires forall p <- s :: p in rec
  {
    if s == [] then 0
    else
      var m := MaxIndex(s[1..], rec);
      if rec[s[0]].index > m then rec[s[0]].index else m
  }

  predicate Inv(t: Table) {
    && Sound(t.rs) && Current(t) && (t.currjob == null || IsLeader(t.rs, t.currjob))
    && t.maxindex == MaxIndex(t.rs.procs, t.rs.rec)
  }

  lemma {:induction false} MaxIsMax(s: seq<Process>, rec: map<Process, Rec>)
    requires forall p <- s :: p in rec
    ensures forall p <- s :: rec[p].index <= MaxIndex(s, rec)
    ensures MaxIndex(s, rec) == 0 || exists p <- s :: rec[p].index == MaxIndex(s, rec)
  {
    if s != [] {
      MaxIsMax(s[1..], rec);
      assert forall p <- s :: p == s[0] || p in s[1..];
    }
  }

  /** Among live records the leaders are exactly those whose pid is the job's. */
  lemma LeaderByPid(rs: Records, p: Process)
    requires Sound(rs) && Live(rs, p)
    ensures p in rs.procs && (rs.rec[p].pid == rs.rec[p].jobid <==> rs.rec[p].lead == p)
  {
    assert rs.rec[p].lead in rs.rec;
  }

  /** The directories the records hold. */
  function Held(s: seq<Process>, rec: map<Process, Rec>): multiset<Directory>
    requires forall p <- s :: p in rec
  {
    if s == [] then multiset{}
    else
      var m := Held(s[1..], rec);
      if rec[s[0]].cwd == null then m else multiset{rec[s[0]].cwd} + m
  }

  // ---------------------------------------------------------------- current and previous job

  /** pgetcurr looks at leaders of live jobs other than pcurrent and pp. */
  predicate Candidate(rs: Records, np: Process, curr: Process?, pp: Process, stopped: bool) {
    && np != curr && np != pp && Live(rs, np) && rs.rec[np].pid == rs.rec[np].jobid
    && (stopped ==> Stopped in rs.rec[np].flags)
  }

  function First(rs: Records, s: seq<Process>, curr: Process?, pp: Process, stopped: bool): (r: Process?)
    ensures r != null ==> r in s && Candidate(rs, r, curr, pp, stopped)
    ensures r == null ==> forall p <- s :: !Candidate(rs, p, curr, pp, stopped)
  {
    if s == [] then null
    else if Candidate(rs, s[0], curr, pp, stopped) then s[0]
    else
      assert forall p <- s :: p == s[0] || p in s[1..];
      First(rs, s[1..], curr, pp, stopped)
  }

  /** The most recent job that is neither pcurrent nor pp, a stopped one if there is one. */
  function GetCurr(rs: Records, curr: Process?, pp: Process): Process? {
    var np := First(rs, rs.procs, curr, pp, true);
    if np != null then np else First(rs, rs.procs, curr, pp, false)
  }

  /** What pgetcurr finds, in terms of jobs. */
  lemma GetCurrSound(rs: Records, curr: Process?, pp: Process)
    requires Sound(rs)
    ensures var r := GetCurr(rs, curr, pp);
            && (r != null ==> IsLeader(rs, r) && r != curr && r != pp)
            && (r == null ==> forall p <- rs.rec :: IsLeader(rs, p) ==> p == curr || p == pp)
            && (r != null && Stopped !in rs.rec[r].flags ==>
                forall p <- rs.rec :: IsLeader(rs, p) && Stopped in rs.rec[p].flags ==> p == curr || p == pp)
  {
    hide Led, Rings, Indexed, Named;
    var r := GetCurr(rs, curr, pp);
    forall p <- rs.rec
      ensures IsLeader(rs, p) && p != curr && p != pp <==> Candidate(rs, p, curr, pp, false)
    {
      if Live(rs, p) {
        LeaderByPid(rs, p);
      }
    }
    assert forall p <- rs.rec :: Candidate(rs, p, curr, pp, true) <==>
      Candidate(rs, p, curr, pp, false) && Stopped in rs.rec[p].flags;
  }

  function ClrCurr(t: Table, pp: Process): (r: Table)
    ensures r.rs == t.rs
  {
    if pp == t.curr then
      var curr := if t.prev != null then t.prev else GetCurr(t.rs, t.curr, pp);
      t.(curr := curr, prev := GetCurr(t.rs, curr, pp))
    else if pp == t.prev then t.(prev := GetCurr(t.rs, t.curr, pp))
    else t
  }

  /** Taking pp out of the current and previous job leaves two others there as long as there are any, and
      a stopped job is never left out for a running one. */
  lemma ClrCurrSound(t: Table, pp: Process)
    requires Sound(t.rs) && Current(t)
    ensures var r := ClrCurr(t, pp);
            && r == t.(curr := r.curr, prev := r.prev) && Current(r) && r.curr != pp && r.prev != pp
            && (pp == t.curr || pp == t.prev ==>
                && (r.prev == null ==> forall p <- t.rs.rec :: IsLeader(t.rs, p) ==> p == pp || p == r.curr)
                && (r.prev != null && Stopped !in t.rs.rec[r.prev].flags ==>
                    forall p <- t.rs.rec :: IsLeader(t.rs, p) && Stopped in t.rs.rec[p].flags ==> p == pp || p == r.curr))
  {
    hide GetCurr, Listed, Led, Rings, Indexed, Named;
    var r := ClrCurr(t, pp);
    GetCurrSound(t.rs, t.curr, pp);
    GetCurrSound(t.rs, r.curr, pp);
  }

  // ---------------------------------------------------------------- flushing a job

  function Zeroed(r: Rec): Rec {
    r.(index := 0, pid := 0, flags := r.flags - {NeedNote})
  }

  /** The records of a job are given up. */
  function Zero(rs: Records, l: Process): Records {
    rs.(rec := map p <- rs.rec :: if rs.rec[p].lead == l then Zeroed(rs.rec[p]) else rs.rec[p])
  }

  /** pflush on a job given by its leader. */
  function Flush(t: Table, l: Process): (r: Table)
    requires InRange(t.rs)
    ensures InRange(r.rs) && r.rs.procs == t.rs.procs && r.rs.rec.Keys == t.rs.rec.Keys
  {
    var rs, c := Zero(t.rs, l), ClrCurr(t, l);
    Table(rs, if t.currjob == l then null else t.currjob, c.curr, c.prev, MaxIndex(rs.procs, rs.rec))
  }

  /** r differs from rec in that the job of l is given up. */
  predicate GivenUp(rec: map<Process, Rec>, l: Process, r: map<Process, Rec>) {
    && (forall p <- rec :: p in r) && (forall p <- r :: p in rec)
    && (forall p <- rec :: r[p].lead == rec[p].lead && r[p].cwd == rec[p].cwd && r[p].jobid == rec[p].jobid)
    && (forall p <- rec :: r[p].pid == if rec[p].lead == l then 0 else rec[p].pid)
    && (forall p <- rec :: r[p].index == if rec[p].lead == l then 0 else rec[p].index)
  }

  lemma ZeroRings(rec: map<Process, Rec>, l: Process, r: map<Process, Rec>, ring: map<Process, seq<Process>>)
    requires GivenUp(rec, l, r) && Led(rec) && Rings(rec, ring)
    ensures Led(r) && Rings(r, ring)
  {
  }

  lemma ZeroNamed(rec: map<Process, Rec>, l: Process, r: map<Process, Rec>)
    requires GivenUp(rec, l, r) && Led(rec) && Led(r) && Named(rec)
    ensures Named(r)
  {
  }

  lemma ZeroIndexed(rec: map<Process, Rec>, l: Process, r: map<Process, Rec>)
    requires GivenUp(rec, l, r) && Led(rec) && Led(r) && Indexed(rec)
    ensures Indexed(r)
  {
  }

  lemma ZeroIsSound(rs: Records, l: Process)
    requires Sound(rs)
    ensures Sound(Zero(rs, l))
    ensures forall p <- rs.rec :: Live(Zero(rs, l), p) <==> Live(rs, p) && rs.rec[p].lead != l
  {
    hide Led, Rings, Indexed, Named;
    var r := Zero(rs, l).rec;
    assert GivenUp(rs.rec, l, r);
    ZeroRings(rs.rec, l, r, rs.ring);
    ZeroNamed(rs.rec, l, r);
    ZeroIndexed(rs.rec, l, r);
  }

  /** Flushing a job keeps the invariant; it takes exactly that job out of the table. */
  lemma FlushKeeps(t: Table, l: Process)
    requires Inv(t) && IsLeader(t.rs, l)
    ensures Inv(Flush(t, l))
    ensures forall p <- t.rs.rec :: Live(Flush(t, l).rs, p) <==> Live(t.rs, p) && t.rs.rec[p].lead != l
  {
    hide Listed, Led, Rings, Indexed, Named, MaxIndex, ClrCurr;
    ZeroIsSound(t.rs, l);
    ClrCurrSound(t, l);
  }

  // ---------------------------------------------------------------- a new process

  predicate Used(rec: map<Process, Rec>, i: nat) {
    exists p <- rec :: rec[p].index == i
  }

  /** The first index from i on that no record has; n bounds the search. */
  function FirstFree(rec: map<Process, Rec>, i: nat, n: nat): (r: nat)
    requires i <= n && !Used(rec, n)
    ensures i <= r <= n && !Used(rec, r)
    decreases n - i
  {
    if !Used(rec, i) then i else FirstFree(rec, i + 1, n)
  }

  lemma AboveMax(rs: Records)
    requires Listed(rs)
    ensures !Used(rs.rec, MaxIndex(rs.procs, rs.rec) + 1)
  {
    MaxIsMax(rs.procs, rs.rec);
  }

  /** The next index while it is small, the lowest free one after that. */
  function NewIndex(rs: Records): (i: nat)
    requires Listed(rs)
    ensures i > 0 && !Used(rs.rec, i)
  {
    var max := MaxIndex(rs.procs, rs.rec);
    AboveMax(rs);
    if max < BIGINDEX then max + 1 else FirstFree(rs.rec, 1, max + 1)
  }

  /** The record p in front of the list, at the end of its job's ring. */
  function Add(rs: Records, p: Process, r: Rec): Records {
    Records([p] + rs.procs, rs.rec[p := r], rs.ring[r.lead := (if r.lead in rs.ring then rs.ring[r.lead] else []) + [p]])
  }

  /** palloc: a process of the current job, or the leader of a new one. */
  function Alloc(t: Table, p: Process, pid: int, flags: set<Flag>, cwd: Directory): Table
    requires Inv(t)
  {
    if t.currjob != null then
      var j: Process := t.currjob;
      t.(rs := Add(t.rs, p, Rec(j, null, flags, 0, t.rs.rec[j].index, pid, t.rs.rec[j].pid)))
    else
      var i := NewIndex(t.rs);
      Table(Add(t.rs, p, Rec(p, cwd, flags, 0, i, pid, pid)), p,
            if t.curr == null then p else t.curr,
            if t.curr != null && t.prev == null then p else t.prev,
            if i > t.maxindex then i else t.maxindex)
  }

  /** A new record that may join: no one has its pid, and it leads a job of its own under a new index or
      carries the marks of the job it joins. */
  predicate Fits(rec: map<Process, Rec>, p: Process, r: Rec) {
    && p !in rec && r.pid != 0 && (forall q <- rec :: rec[q].pid != r.pid)
    && if r.lead == p then r.jobid == r.pid && r.cwd != null && r.index > 0 && !Used(rec, r.index)
       else && r.lead in rec && rec[r.lead].lead == r.lead && rec[r.lead].pid != 0 && r.jobid == rec[r.lead].pid
            && r.cwd == null && r.index == rec[r.lead].index
  }

  lemma AddListed(rs: Records, p: Process, r: Rec)
    requires Listed(rs) && p !in rs.rec
    ensures Listed(Add(rs, p, r))
  {
    var a := Add(rs, p, r);
    assert p !in rs.procs && a.procs[1..] == rs.procs;
  }

  lemma AddLed(rec: map<Process, Rec>, p: Process, r: Rec)
    requires Led(rec) && Fits(rec, p, r)
    ensures Led(rec[p := r])
  {
  }

  lemma AddRings(rs: Records, p: Process, r: Rec)
    requires Led(rs.rec) && Rings(rs.rec, rs.ring) && Fits(rs.rec, p, r)
    ensures Rings(Add(rs, p, r).rec, Add(rs, p, r).ring)
  {
    var a := Add(rs, p, r);
    assert p !in rs.ring;
    assert forall l <- rs.ring :: p !in rs.ring[l];
  }

  lemma AddIndexed(rec: map<Process, Rec>, p: Process, r: Rec)
    requires Led(rec) && Indexed(rec) && Fits(rec, p, r) && Led(rec[p := r])
    ensures Indexed(rec[p := r])
  {
  }

  lemma AddNamed(rec: map<Process, Rec>, p: Process, r: Rec)
    requires Led(rec) && Named(rec) && Fits(rec, p, r) && Led(rec[p := r])
    ensures Named(rec[p := r])
  {
  }

  lemma AddIsSound(rs: Records, p: Process, r: Rec)
    requires Sound(rs) && Fits(rs.rec, p, r)
    ensures Sound(Add(rs, p, r)) && p in Add(rs, p, r).rec && Add(rs, p, r).rec[p] == r
    ensures forall q <- rs.rec :: IsLeader(rs, q) == IsLeader(Add(rs, p, r), q)
  {
    hide Listed, Led, Rings, Indexed, Named;
    AddListed(rs, p, r);
    AddLed(rs.rec, p, r);
    AddRings(rs, p, r);
    AddIndexed(rs.rec, p, r);
    AddNamed(rs.rec, p, r);
  }

  /** A fork keeps the invariant when no live record has the new pid. */
  lemma AllocKeeps(t: Table, p: Process, pid: int, flags: set<Flag>, cwd: Directory)
    requires Inv(t) && p !in t.rs.rec && pid != 0 && forall q <- t.rs.rec :: t.rs.rec[q].pid != pid
    ensures Inv(Alloc(t, p, pid, flags, cwd))
  {
    hide Led, Rings, Indexed, Named, NewIndex, MaxIndex, Add, Used;
    JobHasIndex(t);
    if t.currjob != null {
      var r := Rec(t.currjob, null, flags, 0, t.rs.rec[t.currjob].index, pid, t.rs.rec[t.currjob].pid);
      AddIsSound(t.rs, p, r);
      AddMax(t.rs, p, r);
    } else {
      var r := Rec(p, cwd, flags, 0, NewIndex(t.rs), pid, pid);
      AddIsSound(t.rs, p, r);
      AddMax(t.rs, p, r);
    }
  }

  lemma AddMax(rs: Records, p: Process, r: Rec)
    requires Listed(rs) && p !in rs.rec && Listed(Add(rs, p, r))
    ensures var m, a := MaxIndex(rs.procs, rs.rec), Add(rs, p, r);
            MaxIndex(a.procs, a.rec) == if r.index > m then r.index else m
  {
    var a := Add(rs, p, r);
    assert a.procs[1..] == rs.procs;
    SameMax(rs.procs, rs.rec, p, r);
  }

  lemma {:induction false} SameMax(s: seq<Process>, rec: map<Process, Rec>, p: Process, r: Rec)
    requires (forall q <- s :: q in rec) && p !in s
    ensures MaxIndex(s, rec[p := r]) == MaxIndex(s, rec)
  {
    if s != [] {
      SameMax(s[1..], rec, p, r);
    }
  }

  lemma JobHasIndex(t: Table)
    requires Inv(t)
    ensures t.currjob != null ==> 0 < t.rs.rec[t.currjob].index <= t.maxindex
  {
    MaxIsMax(t.rs.procs, t.rs.rec);
  }

  // ---------------------------------------------------------------- news of a child

  /** r differs from rec in flags and reasons only. */
  predicate SameButFlags(rec: map<Process, Rec>, r: map<Process, Rec>) {
    && (forall p <- rec :: p in r) && (forall p <- r :: p in rec)
    && (forall p <- rec :: r[p].lead == rec[p].lead && r[p].cwd == rec[p].cwd && r[p].jobid == rec[p].jobid)
    && (forall p <- rec :: r[p].pid == rec[p].pid && r[p].index == rec[p].index)
  }

  lemma {:induction false} SameIndexes(s: seq<Process>, rec: map<Process, Rec>, r: map<Process, Rec>)
    requires (forall p <- s :: p in rec) && SameButFlags(rec, r)
    ensures MaxIndex(s, r) == MaxIndex(s, rec) && Held(s, r) == Held(s, rec)
  {
    if s != [] {
      SameIndexes(s[1..], rec, r);
    }
  }

  lemma FlagsKeepRings(rec: map<Process, Rec>, r: map<Process, Rec>, ring: map<Process, seq<Process>>)
    requires SameButFlags(rec, r) && Led(rec) && Rings(rec, ring)
    ensures Led(r) && Rings(r, ring)
  {
  }

  lemma FlagsKeepIndexes(rec: map<Process, Rec>, r: map<Process, Rec>)
    requires SameButFlags(rec, r) && Led(rec) && Led(r) && Indexed(rec)
    ensures Indexed(r)
  {
  }

  lemma FlagsKeepNames(rec: map<Process, Rec>, r: map<Process, Rec>)
    requires SameButFlags(rec, r) && Led(rec) && Led(r) && Named(rec)
    ensures Named(r)
  {
  }

  lemma FlagsKeep(t: Table, r: map<Process, Rec>)
    requires Inv(t) && SameButFlags(t.rs.rec, r) && Reportable(r)
    ensures Inv(t.(rs := t.rs.(rec := r)))
  {
    hide Led, Rings, Indexed, Named, MaxIndex, Reportable;
    FlagsKeepRings(t.rs.rec, r, t.rs.ring);
    FlagsKeepIndexes(t.rs.rec, r);
    FlagsKeepNames(t.rs.rec, r);
    SameIndexes(t.rs.procs, t.rs.rec, r);
  }

  /** The first record of the list with this pid. */
  function ByPid(s: seq<Process>, rec: map<Process, Rec>, pid: int): (p: Process?)
    requires forall q <- s :: q in rec
    ensures p != null ==> p in s && rec[p].pid == pid
    ensures p == null ==> forall q <- s :: rec[q].pid != pid
  {
    if s == [] then null
    else if rec[s[0]].pid == pid then s[0]
    else
      assert forall q <- s :: q == s[0] || q in s[1..];
      ByPid(s[1..], rec, pid)
  }

  function AfterWait(r: Rec, st: Status): Rec {
    var f := r.flags - {Running, Stopped, Reported};
    match st
    case StoppedBy(sig) => r.(flags := f + {Stopped}, reason := sig)
    case KilledBy(sig, core) =>
      r.(flags := f + {if sig == SIGINT then Interrupted else Signaled} + (if core then {Dumped} else {}), reason := sig)
    case Exited(code) => r.(flags := f + {if code != 0 then AExited else NExited}, reason := code)
  }

  /** The flags of all processes of a job together. */
  function JobFlags(rec: map<Process, Rec>, l: Process): set<Flag> {
    set p <- rec, f <- rec[p].flags | rec[p].lead == l :: f
  }

  function ReportOne(r: Rec): Rec {
    if Stopped in r.flags then r.(flags := r.flags + {Reported}) else r
  }

  /** Stopped processes of the job count as reported. */
  function Report(rec: map<Process, Rec>, l: Process): map<Process, Rec> {
    map p <- rec :: if rec[p].lead == l then ReportOne(rec[p]) else rec[p]
  }

  function MakeCurrent(t: Table, l: Process): Table {
    t.(prev := if t.curr != null && t.curr != l then t.curr else t.prev, curr := l)
  }

  function With(t: Table, rec: map<Process, Rec>): Table {
    t.(rs := t.rs.(rec := rec))
  }

  /** The records right after wait3 told of p, and once p no longer counts as in the foreground. */
  function News(rec: map<Process, Rec>, p: Process, st: Status): map<Process, Rec>
    requires p in rec
  {
    rec[p := AfterWait(rec[p], st)]
  }

  function Heard(rec: map<Process, Rec>, p: Process, st: Status): map<Process, Rec>
    requires p in rec
  {
    var r := AfterWait(rec[p], st);
    rec[p := r.(flags := r.flags - {Foregnd})]
  }

  /** What becomes of a job none of whose processes runs: it is current if it stopped, and otherwise no
      longer current or previous. */
  function Settled(t: Table, l: Process, jobflags: set<Flag>): (r: Table)
    requires l in t.rs.rec
    ensures r.rs.procs == t.rs.procs && r.rs.rec.Keys == t.rs.rec.Keys
  {
    var t := With(t, Report(t.rs.rec, l));
    if Stopped in jobflags then MakeCurrent(t, l) else ClrCurr(t, l)
  }

  /** In the background the user hears of it at once, and then a finished job is flushed, or later. */
  function Told(t: Table, l: Process, jobflags: set<Flag>, notify: bool): Table
    requires InRange(t.rs) && l in t.rs.rec
  {
    if Foregnd in jobflags then t
    else if Notify in jobflags || notify then if Stopped in jobflags then t else Flush(t, l)
    else With(t, t.rs.rec[l := t.rs.rec[l].(flags := t.rs.rec[l].flags + {NeedNote})])
  }

  /** pchild for one child; `notify` tells whether the variable of that name is set. */
  function Child(t: Table, pid: int, st: Status, notify: bool): Table
    requires Inv(t)
  {
    var p := ByPid(t.rs.procs, t.rs.rec, pid);
    if p == null then t
    else
      var l := t.rs.rec[p].lead;
      var jobflags := JobFlags(News(t.rs.rec, p, st), l);
      var t1 := With(t, Heard(t.rs.rec, p, st));
      if Running in jobflags || Reported in jobflags then t1
      else
        Told(Settled(t1, l, jobflags), l, jobflags, notify)
  }

  lemma HeardKeeps(t: Table, p: Process, st: Status)
    requires Inv(t) && Live(t.rs, p)
    ensures Inv(With(t, Heard(t.rs.rec, p, st)))
  {
    hide Led, Rings, Indexed, Named, MaxIndex, Current;
    FlagsKeep(t, Heard(t.rs.rec, p, st));
  }

  lemma SettledKeeps(t: Table, l: Process, jobflags: set<Flag>)
    requires Inv(t) && IsLeader(t.rs, l)
    ensures Inv(Settled(t, l, jobflags)) && IsLeader(Settled(t, l, jobflags).rs, l)
  {
    hide Led, Rings, Indexed, Named, MaxIndex, ClrCurr;
    FlagsKeep(t, Report(t.rs.rec, l));
    var t1 := With(t, Report(t.rs.rec, l));
    assert IsLeader(t1.rs, l);
    ClrCurrSound(t1, l);
    assert Current(MakeCurrent(t1, l));
  }

  lemma ToldKeeps(t: Table, l: Process, jobflags: set<Flag>, notify: bool)
    requires Inv(t) && IsLeader(t.rs, l)
    ensures Inv(Told(t, l, jobflags, notify))
  {
    hide Led, Rings, Indexed, Named, MaxIndex, Current, Flush;
    FlushKeeps(t, l);
    FlagsKeep(t, t.rs.rec[l := t.rs.rec[l].(flags := t.rs.rec[l].flags + {NeedNote})]);
  }

  /** News of a child keep the invariant. */
  lemma ChildKeeps(t: Table, pid: int, st: Status, notify: bool)
    requires Inv(t) && pid != 0
    ensures Inv(Child(t, pid, st, notify))
  {
    hide Led, Rings, Indexed, Named, MaxIndex, Current, Settled, Told, Heard;
    var p := ByPid(t.rs.procs, t.rs.rec, pid);
    if p != null {
      LeaderLives(t, p);
      HeardKeeps(t, p, st);
      var l, t1 := t.rs.rec[p].lead, With(t, Heard(t.rs.rec, p, st));
      var jobflags := JobFlags(News(t.rs.rec, p, st), l);
      HeardLeads(t.rs.rec, p, st, l);
      SettledKeeps(t1, l, jobflags);
      ToldKeeps(Settled(t1, l, jobflags), l, jobflags, notify);
    }
  }

  lemma LeaderLives(t: Table, p: Process)
    requires Inv(t) && Live(t.rs, p)
    ensures IsLeader(t.rs, t.rs.rec[p].lead)
  {
  }

  lemma HeardLeads(rec: map<Process, Rec>, p: Process, st: Status, l: Process)
    requires p in rec && l in rec && rec[l].pid != 0 && rec[l].lead == l
    ensures var r := Heard(rec, p, st); l in r && r[l].pid != 0 && r[l].lead == l
  {
  }

  /** When the last process that ran has stopped, the job is the current one, and the one that was current
      is the previous one. */
  lemma StoppedIsCurrent(t: Table, p: Process, sig: int, notify: bool)
    requires Inv(t) && Live(t.rs, p)
    requires forall q <- t.rs.rec :: q != p && t.rs.rec[q].lead == t.rs.rec[p].lead ==>
                                       Running !in t.rs.rec[q].flags && Reported !in t.rs.rec[q].flags
    ensures var l, r := t.rs.rec[p].lead, Child(t, t.rs.rec[p].pid, StoppedBy(sig), notify);
            r.curr == l && (t.curr != null && t.curr != l ==> r.prev == t.curr) && IsLeader(r.rs, l)
  {
    hide Led, Rings, Indexed, Named, Reportable, MaxIndex, Current, JobFlags, Heard;
    var st := StoppedBy(sig);
    LeaderLives(t, p);
    FoundByPid(t, p);
    StoppedFlags(t.rs.rec, p, sig);
    HeardLeads(t.rs.rec, p, st, t.rs.rec[p].lead);
  }

  lemma StoppedFlags(rec: map<Process, Rec>, p: Process, sig: int)
    requires p in rec
    requires forall q <- rec :: q != p && rec[q].lead == rec[p].lead ==> Running !in rec[q].flags && Reported !in rec[q].flags
    ensures var jobflags := JobFlags(News(rec, p, StoppedBy(sig)), rec[p].lead);
            Stopped in jobflags && Running !in jobflags && Reported !in jobflags
    ensures var r := Heard(rec, p, StoppedBy(sig)); r.Keys == rec.Keys && forall q <- rec :: r[q].lead == rec[q].lead
  {
    assert Stopped in News(rec, p, StoppedBy(sig))[p].flags;
  }

  lemma FoundByPid(t: Table, p: Process)
    requires Inv(t) && Live(t.rs, p)
    ensures ByPid(t.rs.procs, t.rs.rec, t.rs.rec[p].pid) == p
  {
  }

  /** When the last process of a job has ended, the job is neither current nor previous; in the background,
      with notification on, it is off the table. */
  lemma EndedIsGone(t: Table, p: Process, st: Status, notify: bool)
    requires Inv(t) && Live(t.rs, p) && !st.StoppedBy?
    requires forall q <- t.rs.rec :: q != p && t.rs.rec[q].lead == t.rs.rec[p].lead ==>
                                       t.rs.rec[q].flags !! {Running, Stopped, Reported, Foregnd}
    ensures var l, r := t.rs.rec[p].lead, Child(t, t.rs.rec[p].pid, st, notify);
            && r.curr != l && r.prev != l
            && (notify && Foregnd !in t.rs.rec[p].flags ==> !Live(r.rs, p) && r.currjob != l)
  {
    hide Led, Rings, Indexed, Named, Reportable, MaxIndex, Current, JobFlags, Heard, Report, ClrCurr;
    LeaderLives(t, p);
    FoundByPid(t, p);
    HeardKeeps(t, p, st);
    var l, t1 := t.rs.rec[p].lead, With(t, Heard(t.rs.rec, p, st));
    var jobflags := JobFlags(News(t.rs.rec, p, st), l);
    LastFlags(t.rs.rec, p, st);
    HeardLeads(t.rs.rec, p, st, l);
    SettledKeeps(t1, l, jobflags);
    FlagsKeepAll(t1, l);
    ClrCurrSound(With(t1, Report(t1.rs.rec, l)), l);
    FlushKeeps(Settled(t1, l, jobflags), l);
    FlushClears(Settled(t1, l, jobflags), l);
  }

  lemma FlushClears(t: Table, l: Process)
    requires Inv(t) && t.curr != l && t.prev != l
    ensures Flush(t, l).curr == t.curr && Flush(t, l).prev == t.prev && Flush(t, l).currjob != l
  {
  }

  lemma FlagsKeepAll(t: Table, l: Process)
    requires Inv(t)
    ensures Inv(With(t, Report(t.rs.rec, l))) && Report(t.rs.rec, l).Keys == t.rs.rec.Keys
    ensures forall p <- t.rs.rec :: Report(t.rs.rec, l)[p].lead == t.rs.rec[p].lead
  {
    hide Led, Rings, Indexed, Named, MaxIndex, Current;
    FlagsKeep(t, Report(t.rs.rec, l));
  }

  lemma LastFlags(rec: map<Process, Rec>, p: Process, st: Status)
    requires p in rec && !st.StoppedBy?
    requires forall q <- rec :: q != p && rec[q].lead == rec[p].lead ==> rec[q].flags !! {Running, Stopped, Reported, Foregnd}
    ensures var jobflags := JobFlags(News(rec, p, st), rec[p].lead);
            && jobflags !! {Running, Stopped, Reported} && (Foregnd in jobflags ==> Foregnd in rec[p].flags)
    ensures p in Heard(rec, p, st) && Heard(rec, p, st)[p].lead == rec[p].lead
  {
  }

  // ---------------------------------------------------------------- the other steps

  function StartOne(r: Rec, foregnd: bool): Rec {
    if r.flags !! {Running, Stopped} then r
    else r.(flags := if foregnd then r.flags + {Running} - {Stopped} + {Foregnd} else r.flags + {Running} - {Stopped} - {Foregnd})
  }

  function Restart(rec: map<Process, Rec>, l: Process, foregnd: bool): map<Process, Rec> {
    map p <- rec :: if rec[p].lead == l then StartOne(rec[p], foregnd) else rec[p]
  }

  /** pstart: a job goes on, in the foreground or in the background; then it is not current any more. */
  function Start(t: Table, l: Process, foregnd: bool): Table {
    var t := With(t, Restart(t.rs.rec, l, foregnd));
    if foregnd then t else ClrCurr(t, l)
  }

  lemma StartKeeps(t: Table, l: Process, foregnd: bool)
    requires Inv(t)
    ensures Inv(Start(t, l, foregnd))
  {
    hide Led, Rings, Indexed, Named, MaxIndex, Current, ClrCurr;
    var r := Restart(t.rs.rec, l, foregnd);
    FlagsKeep(t, r);
    ClrCurrSound(With(t, r), l);
  }

  function Alive(s: seq<Process>, rec: map<Process, Rec>): (r: seq<Process>)
    requires forall p <- s :: p in rec
    ensures forall p <- r :: p in s && rec[p].pid != 0
    ensures forall p <- s :: rec[p].pid != 0 ==> p in r
  {
    if s == [] then []
    else
      assert forall p <- s :: p == s[0] || p in s[1..];
      (if rec[s[0]].pid != 0 then [s[0]] else []) + Alive(s[1..], rec)
  }

  /** The start of pwait: flushed records leave the list and are freed. */
  function Reap(t: Table): Table
    requires Listed(t.rs)
  {
    t.(rs := Records(Alive(t.rs.procs, t.rs.rec), map p <- t.rs.rec | t.rs.rec[p].pid != 0 :: t.rs.rec[p],
                     map l <- t.rs.ring | l in t.rs.rec && t.rs.rec[l].pid != 0 :: t.rs.ring[l]))
  }

  lemma {:induction false} AliveDistinct(s: seq<Process>, rec: map<Process, Rec>)
    requires (forall p <- s :: p in rec) && Distinct(s)
    ensures Distinct(Alive(s, rec))
  {
    if s != [] {
      AliveDistinct(s[1..], rec);
      assert s[0] !in s[1..];
    }
  }

  lemma {:induction false} AliveMax(s: seq<Process>, rec: map<Process, Rec>, r: map<Process, Rec>)
    requires (forall p <- s :: p in rec && (rec[p].pid == 0 ==> rec[p].index == 0))
    requires forall p <- s :: rec[p].pid != 0 ==> p in r && r[p] == rec[p]
    ensures MaxIndex(Alive(s, rec), r) == MaxIndex(s, rec)
  {
    if s != [] {
      AliveMax(s[1..], rec, r);
      if rec[s[0]].pid != 0 {
        assert Alive(s, rec)[1..] == Alive(s[1..], rec);
      } else {
        assert Alive(s, rec) == Alive(s[1..], rec);
      }
    }
  }

  /** r is what remains of rec. */
  predicate Remains(rec: map<Process, Rec>, r: map<Process, Rec>) {
    && (forall p <- r :: p in rec && rec[p].pid != 0 && r[p] == rec[p])
    && (forall p <- rec :: rec[p].pid != 0 ==> p in r)
  }

  lemma ReapRecords(rec: map<Process, Rec>, r: map<Process, Rec>)
    requires Remains(rec, r) && Led(rec) && Indexed(rec) && Named(rec)
    ensures Led(r) && Indexed(r) && Named(r)
  {
  }

  /** What makes a job die as a whole. */
  predicate Together(rec: map<Process, Rec>) {
    && Led(rec)
    && (forall p <- rec :: rec[p].pid == 0 <==> rec[rec[p].lead].pid == 0)
    && (forall p <- rec :: rec[p].pid == 0 ==> rec[p].index == 0)
  }

  /** g is what remains of the rings. */
  predicate RingsRemain(r: map<Process, Rec>, ring: map<Process, seq<Process>>, g: map<Process, seq<Process>>) {
    && (forall l <- g :: l in ring && g[l] == ring[l] && l in r)
    && (forall l <- ring :: l in r ==> l in g)
  }

  lemma ReapCovered(rec: map<Process, Rec>, r: map<Process, Rec>, ring: map<Process, seq<Process>>, g: map<Process, seq<Process>>)
    requires Remains(rec, r) && Rings(rec, ring) && Together(rec) && RingsRemain(r, ring, g)
    ensures Covered(r, g)
  {
    hide Owned, Shaped;
    forall p <- r ensures r[p].lead in g && p in g[r[p].lead] {
      assert rec[p].lead in ring && rec[rec[p].lead].pid != 0;
    }
  }

  lemma ReapOnly(rec: map<Process, Rec>, r: map<Process, Rec>, ring: map<Process, seq<Process>>, g: map<Process, seq<Process>>)
    requires Remains(rec, r) && Rings(rec, ring) && Together(rec) && RingsRemain(r, ring, g)
    ensures Owned(r, g)
  {
    hide Covered, Shaped;
    forall l <- g, p <- g[l] ensures p in r && r[p].lead == l {
      assert p in ring[l] && rec[p].lead == l && rec[l].pid != 0;
    }
  }

  lemma ReapRings(rec: map<Process, Rec>, r: map<Process, Rec>, ring: map<Process, seq<Process>>, g: map<Process, seq<Process>>)
    requires Remains(rec, r) && Rings(rec, ring) && Together(rec) && RingsRemain(r, ring, g)
    ensures Rings(r, g)
  {
    hide Together, Remains, Covered, Owned;
    ReapCovered(rec, r, ring, g);
    ReapOnly(rec, r, ring, g);
    assert Shaped(g);
  }

  lemma ReapListed(s: seq<Process>, rec: map<Process, Rec>, r: Records)
    requires Distinct(s) && (forall p <- s :: p in rec) && (forall p <- rec :: p in s)
    requires r.procs == Alive(s, rec) && Remains(rec, r.rec)
    ensures Listed(r)
  {
    AliveDistinct(s, rec);
  }

  /** Reaping keeps the invariant, and all live records. */
  lemma ReapKeeps(t: Table)
    requires Inv(t)
    ensures Inv(Reap(t))
    ensures Remains(t.rs.rec, Reap(t).rs.rec)
  {
    hide Led, Rings, Indexed, Named, MaxIndex, Alive, Together;
    var r := Reap(t);
    var rec := r.rs.rec;
    assert Remains(t.rs.rec, rec);
    ReapRecords(t.rs.rec, rec);
    JobsTogether(t.rs);
    assert RingsRemain(rec, t.rs.ring, r.rs.ring);
    ReapRings(t.rs.rec, rec, t.rs.ring, r.rs.ring);
    ReapListed(t.rs.procs, t.rs.rec, r.rs);
    ReapMax(t.rs.procs, t.rs.rec, rec);
  }

  lemma ReapMax(s: seq<Process>, rec: map<Process, Rec>, r: map<Process, Rec>)
    requires (forall p <- s :: p in rec) && Together(rec) && Remains(rec, r)
    ensures forall p <- Alive(s, rec) :: p in r
    ensures MaxIndex(Alive(s, rec), r) == MaxIndex(s, rec)
  {
    AliveMax(s, rec, r);
  }

  lemma JobsTogether(rs: Records)
    requires Sound(rs)
    ensures Together(rs.rec)
    ensures forall l <- rs.ring :: l in rs.rec
  {
    assert forall l <- rs.ring :: rs.ring[l][0] in rs.ring[l];
  }

  /** pnote at one record: its job is shown, and flushed when no process of it runs or is stopped. */
  function Note(t: Table, p: Process): (r: Table)
    requires InRange(t.rs)
    ensures InRange(r.rs) && r.rs.procs == t.rs.procs && r.rs.rec.Keys == t.rs.rec.Keys
  {
    if p !in t.rs.rec || NeedNote !in t.rs.rec[p].flags then t
    else
      var t := With(t, t.rs.rec[p := t.rs.rec[p].(flags := t.rs.rec[p].flags - {NeedNote})]);
      if JobFlags(t.rs.rec, t.rs.rec[p].lead) !! {Running, Stopped} then Flush(t, t.rs.rec[p].lead) else t
  }

  lemma NoteKeeps(t: Table, p: Process)
    requires Inv(t)
    ensures Inv(Note(t, p)) && Note(t, p).rs.procs == t.rs.procs
  {
    hide Led, Rings, Indexed, Named, MaxIndex, Current, Flush;
    if p in t.rs.rec && NeedNote in t.rs.rec[p].flags {
      var r := t.rs.rec[p := t.rs.rec[p].(flags := t.rs.rec[p].flags - {NeedNote})];
      FlagsKeep(t, r);
      LeaderLives(With(t, r), p);
      FlushKeeps(With(t, r), r[p].lead);
    }
    FlushList(t, p);
  }

  lemma FlushList(t: Table, p: Process)
    requires Listed(t.rs)
    ensures Note(t, p).rs.procs == t.rs.procs
  {
  }

  /** pnote: all records of s in turn. */
  function NoteList(t: Table, s: seq<Process>): Table
    requires InRange(t.rs)
    decreases |s|
  {
    if s == [] then t else NoteList(Note(t, s[0]), s[1..])
  }

  // ---------------------------------------------------------------- runs

  /** What happens to the table. */
  datatype Event =
    | Forked(p: Process, pid: int, flags: set<Flag>, cwd: Directory)
    | Waited(pid: int, status: Status, notify: bool)
    | JobEnded
    | Started(l: Process, foregnd: bool)
    | Flushed(l: Process)
    | Noted(p: Process)
    | Reaped

  /** Fork returns a pid that no record has; jobs are named by their leaders. */
  predicate Possible(t: Table, e: Event) {
    match e
    case Forked(p, pid, _, _) => p !in t.rs.rec && pid != 0 && forall q <- t.rs.rec :: t.rs.rec[q].pid != pid
    case Waited(pid, _, _) => pid != 0
    case Flushed(l) => IsLeader(t.rs, l)
    case _ => true
  }

  function Next(t: Table, e: Event): Table
    requires Inv(t)
  {
    match e
    case Forked(p, pid, flags, cwd) => Alloc(t, p, pid, flags, cwd)
    case Waited(pid, st, notify) => Child(t, pid, st, notify)
    case JobEnded => t.(currjob := null)
    case Started(l, foregnd) => Start(t, l, foregnd)
    case Flushed(l) => Flush(t, l)
    case Noted(p) => Note(t, p)
    case Reaped => Reap(t)
  }

  /** Each step keeps the invariant. */
  lemma NextKeeps(t: Table, e: Event)
    requires Inv(t) && Possible(t, e)
    ensures Inv(Next(t, e))
  {
    hide Led, Rings, Indexed, Named, MaxIndex, Alloc, Child, Start, Flush, Note, Reap;
    match e
    case Forked(p, pid, flags, cwd) => AllocKeeps(t, p, pid, flags, cwd);
    case Waited(pid, st, notify) => ChildKeeps(t, pid, st, notify);
    case JobEnded =>
    case Started(l, foregnd) => StartKeeps(t, l, foregnd);
    case Flushed(l) => FlushKeeps(t, l);
    case Noted(p) => NoteKeeps(t, p);
    case Reaped => ReapKeeps(t);
  }

  // ---------------------------------------------------------------- held directories

  lemma {:induction false} HeldSame(s: seq<Process>, rec: map<Process, Rec>, r: map<Process, Rec>)
    requires forall p <- s :: p in rec && p in r && r[p].cwd == rec[p].cwd
    ensures Held(s, r) == Held(s, rec)
  {
    if s != [] {
      HeldSame(s[1..], rec, r);
    }
  }

  lemma AllocHolds(t: Table, p: Process, pid: int, flags: set<Flag>, cwd: Directory)
    requires Inv(t) && Possible(t, Forked(p, pid, flags, cwd))
    ensures var h, r := Held(t.rs.procs, t.rs.rec), Alloc(t, p, pid, flags, cwd).rs;
            InRange(r) && Held(r.procs, r.rec) == if t.currjob == null then multiset{cwd} + h else h
    ensures Alloc(t, p, pid, flags, cwd).rs.rec.Keys == t.rs.rec.Keys + {p}
  {
    hide Led, Rings, Indexed, Named, Current, MaxIndex, NewIndex, Held, Add;
    if t.currjob != null {
      AddHolds(t.rs, p, Rec(t.currjob, null, flags, 0, t.rs.rec[t.currjob].index, pid, t.rs.rec[t.currjob].pid));
    } else {
      AddHolds(t.rs, p, Rec(p, cwd, flags, 0, NewIndex(t.rs), pid, pid));
    }
  }

  lemma AddHolds(rs: Records, p: Process, r: Rec)
    requires InRange(rs) && p !in rs.rec
    ensures var h, a := Held(rs.procs, rs.rec), Add(rs, p, r);
            && InRange(a) && a.rec.Keys == rs.rec.Keys + {p}
            && Held(a.procs, a.rec) == if r.cwd == null then h else multiset{r.cwd} + h
  {
    var a := Add(rs, p, r);
    assert a.procs[1..] == rs.procs;
    HeldSame(rs.procs, rs.rec, a.rec);
  }

  /** The same records hold the same directories. */
  predicate SameHeld(t: Table, r: Table) {
    && InRange(t.rs) && InRange(r.rs) && r.rs.procs == t.rs.procs && r.rs.rec.Keys == t.rs.rec.Keys
    && Held(r.rs.procs, r.rs.rec) == Held(t.rs.procs, t.rs.rec)
  }

  /** Steps that add or remove no record leave what is held as it is. */
  lemma SameHolds(t: Table, r: Table)
    requires InRange(t.rs) && r.rs.procs == t.rs.procs && t.rs.rec.Keys == r.rs.rec.Keys
    requires forall p <- t.rs.rec :: r.rs.rec[p].cwd == t.rs.rec[p].cwd
    ensures SameHeld(t, r)
  {
    HeldSame(t.rs.procs, t.rs.rec, r.rs.rec);
  }

  lemma FlushHolds(t: Table, l: Process)
    requires InRange(t.rs)
    ensures SameHeld(t, Flush(t, l))
  {
    SameHolds(t, Flush(t, l));
  }

  lemma ToldHolds(t: Table, l: Process, jobflags: set<Flag>, notify: bool)
    requires InRange(t.rs) && l in t.rs.rec
    ensures SameHeld(t, Told(t, l, jobflags, notify))
  {
    hide Held, Flush;
    FlushHolds(t, l);
    SameHolds(t, With(t, t.rs.rec[l := t.rs.rec[l].(flags := t.rs.rec[l].flags + {NeedNote})]));
  }

  lemma SettledHolds(t: Table, l: Process, jobflags: set<Flag>)
    requires InRange(t.rs) && l in t.rs.rec
    ensures SameHeld(t, Settled(t, l, jobflags)) && l in Settled(t, l, jobflags).rs.rec
  {
    hide Held, ClrCurr;
    SameHolds(t, Settled(t, l, jobflags));
  }

  lemma ChildHolds(t: Table, pid: int, st: Status, notify: bool)
    requires Inv(t) && pid != 0
    ensures SameHeld(t, Child(t, pid, st, notify))
  {
    hide Led, Rings, Indexed, Named, Reportable, Current, MaxIndex, JobFlags, Held, Settled, Told;
    var p := ByPid(t.rs.procs, t.rs.rec, pid);
    if p != null {
      LeaderLives(t, p);
      var l, t1 := t.rs.rec[p].lead, With(t, Heard(t.rs.rec, p, st));
      var jobflags := JobFlags(News(t.rs.rec, p, st), l);
      SameHolds(t, t1);
      SettledHolds(t1, l, jobflags);
      ToldHolds(Settled(t1, l, jobflags), l, jobflags, notify);
    }
  }

  lemma NoteHolds(t: Table, p: Process)
    requires InRange(t.rs)
    ensures SameHeld(t, Note(t, p))
  {
    hide JobFlags, ClrCurr, Held, MaxIndex;
    SameHolds(t, Note(t, p));
  }

  lemma StartHolds(t: Table, l: Process, foregnd: bool)
    requires InRange(t.rs)
    ensures SameHeld(t, Start(t, l, foregnd))
  {
    hide Held, ClrCurr;
    SameHolds(t, Start(t, l, foregnd));
  }

  lemma {:induction false} NoteListHolds(t: Table, s: seq<Process>)
    requires InRange(t.rs)
    ensures SameHeld(t, NoteList(t, s))
    decreases |s|
  {
    hide Held, Note;
    if s != [] {
      NoteHolds(t, s[0]);
      NoteListHolds(Note(t, s[0]), s[1..]);
    }
  }

  lemma ReapHolds(t: Table)
    requires Listed(t.rs)
    ensures var r := Reap(t).rs;
            && InRange(r) && InRange(t.rs)
            && Held(r.procs, r.rec) == Held(Alive(t.rs.procs, t.rs.rec), t.rs.rec)
  {
    var r := Reap(t).rs;
    HeldSame(r.procs, t.rs.rec, r.rec);
  }

  /** A new job holds the current directory; reaping gives up what flushed records held; nothing else changes
      what is held. */
  lemma NextHolds(t: Table, e: Event)
    requires Inv(t) && Possible(t, e)
    ensures var h, r := Held(t.rs.procs, t.rs.rec), Next(t, e).rs;
            && InRange(r)
            && Held(r.procs, r.rec) == match e
                                       case Forked(_, _, _, cwd) => if t.currjob == null then multiset{cwd} + h else h
                                       case Reaped => Held(Alive(t.rs.procs, t.rs.rec), t.rs.rec)
                                       case _ => h
  {
    hide Led, Rings, Indexed, Named, Current, MaxIndex, Alive, Held, Alloc, Child, Flush, Note;
    match e {
      case Forked(p, pid, flags, cwd) => AllocHolds(t, p, pid, flags, cwd);
      case Waited(pid, st, notify) => ChildHolds(t, pid, st, notify);
      case Flushed(l) => FlushHolds(t, l);
      case Noted(p) => NoteHolds(t, p);
      case Reaped => ReapHolds(t);
      case JobEnded => SameHolds(t, Next(t, e));
      case Started(_, _) => SameHolds(t, Next(t, e));
    }
  }

  lemma InList(rs: Records)
    requires Listed(rs)
    ensures InRange(rs)
  {
  }

  const EMPTY := Table(Records([], map[], map[]), null, null, null, 0)

  /** A run: tables from the empty one on, each by a possible event from the one before. */
  predicate IsRun(ts: seq<Table>, es: seq<Event>) {
    && |ts| == |es| + 1 && ts[0] == EMPTY
    && forall i :: 0 <= i < |es| ==> Inv(ts[i]) ==> Possible(ts[i], es[i]) && ts[i + 1] == Next(ts[i], es[i])
  }

  /** Every table of every run satisfies the invariant. */
  lemma {:induction false} RunKeeps(ts: seq<Table>, es: seq<Event>, n: nat)
    requires IsRun(ts, es) && n < |ts|
    ensures Inv(ts[n])
  {
    if n > 0 {
      RunKeeps(ts, es, n - 1);
      NextKeeps(ts[n - 1], es[n - 1]);
    }
  }
}
