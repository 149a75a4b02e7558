/** The job table as proc.c keeps it: records linked in proclist and in rings of friends, proved to follow
    the state machine of JobTable. The directories of the jobs are counted in Dirs. */
module Jobs {
  import opened Common
  import opened Dirs
  import opened JobTable

  // ---------------------------------------------------------------- records in the heap

  /** The list of s hangs off h. */
  ghost predicate Linked(h: Process, s: seq<Process>)
    reads h`next, s`next
  {
    if s == [] then h.next == null else h.next == s[0] && Linked(s[0], s[1..])
  }

  /** The records hold what rec says. */
  ghost predicate Holds(rec: map<Process, Rec>)
    reads rec.Keys`cwd, rec.Keys`flags, rec.Keys`reason, rec.Keys`index, rec.Keys`pid, rec.Keys`jobid
  {
    forall p <- rec ::
      && p.cwd == rec[p].cwd && p.flags == rec[p].flags && p.reason == rec[p].reason
      && p.index == rec[p].index && p.pid == rec[p].pid && p.jobid == rec[p].jobid
  }

  /** friends leads around s. */
  ghost predicate Circle(s: seq<Process>)
    reads s`friends
  {
    forall i :: 0 <= i < |s| ==> s[i].friends == s[if i + 1 < |s| then i + 1 else 0]
  }

  ghost predicate Circles(rec: map<Process, Rec>, ring: map<Process, seq<Process>>)
    reads rec.Keys`friends
  {
    forall l <- ring :: (forall p <- ring[l] :: p in rec) && Circle(ring[l])
  }

  /** The heap is what rs says. */
  ghost predicate Mirror(h: Process, rs: Records)
    reads h`next, rs.procs`next, rs.rec.Keys`cwd, rs.rec.Keys`flags, rs.rec.Keys`reason
    reads rs.rec.Keys`index, rs.rec.Keys`pid, rs.rec.Keys`jobid, rs.rec.Keys`friends
  {
    && h !in rs.rec && InRange(rs)
    && Linked(h, rs.procs) && Holds(rs.rec) && Circles(rs.rec, rs.ring)
  }

  lemma Circling(h: Process, rs: Records)
    requires Mirror(h, rs)
    ensures Circles(rs.rec, rs.ring)
  {
  }

  lemma SameCircles(rec: map<Process, Rec>, r: map<Process, Rec>, ring: map<Process, seq<Process>>)
    requires Circles(rec, ring) && r.Keys == rec.Keys
    ensures Circles(r, ring)
  {
  }

  lemma Seen(h: Process, rs: Records, p: Process)
    requires Mirror(h, rs) && p in rs.rec
    ensures p.cwd == rs.rec[p].cwd && p.flags == rs.rec[p].flags && p.reason == rs.rec[p].reason
    ensures p.index == rs.rec[p].index && p.pid == rs.rec[p].pid && p.jobid == rs.rec[p].jobid
  {
  }

  /** A ring read from its k-th record on. */
  function Turned(s: seq<Process>, k: nat): (w: seq<Process>)
    requires k < |s|
    ensures |w| == |s| && w[0] == s[k]
  {
    s[k..] + s[..k]
  }

  lemma TurnCircle(s: seq<Process>, k: nat)
    requires k < |s| && Distinct(s)
    ensures Circle(s) ==> Circle(Turned(s, k))
    ensures Distinct(Turned(s, k))
    ensures forall p :: p in s <==> p in Turned(s, k)
  {
    var w := Turned(s, k);
    assert forall i :: 0 <= i < |w| ==> w[i] == s[if i < |s| - k then i + k else i - (|s| - k)];
    assert s == s[..k] + s[k..];
  }

  class JobList {
    const proclist: Process
    var pcurrjob: Process?
    var pcurrent: Process?
    var pprevious: Process?
    var pmaxindex: nat
    const dirs: Dirs
    /** The records of the list. */
    ghost var rs: Records

    ghost function State(): Table
      reads this`rs, this`pcurrjob, this`pcurrent, this`pprevious, this`pmaxindex
    {
      Table(rs, pcurrjob, pcurrent, pprevious, pmaxindex)
    }

    ghost predicate Ready()
      reads this`rs, this`pcurrjob, this`pcurrent, this`pprevious, this`pmaxindex
      reads proclist`next, rs.procs`next, rs.rec.Keys`cwd, rs.rec.Keys`flags, rs.rec.Keys`reason
      reads rs.rec.Keys`index, rs.rec.Keys`pid, rs.rec.Keys`jobid, rs.rec.Keys`friends
    {
      Mirror(proclist, rs) && Inv(State())
    }

    /** The directories count what the records hold. */
    ghost predicate Counts()
      reads this`rs, dirs`dhead, dirs`dcwd, dirs`loop, dirs`refs, dirs`freed
      reads dirs.loop`next, dirs.loop`prev, dirs.loop`count
      reads dirs.refs`next, dirs.refs`prev, dirs.refs`count
    {
      dirs.Valid() && InRange(rs) && dirs.refs == Held(rs.procs, rs.rec)
    }

    constructor (dirs: Dirs)
      requires dirs.Valid() && dirs.refs == multiset{}
      ensures Ready() && Counts() && State() == EMPTY && this.dirs == dirs && fresh(proclist)
    {
      this.dirs := dirs;
      var head := new Process();
      proclist := head;
      pcurrjob, pcurrent, pprevious, pmaxindex := null, null, null, 0;
      rs := Records([], map[], map[]);
    }

    /** pgetcurr */
    method Pgetcurr(pp: Process) returns (r: Process?)
      requires Mirror(proclist, rs)
      ensures r == GetCurr(rs, pcurrent, pp)
    {
      var np, xp: Process? := proclist.next, null;
      ghost var s := rs.procs;
      while np != null
        invariant (forall p <- s :: p in rs.rec.Keys) && (if s == [] then np == null else np == s[0] && Linked(s[0], s[1..]))
        invariant JobTable.First(rs, rs.procs, pcurrent, pp, true) == JobTable.First(rs, s, pcurrent, pp, true)
        invariant JobTable.First(rs, rs.procs, pcurrent, pp, false)
               == if xp != null then xp else JobTable.First(rs, s, pcurrent, pp, false)
        decreases |s|
      {
        FirstStep(rs, s, pcurrent, pp);
        assert np.pid == rs.rec[np].pid && np.jobid == rs.rec[np].jobid && np.flags == rs.rec[np].flags;
        if np != pcurrent && np != pp && np.pid != 0 && np.pid == np.jobid {
          if Stopped in np.flags {
            return np;
          }
          if xp == null {
            xp := np;
          }
        }
        np, s := np.next, s[1..];
      }
      return xp;
    }

    /** pclrcurr; pp is a job leader. */
    method Pclrcurr(pp: Process)
      requires Mirror(proclist, rs)
      modifies this`pcurrent, this`pprevious
      ensures State() == ClrCurr(old(State()), pp)
    {
      hide GetCurr, Mirror;
      if pp == pcurrent {
        if pprevious != null {
          pcurrent := pprevious;
          pprevious := Pgetcurr(pp);
        } else {
          assert allocated(rs.procs) && allocated(rs.rec.Keys);
          pcurrent := Pgetcurr(pp);
          pprevious := Pgetcurr(pp);
        }
      } else if pp == pprevious {
        pprevious := Pgetcurr(pp);
      }
    }

    /** From any process of a live job to its leader, along the ring. */
    method ToLeader(pp: Process) returns (l: Process)
      requires Mirror(proclist, rs) && Sound(rs) && Live(rs, pp)
      ensures l == rs.rec[pp].lead
    {
      ghost var s := JobRing(pp);
      ghost var i: nat :| i < |s| && s[i] == pp;
      l := pp;
      while l.pid != l.jobid
        invariant i < |s| && l == s[i]
        decreases if i == 0 then 0 else |s| - i
      {
        LeaderByPid(rs, l);
        i := if i + 1 < |s| then i + 1 else 0;
        assert l.friends == s[i];
        l := l.friends;
      }
      LeaderByPid(rs, l);
    }

    /** The ring a live record is on. */
    lemma JobRing(pp: Process) returns (s: seq<Process>)
      requires Circles(rs.rec, rs.ring) && Sound(rs) && Live(rs, pp)
      ensures rs.rec[pp].lead in rs.ring && s == rs.ring[rs.rec[pp].lead]
      ensures pp in s && s[0] == rs.rec[pp].lead && Circle(s) && Distinct(s)
      ensures forall p <- s :: p in rs.rec && rs.rec[p].lead == s[0] && Live(rs, p)
      ensures forall p <- rs.rec :: rs.rec[p].lead == s[0] ==> p in s
    {
      s := rs.ring[rs.rec[pp].lead];
      assert rs.rec[pp].lead in rs.rec;
    }

    /** One record is given up. */
    method ZeroOne(np: Process)
      requires Holds(rs.rec) && np in rs.rec
      modifies this`rs, np`index, np`pid, np`flags
      ensures Holds(rs.rec) && rs == old(rs).(rec := old(rs.rec)[np := Zeroed(old(rs.rec)[np])])
    {
      np.index, np.pid := 0, 0;
      np.flags := np.flags - {NeedNote};
      rs := rs.(rec := rs.rec[np := Zeroed(rs.rec[np])]);
    }

    /** The loop of pflush over the ring of a job. */
    method ZeroRing(pp: Process)
      requires Mirror(proclist, rs) && Sound(rs) && IsLeader(rs, pp)
      modifies this`rs, rs.rec.Keys`index, rs.rec.Keys`pid, rs.rec.Keys`flags
      ensures Mirror(proclist, rs) && rs == Zero(old(rs), pp) && rs.procs == old(rs.procs) && rs.rec.Keys == old(rs.rec.Keys)
    {
      hide Circles, Led, Rings, Indexed, Named, Applied, Holds, Circle, Linked;
      ghost var rec := rs.rec;
      ghost var s := JobRing(pp);
      ghost var n: nat := 0;
      ApplyNone(rec, s, Zeroed);
      NextFriends(s);
      var np, again := pp, true;
      while again
        invariant n <= |s| && (again ==> n < |s| && np == s[n]) && (!again ==> n == |s|)
        invariant rs == old(rs).(rec := rs.rec) && rs.rec.Keys == rec.Keys
        invariant Applied(rec, s[..n], Zeroed, rs.rec)
        invariant Holds(rs.rec)
        decreases |s| - n
      {
        ApplyNext(rec, s, n, Zeroed, rs.rec);
        ZeroOne(np);
        assert np.friends == old(s[n].friends);
        np, n := np.friends, n + 1;
        again := np != pp;
      }
      assert s[..n] == s;
      AppliedToJob(rec, s, pp, Zeroed, rs.rec);
      SameCircles(rec, rs.rec, rs.ring);
    }

    /** The highest index on the list. */
    method Highest() returns (idx: nat)
      requires Mirror(proclist, rs)
      ensures idx == MaxIndex(rs.procs, rs.rec)
    {
      idx := 0;
      var np := proclist.next;
      ghost var s := rs.procs;
      while np != null
        invariant (forall p <- s :: p in rs.rec.Keys) && (if s == [] then np == null else np == s[0] && Linked(s[0], s[1..]))
        invariant var m := MaxIndex(s, rs.rec); MaxIndex(rs.procs, rs.rec) == if m > idx then m else idx
        decreases |s|
      {
        assert np.index == rs.rec[np].index;
        if np.index > idx {
          idx := np.index;
        }
        np, s := np.next, s[1..];
      }
    }

    /** pflush */
    method Pflush(pp: Process)
      requires Ready() && pp in rs.rec
      modifies this`rs, this`pcurrjob, this`pcurrent, this`pprevious, this`pmaxindex
      modifies rs.rec.Keys`index, rs.rec.Keys`pid, rs.rec.Keys`flags
      ensures Ready()
      ensures State() == if Live(old(rs), pp) then Flush(old(State()), old(rs.rec)[pp].lead) else old(State())
    {
      hide Mirror, Led, Rings, Indexed, Named, Reportable, Current, Listed, MaxIndex, ClrCurr, Flush;
      Seen(proclist, rs, pp);
      if pp.pid != 0 {
        LeaderLives(State(), pp);
        var l := ToLeader(pp);
        FlushKeeps(State(), l);
        FlushJob(l);
      }
    }

    /** pflush from the leader on. */
    method FlushJob(pp: Process)
      requires Mirror(proclist, rs) && Inv(State()) && IsLeader(rs, pp)
      modifies this`rs, this`pcurrjob, this`pcurrent, this`pprevious, this`pmaxindex
      modifies rs.rec.Keys`index, rs.rec.Keys`pid, rs.rec.Keys`flags
      ensures Mirror(proclist, rs) && State() == Flush(old(State()), pp)
    {
      hide Mirror, Led, Rings, Indexed, Named, Reportable, Current, Listed, MaxIndex, ClrCurr, Zero;
      ghost var t := State();
      Seen(proclist, rs, pp);
      if pp.index != pmaxindex {
        MaxStays(t, pp);
      }
      ClrCurrSound(t, pp);
      Pclrcurr(pp);
      if pp == pcurrjob {
        pcurrjob := null;
      }
      var idx := pp.index;
      assert Mirror(proclist, rs);
      ZeroRing(pp);
      Renumber(idx);
    }

    /** The end of pflush: when the highest index was given up, the next one is looked for. */
    method Renumber(idx: nat)
      requires Mirror(proclist, rs)
      modifies this`pmaxindex
      ensures Mirror(proclist, rs)
      ensures pmaxindex == if idx == old(pmaxindex) then MaxIndex(rs.procs, rs.rec) else old(pmaxindex)
    {
      if idx == pmaxindex {
        pmaxindex := Highest();
      }
    }

    /** A record gets new flags, and a new reason. */
    method SetFlags(p: Process, flags: set<Flag>, reason: int)
      requires Holds(rs.rec) && p in rs.rec
      modifies this`rs, p`flags, p`reason
      ensures Holds(rs.rec)
      ensures rs == old(rs).(rec := old(rs.rec)[p := old(rs.rec)[p].(flags := flags, reason := reason)])
    {
      p.flags, p.reason := flags, reason;
      rs := rs.(rec := rs.rec[p := rs.rec[p].(flags := flags, reason := reason)]);
    }

    /** The ring a live record is on, from that record on. */
    lemma RingFrom(pp: Process) returns (w: seq<Process>)
      requires Mirror(proclist, rs) && Sound(rs) && Live(rs, pp)
      ensures w != [] && w[0] == pp && Circle(w) && Distinct(w)
      ensures forall p <- w :: p in rs.rec && rs.rec[p].lead == rs.rec[pp].lead
      ensures forall p <- rs.rec :: p in w <==> rs.rec[p].lead == rs.rec[pp].lead
    {
      hide Mirror, Led, Rings, Indexed, Named, Circle, Distinct;
      assert Circles(rs.rec, rs.ring) by {
        Circling(proclist, rs);
      }
      var s := JobRing(pp);
      var k: nat :| k < |s| && s[k] == pp;
      TurnCircle(s, k);
      w := Turned(s, k);
    }

    /** The loop of pchild that collects the flags of a job. */
    method CollectFlags(pp: Process) returns (jobflags: set<Flag>)
      requires Mirror(proclist, rs) && Sound(rs) && Live(rs, pp)
      ensures jobflags == JobFlags(rs.rec, rs.rec[pp].lead)
    {
      hide Mirror, Led, Rings, Indexed, Named, Circle;
      ghost var w := RingFrom(pp);
      NextFriends(w);
      ghost var n: nat := 0;
      var fp, again := pp, true;
      jobflags := {};
      while again
        invariant n <= |w| && (again ==> n < |w| && fp == w[n]) && (!again ==> n == |w|)
        invariant jobflags == set i, f | 0 <= i < n && f in rs.rec[w[i]].flags :: f
        decreases |w| - n
      {
        Seen(proclist, rs, fp);
        jobflags := jobflags + fp.flags;
        fp, n := fp.friends, n + 1;
        again := fp != pp;
      }
    }

    method MarkReported(fp: Process)
      requires Holds(rs.rec) && fp in rs.rec
      modifies this`rs, fp`flags, fp`reason
      ensures Holds(rs.rec) && rs == old(rs).(rec := old(rs.rec)[fp := ReportOne(old(rs.rec)[fp])])
    {
      if Stopped in fp.flags {
        SetFlags(fp, fp.flags + {Reported}, fp.reason);
      } else {
        assert rs.rec[fp := rs.rec[fp]] == rs.rec;
      }
    }

    /** The loop of pchild that marks stopped processes of the job as reported. */
    method ReportRing(pp: Process)
      requires Mirror(proclist, rs) && Sound(rs) && Live(rs, pp)
      modifies this`rs, rs.rec.Keys`flags, rs.rec.Keys`reason
      ensures Mirror(proclist, rs) && rs == old(rs).(rec := Report(old(rs.rec), old(rs.rec)[pp].lead))
    {
      hide Led, Rings, Indexed, Named, Applied, Holds, Circle, Circles, Linked, ReportOne;
      ghost var rec := rs.rec;
      ghost var w := RingFrom(pp);
      ReportAround(pp, w);
      AppliedToJob(rec, w, rec[pp].lead, ReportOne, rs.rec);
      SameCircles(rec, rs.rec, rs.ring);
    }

    /** Once around the ring w. */
    method ReportAround(pp: Process, ghost w: seq<Process>)
      requires Holds(rs.rec) && w != [] && w[0] == pp && Circle(w) && Distinct(w) && forall p <- w :: p in rs.rec
      modifies this`rs, rs.rec.Keys`flags, rs.rec.Keys`reason
      ensures rs == old(rs).(rec := rs.rec) && rs.rec.Keys == old(rs.rec.Keys)
      ensures Applied(old(rs.rec), w, ReportOne, rs.rec) && Holds(rs.rec)
    {
      hide Applied, Holds, Circle;
      ghost var rec := rs.rec;
      NextFriends(w);
      ghost var n: nat := 0;
      ApplyNone(rec, w, ReportOne);
      var fp, again := pp, true;
      while again
        invariant n <= |w| && (again ==> n < |w| && fp == w[n]) && (!again ==> n == |w|)
        invariant rs == old(rs).(rec := rs.rec) && rs.rec.Keys == rec.Keys
        invariant Applied(rec, w[..n], ReportOne, rs.rec) && Holds(rs.rec)
        decreases |w| - n
      {
        ApplyNext(rec, w, n, ReportOne, rs.rec);
        MarkReported(fp);
        assert fp.friends == old(w[n].friends);
        fp, n := fp.friends, n + 1;
        again := fp != pp;
      }
      assert w[..n] == w;
    }

    /** One process of a job that goes on. */
    method Restarted(np: Process, foregnd: bool)
      requires Holds(rs.rec) && np in rs.rec
      modifies this`rs, np`flags, np`reason
      ensures Holds(rs.rec)
      ensures rs == old(rs).(rec := old(rs.rec)[np := StartOne(old(rs.rec)[np], foregnd)])
    {
      if Running in np.flags || Stopped in np.flags {
        var flags := np.flags + {Running} - {Stopped};
        if foregnd {
          SetFlags(np, flags + {Foregnd}, np.reason);
        } else {
          SetFlags(np, flags - {Foregnd}, np.reason);
        }
      } else {
        assert rs.rec[np := rs.rec[np]] == rs.rec;
      }
    }

    /** The loop of pstart. */
    method RestartRing(pp: Process, foregnd: bool)
      requires Mirror(proclist, rs) && Sound(rs) && IsLeader(rs, pp)
      modifies this`rs, rs.rec.Keys`flags, rs.rec.Keys`reason
      ensures Mirror(proclist, rs) && rs == old(rs).(rec := Restart(old(rs.rec), pp, foregnd))
    {
      hide Led, Rings, Indexed, Named, Applied, Holds, Circle, Circles, Linked;
      ghost var rec := rs.rec;
      ghost var w := RingFrom(pp);
      NextFriends(w);
      ghost var n: nat := 0;
      ghost var f := r => StartOne(r, foregnd);
      ApplyNone(rec, w, f);
      var np, again := pp, true;
      while again
        invariant n <= |w| && (again ==> n < |w| && np == w[n]) && (!again ==> n == |w|)
        invariant rs == old(rs).(rec := rs.rec) && rs.rec.Keys == rec.Keys
        invariant Applied(rec, w[..n], f, rs.rec) && Holds(rs.rec)
        decreases |w| - n
      {
        ApplyNext(rec, w, n, f, rs.rec);
        Restarted(np, foregnd);
        assert np.friends == old(w[n].friends);
        np, n := np.friends, n + 1;
        again := np != pp;
      }
      assert w[..n] == w;
      AppliedToJob(rec, w, pp, f, rs.rec);
      SameCircles(rec, rs.rec, rs.ring);
    }

    /** pstart, on the leader of a job */
    method Pstart(pp: Process, foregnd: bool)
      requires Ready() && IsLeader(rs, pp)
      modifies this`rs, this`pcurrent, this`pprevious, rs.rec.Keys`flags, rs.rec.Keys`reason
      ensures Ready() && State() == Start(old(State()), pp, foregnd)
    {
      hide Mirror, Led, Rings, Indexed, Named, Reportable, Current, Listed, MaxIndex, ClrCurr, Restart;
      StartKeeps(State(), pp, foregnd);
      RestartRing(pp, foregnd);
      if !foregnd {
        Pclrcurr(pp);
      }
    }

    /** What pchild does with a job none of whose processes runs. */
    method Settle(pp: Process, jobflags: set<Flag>) returns (fp: Process)
      requires Mirror(proclist, rs) && Inv(State()) && Live(rs, pp)
      modifies this`rs, this`pcurrent, this`pprevious, rs.rec.Keys`flags, rs.rec.Keys`reason
      ensures fp == old(rs.rec)[pp].lead
      ensures Mirror(proclist, rs) && State() == Settled(old(State()), fp, jobflags)
    {
      hide Mirror, Inv, ClrCurr, Report;
      fp := ReportJob(pp);
      Choose(fp, jobflags);
    }

    /** The stopped processes of the job are marked as reported, and its leader is looked for. */
    method ReportJob(pp: Process) returns (fp: Process)
      requires Mirror(proclist, rs) && Inv(State()) && Live(rs, pp)
      modifies this`rs, rs.rec.Keys`flags, rs.rec.Keys`reason
      ensures fp == old(rs.rec)[pp].lead && fp in old(rs.rec)
      ensures Mirror(proclist, rs) && State() == With(old(State()), Report(old(rs.rec), fp))
    {
      hide Mirror, Led, Rings, Indexed, Named, Reportable, Current, Listed, MaxIndex, Report;
      ghost var t := State();
      FlagsKeepAll(t, rs.rec[pp].lead);
      LeaderLives(t, pp);
      ReportRing(pp);
      ReportKeeps(t.rs.rec, pp);
      fp := ToLeader(pp);
    }

    /** A stopped job becomes current, a finished one is no longer current or previous. */
    method Choose(fp: Process, jobflags: set<Flag>)
      requires Mirror(proclist, rs)
      modifies this`pcurrent, this`pprevious
      ensures State() == if Stopped in jobflags then MakeCurrent(old(State()), fp) else ClrCurr(old(State()), fp)
    {
      hide Mirror;
      if Stopped in jobflags {
        if pcurrent != null && pcurrent != fp {
          pprevious := pcurrent;
        }
        pcurrent := fp;
      } else {
        Pclrcurr(fp);
      }
    }

    /** New flags and a new reason for one record. */
    method Reflag(p: Process, flags: set<Flag>, reason: int)
      requires Mirror(proclist, rs) && p in rs.rec
      modifies this`rs, p`flags, p`reason
      ensures Mirror(proclist, rs)
      ensures rs == old(rs).(rec := old(rs.rec)[p := old(rs.rec)[p].(flags := flags, reason := reason)])
    {
      hide Linked, Circles, Holds;
      ghost var rec := rs.rec;
      SetFlags(p, flags, reason);
      SameCircles(rec, rs.rec, rs.ring);
    }

    /** The search of pchild. */
    method Find(pid: int) returns (pp: Process?)
      requires Mirror(proclist, rs)
      ensures pp == ByPid(rs.procs, rs.rec, pid)
    {
      pp := proclist.next;
      ghost var s := rs.procs;
      while pp != null && pid != pp.pid
        invariant (forall p <- s :: p in rs.rec.Keys) && (if s == [] then pp == null else pp == s[0] && Linked(s[0], s[1..]))
        invariant ByPid(rs.procs, rs.rec, pid) == ByPid(s, rs.rec, pid)
        decreases |s|
      {
        Seen(proclist, rs, pp);
        pp, s := pp.next, s[1..];
      }
      if pp != null {
        Seen(proclist, rs, pp);
      }
    }

    /** pchild notes what wait3 told of pp. */
    method Account(pp: Process, st: Status)
      requires Mirror(proclist, rs) && pp in rs.rec
      modifies this`rs, pp`flags, pp`reason
      ensures Mirror(proclist, rs) && rs == old(rs).(rec := News(old(rs.rec), pp, st))
    {
      hide Mirror;
      Seen(proclist, rs, pp);
      var flags := pp.flags - {Running, Stopped, Reported};
      var reason;
      match st {
        case StoppedBy(sig) =>
          flags, reason := flags + {Stopped}, sig;
        case KilledBy(sig, core) =>
          if sig == SIGINT {
            flags := flags + {Interrupted};
          } else {
            flags := flags + {Signaled};
          }
          if core {
            flags := flags + {Dumped};
          }
          reason := sig;
        case Exited(code) =>
          reason := code;
          if code != 0 {
            flags := flags + {AExited};
          } else {
            flags := flags + {NExited};
          }
      }
      assert AfterWait(rs.rec[pp], st) == rs.rec[pp].(flags := flags, reason := reason);
      Reflag(pp, flags, reason);
    }

    /** The end of pchild: whether and how the user hears of the job. */
    method Tell(fp: Process, pp: Process, jobflags: set<Flag>, notify: bool)
      requires Ready() && Live(rs, pp) && rs.rec[pp].lead == fp && IsLeader(rs, fp)
      modifies this`rs, this`pcurrjob, this`pcurrent, this`pprevious, this`pmaxindex
      modifies rs.rec.Keys`index, rs.rec.Keys`pid, rs.rec.Keys`flags, rs.rec.Keys`reason
      ensures Ready() && State() == Told(old(State()), fp, jobflags, notify)
    {
      hide Mirror, Led, Rings, Indexed, Named, Reportable, Current, Listed, MaxIndex, Flush;
      ToldKeeps(State(), fp, jobflags, notify);
      InList(rs);
      if Foregnd !in jobflags {
        if Notify in jobflags || notify {
          if Stopped !in jobflags {
            Pflush(pp);
          }
        } else {
          Seen(proclist, rs, fp);
          Reflag(fp, fp.flags + {NeedNote}, fp.reason);
        }
      }
    }

    /** The first half of pchild: the record and the flags of its job. */
    method Hear(pp: Process, st: Status) returns (jobflags: set<Flag>)
      requires Ready() && Live(rs, pp)
      modifies this`rs, rs.rec.Keys`flags, rs.rec.Keys`reason
      ensures Ready() && State() == With(old(State()), Heard(old(rs.rec), pp, st))
      ensures jobflags == JobFlags(News(old(rs.rec), pp, st), old(rs.rec)[pp].lead)
    {
      hide Mirror, Led, Rings, Indexed, Named, Reportable, Current, Listed, MaxIndex, JobFlags;
      ghost var t := State();
      NewsKeeps(t, pp, st);
      HeardKeeps(t, pp, st);
      Account(pp, st);
      jobflags := CollectFlags(pp);
      Seen(proclist, rs, pp);
      Reflag(pp, pp.flags - {Foregnd}, pp.reason);
      assert rs.rec == Heard(t.rs.rec, pp, st);
    }

    /** pchild for one child */
    method Pchild(pid: int, st: Status, notify: bool)
      requires Ready() && pid != 0
      modifies this`rs, this`pcurrjob, this`pcurrent, this`pprevious, this`pmaxindex
      modifies rs.rec.Keys`index, rs.rec.Keys`pid, rs.rec.Keys`flags, rs.rec.Keys`reason
      ensures Ready() && State() == Child(old(State()), pid, st, notify)
    {
      hide Mirror, Led, Rings, Indexed, Named, Reportable, Current, Listed, MaxIndex, Settled, Told, Report, JobFlags, News;
      ghost var t := State();
      var pp := Find(pid);
      if pp == null {
        return;
      }
      InList(rs);
      LeaderLives(t, pp);
      ghost var l := rs.rec[pp].lead;
      HeardLeads(rs.rec, pp, st, l);
      var jobflags := Hear(pp, st);
      if Running !in jobflags && Reported !in jobflags {
        ghost var t1 := State();
        SettledKeeps(t1, l, jobflags);
        SettledLeads(t1, l, jobflags, pp);
        var fp := Settle(pp, jobflags);
        Tell(fp, pp, jobflags, notify);
      }
    }

    /** pnote at one record; pprint returns the flags of the job. */
    method NoteOne(pp: Process)
      requires Ready() && pp in rs.rec
      modifies this`rs, this`pcurrjob, this`pcurrent, this`pprevious, this`pmaxindex
      modifies rs.rec.Keys`index, rs.rec.Keys`pid, rs.rec.Keys`flags, rs.rec.Keys`reason
      ensures Ready() && InRange(old(rs)) && State() == Note(old(State()), pp)
    {
      hide Mirror, Led, Rings, Indexed, Named, Current, Listed, MaxIndex, Flush, JobFlags;
      InList(rs);
      Seen(proclist, rs, pp);
      NoteKeeps(State(), pp);
      if NeedNote in pp.flags {
        NoteLives(State(), pp);
        Reflag(pp, pp.flags - {NeedNote}, pp.reason);
        var flags := CollectFlags(pp);
        if flags !! {Running, Stopped} {
          Pflush(pp);
        }
      }
    }

    /** pnote: background jobs that changed are shown, and the finished ones flushed. */
    method Pnote()
      requires Ready()
      modifies this`rs, this`pcurrjob, this`pcurrent, this`pprevious, this`pmaxindex
      modifies rs.rec.Keys`index, rs.rec.Keys`pid, rs.rec.Keys`flags, rs.rec.Keys`reason
      ensures Ready() && InRange(old(rs)) && State() == NoteList(old(State()), old(rs.procs))
    {
      hide Inv, Note, Holds, Circles;
      assert InRange(rs);
      var pp := proclist.next;
      ghost var s := rs.procs;
      while pp != null
        invariant Ready() && InRange(rs) && rs.rec.Keys == old(rs.rec.Keys)
        invariant forall p <- s :: p in rs.rec.Keys
        invariant if s == [] then pp == null else pp == s[0] && Linked(s[0], s[1..])
        invariant NoteList(State(), s) == NoteList(old(State()), old(rs.procs))
        decreases |s|
      {
        NoteOne(pp);
        pp, s := pp.next, s[1..];
      }
    }

    /** pendjob */
    method Pendjob()
      requires Ready()
      modifies this`pcurrjob
      ensures Ready() && State() == old(State()).(currjob := null)
    {
      hide Mirror, Led, Rings, Indexed, Named, Reportable, Listed, MaxIndex;
      pcurrjob := null;
    }

    /** One step of pflushall. */
    method FlushLive(pp: Process)
      requires Ready() && pp in rs.rec
      modifies this`rs, this`pcurrjob, this`pcurrent, this`pprevious, this`pmaxindex
      modifies rs.rec.Keys`index, rs.rec.Keys`pid, rs.rec.Keys`flags
      ensures Ready() && rs.procs == old(rs.procs) && rs.rec.Keys == old(rs.rec.Keys)
      ensures !Live(rs, pp) && forall q <- old(rs.rec) :: Live(rs, q) ==> Live(old(rs), q)
    {
      hide Mirror, Inv, Flush;
      FlushOff(State(), pp);
      Seen(proclist, rs, pp);
      if pp.pid != 0 {
        Pflush(pp);
      }
    }

    /** What a forked child does to its copy of the table: pflushall, and no current job. */
    method Pflushall()
      requires Ready()
      modifies this`rs, this`pcurrjob, this`pcurrent, this`pprevious, this`pmaxindex
      modifies rs.rec.Keys`index, rs.rec.Keys`pid, rs.rec.Keys`flags
      ensures Ready() && rs.procs == old(rs.procs) && forall p <- rs.rec :: !Live(rs, p)
      ensures pcurrjob == pcurrent == pprevious == null && pmaxindex == 0
    {
      hide Holds, Circles, Inv, Flush;
      assert InRange(rs);
      var pp := proclist.next;
      ghost var s := rs.procs;
      while pp != null
        invariant Ready() && rs.procs == old(rs.procs) && rs.rec.Keys == old(rs.rec.Keys)
        invariant if s == [] then pp == null else pp == s[0] && Linked(s[0], s[1..])
        invariant (forall p <- s :: p in rs.rec.Keys) && forall p <- rs.procs :: p in s || !Live(rs, p)
        decreases |s|
      {
        FlushLive(pp);
        assert forall p <- s :: p == pp || p in s[1..];
        pp, s := pp.next, s[1..];
      }
      NoneLive(State());
      pcurrjob := null;
    }

    /** Some record has this index. */
    method IndexUsed(i: nat) returns (used: bool)
      requires Mirror(proclist, rs) && Listed(rs)
      ensures used == Used(rs.rec, i)
    {
      var np := proclist.next;
      ghost var k: nat := 0;
      while np != null
        invariant k <= |rs.procs|
        invariant if k == |rs.procs| then np == null else np == rs.procs[k] && Linked(np, rs.procs[k + 1..])
        invariant forall j :: 0 <= j < k ==> rs.rec[rs.procs[j]].index != i
        decreases |rs.procs| - k
      {
        Seen(proclist, rs, np);
        if np.index == i {
          return true;
        }
        np, k := np.next, k + 1;
      }
      return false;
    }

    /** The index of a new job; pmaxindex grows when it has to. */
    method TakeIndex() returns (i: nat)
      requires Mirror(proclist, rs) && Listed(rs) && pmaxindex == MaxIndex(rs.procs, rs.rec)
      modifies this`pmaxindex
      ensures i == NewIndex(rs) && pmaxindex == if i > old(pmaxindex) then i else old(pmaxindex)
    {
      hide Mirror, MaxIndex, Listed;
      AboveMax(rs);
      if pmaxindex < BIGINDEX {
        pmaxindex := pmaxindex + 1;
        return pmaxindex;
      }
      i := 1;
      var tryagain := IndexUsed(i);
      while tryagain
        modifies {}
        invariant 1 <= i <= pmaxindex + 1 && tryagain == Used(rs.rec, i)
        invariant FirstFree(rs.rec, 1, pmaxindex + 1) == FirstFree(rs.rec, i, pmaxindex + 1)
        decreases pmaxindex + 1 - i
      {
        i := i + 1;
        tryagain := IndexUsed(i);
      }
      if i > pmaxindex {
        pmaxindex := i;
      }
    }

    /** The last process on the ring of a job, from its leader. */
    method LastFriend(job: Process) returns (fp: Process)
      requires Mirror(proclist, rs) && Sound(rs) && IsLeader(rs, job)
      ensures job in rs.ring && fp == rs.ring[job][|rs.ring[job]| - 1]
    {
      hide Linked, Holds, Led, Rings, Indexed, Named, Circles;
      ghost var s := JobRing(job);
      NextFriends(s);
      fp := job;
      ghost var n: nat := 0;
      while fp.friends != job
        invariant n < |s| && fp == s[n] && fp.friends == s[if n + 1 < |s| then n + 1 else 0]
        decreases |s| - n
      {
        fp, n := fp.friends, n + 1;
      }
    }

    /** The new process goes to the end of the ring of the current job. */
    method JoinRing(pp: Process, job: Process, ghost r: Rec)
      requires Mirror(proclist, rs) && Sound(rs) && IsLeader(rs, job) && pp !in rs.rec && pp != proclist
      modifies rs.rec.Keys`friends, pp`friends
      ensures Linked(proclist, rs.procs) && Holds(rs.rec) && job in rs.ring
      ensures Circles(rs.rec[pp := r], rs.ring[job := rs.ring[job] + [pp]])
    {
      hide Linked, Holds, Led, Indexed, Named, Rings, Circle;
      ghost var s := JobRing(job);
      NextFriends(s);
      assert s[|s| - 1] in s;
      var fp := LastFriend(job);
      assert Disjoint(rs.ring) by {
        RingsApart(rs);
      }
      pp.friends := job;
      fp.friends := pp;
      forall l <- rs.ring | l != job ensures Circle(rs.ring[l]) {
        assert fp !in rs.ring[l];
      }
      LongerCircle(s, pp);
    }

    /** The new record goes to the front of the list. */
    method Enlist(pp: Process, ghost r: Rec)
      requires pp !in rs.rec && pp != proclist && proclist !in rs.rec && InRange(rs)
      requires Linked(proclist, rs.procs) && Holds(rs.rec) && Circles(rs.rec[pp := r], Add(rs, pp, r).ring)
      requires pp.cwd == r.cwd && pp.flags == r.flags && pp.reason == r.reason
      requires pp.index == r.index && pp.pid == r.pid && pp.jobid == r.jobid
      modifies this`rs, proclist`next, pp`next
      ensures Mirror(proclist, rs) && rs == Add(old(rs), pp, r)
    {
      hide Circles, Linked, Holds;
      ghost var s := rs.procs;
      HoldsMore(rs.rec, pp, r);
      assert pp !in s && proclist !in s;
      pp.next := proclist.next;
      assert Linked(proclist, s);
      SameTail(proclist, pp, s);
      proclist.next := pp;
      LinkedFront(proclist, pp, s);
      rs := Add(rs, pp, r);
    }

    /** palloc for a process of the current job */
    method AddMember(pp: Process, pid: int, flags: set<Flag>)
      requires Ready() && pp !in rs.rec && pp != proclist && pcurrjob != null
      modifies this`rs, proclist`next, rs.rec.Keys`friends, pp
      ensures Mirror(proclist, rs) && State() == Alloc(old(State()), pp, pid, flags, dirs.dcwd)
    {
      hide Mirror, Led, Rings, Indexed, Named, Reportable, Current, Listed, MaxIndex, NewIndex, Circles, Linked, Holds;
      Seen(proclist, rs, pcurrjob);
      Outside(proclist, rs);
      ghost var r := Rec(pcurrjob, null, flags, 0, rs.rec[pcurrjob].index, pid, rs.rec[pcurrjob].pid);
      pp.pid, pp.flags, pp.reason := pid, flags, 0;
      pp.cwd, pp.index, pp.jobid := null, pcurrjob.index, pcurrjob.pid;
      assert Mirror(proclist, rs);
      JoinRing(pp, pcurrjob, r);
      Enlist(pp, r);
    }

    /** palloc for the leader of a new job */
    method AddLeader(pp: Process, pid: int, flags: set<Flag>, cwd: Directory)
      requires Ready() && pp !in rs.rec && pp != proclist && pcurrjob == null
      modifies this`rs, this`pcurrjob, this`pcurrent, this`pprevious, this`pmaxindex, proclist`next, pp
      ensures Mirror(proclist, rs) && State() == Alloc(old(State()), pp, pid, flags, cwd)
    {
      hide Mirror, Led, Rings, Indexed, Named, Reportable, Current, MaxIndex, NewIndex, Circles, Linked, Holds;
      Outside(proclist, rs);
      NoRing(rs, pp);
      var i := TakeIndex();
      ghost var r := Rec(pp, cwd, flags, 0, i, pid, pid);
      pp.pid, pp.flags, pp.reason, pp.jobid := pid, flags, 0, pid;
      pp.cwd, pp.index, pp.friends := cwd, i, pp;
      assert Mirror(proclist, rs);
      OwnCircle(proclist, rs, pp, r);
      Enlist(pp, r);
      Promote(pp);
    }

    /** The new job is the one commands go to, and current or previous if that place is free. */
    method Promote(pp: Process)
      requires Mirror(proclist, rs)
      modifies this`pcurrjob, this`pcurrent, this`pprevious
      ensures Mirror(proclist, rs) && pcurrjob == pp
      ensures pcurrent == if old(pcurrent) == null then pp else old(pcurrent)
      ensures pprevious == if old(pcurrent) != null && old(pprevious) == null then pp else old(pprevious)
    {
      hide Mirror;
      pcurrjob := pp;
      if pcurrent == null {
        pcurrent := pp;
      } else if pprevious == null {
        pprevious := pp;
      }
    }

    /** palloc; a new job holds the current directory. */
    method Palloc(pid: int, amp: bool, pipeout: bool, stderr: bool) returns (pp: Process)
      requires Ready() && Counts() && pid != 0 && forall q <- rs.rec :: rs.rec[q].pid != pid
      modifies this, proclist`next, rs.rec.Keys`friends, dirs`refs, dirs.dcwd`count
      ensures fresh(pp) && Ready() && Counts()
      ensures State() == Alloc(old(State()), pp, pid, NewFlags(amp, pipeout, stderr), old(dirs.dcwd))
    {
      hide Mirror, Inv, Alloc, Held, Ring, Counted;
      pp := new Process();
      var flags := {Running} + (if amp then {} else {Foregnd});
      if pipeout {
        flags := flags + {PipedOut} + (if stderr then {PipedErr} else {});
      }
      assert flags == NewFlags(amp, pipeout, stderr);
      Install(pp, pid, flags);
    }

    /** palloc from the point where the process is known. */
    method Install(pp: Process, pid: int, flags: set<Flag>)
      requires Ready() && Counts() && pid != 0 && forall q <- rs.rec :: rs.rec[q].pid != pid
      requires pp !in rs.rec && pp != proclist
      modifies this, proclist`next, rs.rec.Keys`friends, dirs`refs, dirs.dcwd`count, pp
      ensures Ready() && Counts() && State() == Alloc(old(State()), pp, pid, flags, old(dirs.dcwd))
    {
      hide Mirror, Inv, Alloc, Held, Ring, Counted;
      AllocKeeps(State(), pp, pid, flags, dirs.dcwd);
      AllocHolds(State(), pp, pid, flags, dirs.dcwd);
      if pcurrjob != null {
        AddMember(pp, pid, flags);
      } else {
        AddLeader(pp, pid, flags, dirs.dcwd);
        HoldDir();
      }
    }

    /** One more hold on the current directory. */
    method HoldDir()
      requires Mirror(proclist, rs) && dirs.Valid()
      modifies dirs`refs, dirs.dcwd`count
      ensures Mirror(proclist, rs) && dirs.Valid() && dirs.refs == old(dirs.refs) + multiset{dirs.dcwd}
    {
      hide Mirror;
      assert allocated(rs.procs) && allocated(rs.rec.Keys);
      dirs.Hold();
    }

    /** A flushed record leaves the list, ... */
    static method Unlist(fp: Process, pp: Process, ghost w: seq<Process>, ghost s: seq<Process>)
      requires Chained(w) && fp == w[|w| - 1] && Distinct(w) && Linked(pp, s) && fp !in s && fp != pp
      modifies fp`next
      ensures Chained(w) && Linked(fp, s)
    {
      hide Linked;
      assert forall i :: 0 <= i < |w| - 1 ==> w[i] != fp && w[i].next == w[i + 1];
      fp.next := pp.next;
      assert Linked(pp, s);
      SameTail(pp, fp, s);
    }

    /** A directory that was held still is, is on the ring, or was freed; nothing freed comes back. */
    twostate predicate NoneLost()
      reads dirs
    {
      && old(dirs.freed) <= dirs.freed && dirs.loop == old(dirs.loop) && dirs.refs <= old(dirs.refs)
      && forall d <- old(dirs.refs) :: d in dirs.loop || d in dirs.refs || d in dirs.freed
    }

    /** ... and no longer holds its directory. */
    method LetGo(pp: Process, ghost held: multiset<Directory>)
      requires Holds(rs.rec) && pp in rs.rec && dirs.Valid()
      requires dirs.refs == held + if rs.rec[pp].cwd == null then multiset{} else multiset{rs.rec[pp].cwd}
      modifies dirs`refs, dirs`freed, dirs.refs`count
      ensures dirs.Valid() && dirs.refs == held && NoneLost()
    {
      hide Ring, Counted, Without;
      if pp.cwd != null {
        var cwd: Directory := pp.cwd;
        assert dirs.refs - multiset{cwd} == held;
        dirs.Release(cwd);
      }
    }

    /** In the midst of the loop of pwait: w is the list up to fp, s what lies ahead. */
    ghost predicate OnList(w: seq<Process>, s: seq<Process>)
      reads this`rs, w`next, s`next
    {
      && w != [] && w[0] == proclist && Chained(w) && Linked(w[|w| - 1], s) && Fitting(rs.rec, w, s)
      && InRange(rs) && Alive(rs.procs, rs.rec) == w[1..] + Alive(s, rs.rec)
    }

    ghost predicate Counting(w: seq<Process>, s: seq<Process>)
      reads this`rs, dirs`dhead, dirs`dcwd, dirs`loop, dirs`refs, dirs`freed
      reads dirs.loop`next, dirs.loop`prev, dirs.loop`count
      reads dirs.refs`next, dirs.refs`prev, dirs.refs`count
    {
      w != [] && Fitting(rs.rec, w, s) && dirs.Valid() && dirs.refs == Held(w[1..], rs.rec) + Held(s, rs.rec)
    }

    /** A live record stays on the list, ... */
    lemma KeepRecord(w: seq<Process>, s: seq<Process>)
      requires OnList(w, s) && s != [] && s[0] in rs.rec && rs.rec[s[0]].pid != 0
      ensures OnList(w + [s[0]], s[1..])
    {
      hide Linked, Chained, Fitting;
      FirstOf(w[|w| - 1], s);
      FittingStep(rs.rec, w, s);
      ChainedLonger(w, s[0]);
      assert (w + [s[0]])[1..] == w[1..] + [s[0]];
    }

    /** ... and holds what it held. */
    lemma KeepHold(w: seq<Process>, s: seq<Process>)
      requires Counting(w, s) && s != [] && s[0] in rs.rec
      ensures Counting(w + [s[0]], s[1..])
    {
      hide Ring, Counted, Without;
      FittingStep(rs.rec, w, s);
      assert (w + [s[0]])[1..] == w[1..] + [s[0]];
      HeldSnoc(w[1..], s[0], rs.rec);
    }

    /** A flushed record is taken off, ... */
    method DropRecord(fp: Process, pp: Process, ghost w: seq<Process>, ghost s: seq<Process>)
      requires OnList(w, s) && s != [] && pp == s[0] && fp == w[|w| - 1]
      requires pp in rs.rec && rs.rec[pp].pid == 0
      modifies fp`next
      ensures OnList(w, s[1..])
    {
      hide Linked, Chained, Fitting;
      FirstOf(fp, s);
      FittingStep(rs.rec, w, s);
      Unlist(fp, pp, w, s[1..]);
    }

    /** ... and lets go of its directory. */
    method DropHold(pp: Process, ghost w: seq<Process>, ghost s: seq<Process>)
      requires Counting(w, s) && s != [] && pp == s[0] && pp in rs.rec && Holds(rs.rec)
      modifies dirs`refs, dirs`freed, dirs.refs`count
      ensures Counting(w, s[1..]) && NoneLost()
    {
      hide Ring, Counted, Without, Holds;
      FittingStep(rs.rec, w, s);
      LetGo(pp, Held(w[1..], rs.rec) + Held(s[1..], rs.rec));
    }

    /** One turn of the loop of pwait; fq is where the next one starts from. */
    method ReapOne(fp: Process, pp: Process, ghost w: seq<Process>, ghost s: seq<Process>) returns (fq: Process, ghost v: seq<Process>)
      requires w != [] && OnList(w, s) && Counting(w, s) && s != [] && pp == s[0] && fp == w[|w| - 1]
      requires pp in rs.rec && Holds(rs.rec)
      modifies fp`next, dirs`refs, dirs`freed, dirs.refs`count
      ensures v != [] && fq == v[|v| - 1] && OnList(v, s[1..]) && Counting(v, s[1..]) && (fq == fp || fq == pp)
      ensures NoneLost() && Holds(rs.rec)
    {
      hide Ring, Counted, Without, Circles, Holds, Linked, Chained, OnList, Counting;
      Seen1(rs.rec, pp);
      if pp.pid == 0 {
        DropRecord(fp, pp, w, s);
        assert allocated(w) && allocated(s);
        DropHold(pp, w, s);
        fq, v := fp, w;
      } else {
        KeepRecord(w, s);
        KeepHold(w, s);
        fq, v := pp, w + [pp];
      }
    }

    /** The loop at the start of pwait. */
    method ReapLoop()
      requires Mirror(proclist, rs) && Listed(rs) && Counts()
      modifies proclist`next, rs.rec.Keys`next, dirs`refs, dirs`freed, dirs.refs`count
      ensures Linked(proclist, Alive(rs.procs, rs.rec))
      ensures dirs.Valid() && dirs.refs == Held(Alive(rs.procs, rs.rec), rs.rec) && NoneLost()
    {
      hide Ring, Counted, Without, Circles, Holds, Linked, Chained, OnList, Counting;
      ghost var w: seq<Process>, s: seq<Process> := [proclist], rs.procs;
      AtFirst(w, s);
      var fp: Process := proclist;
      var pp := fp.next;
      while pp != null
        invariant w != [] && fp == w[|w| - 1] && OnList(w, s) && Counting(w, s) && pp == fp.next
        invariant if s == [] then pp == null else pp == s[0] && pp in rs.rec
        invariant fp == proclist || fp in rs.rec.Keys
        invariant Holds(rs.rec)
        invariant NoneLost()
        decreases |s|
      {
        fp, w := ReapOne(fp, pp, w, s);
        s := s[1..];
        Ahead(w, s);
        pp := fp.next;
      }
      AtLast(w);
    }

    lemma AtFirst(w: seq<Process>, s: seq<Process>)
      requires Mirror(proclist, rs) && Listed(rs) && Counts() && w == [proclist] && s == rs.procs
      ensures OnList(w, s) && Counting(w, s) && Holds(rs.rec) && Circles(rs.rec, rs.ring)
      ensures if s == [] then proclist.next == null else proclist.next == s[0] && s[0] in rs.rec
    {
      assert w[1..] == [];
    }

    lemma Ahead(w: seq<Process>, s: seq<Process>)
      requires OnList(w, s)
      ensures w != [] && if s == [] then w[|w| - 1].next == null else w[|w| - 1].next == s[0] && s[0] in rs.rec
    {
    }

    lemma AtLast(w: seq<Process>)
      requires OnList(w, []) && Counting(w, []) && w[|w| - 1].next == null
      ensures Linked(proclist, Alive(rs.procs, rs.rec))
      ensures InRange(rs) && dirs.Valid() && dirs.refs == Held(Alive(rs.procs, rs.rec), rs.rec)
    {
      hide Ring, Counted, Without;
      ListEnds(w);
      assert Alive(rs.procs, rs.rec) == w[1..];
    }

    /** The start of pwait: flushed records are freed, and with them the last hold on a directory that left
        the ring. */
    method ReapAll()
      requires Ready() && Counts()
      modifies this`rs, proclist`next, rs.rec.Keys`next, dirs`refs, dirs`freed, dirs.refs`count
      ensures Ready() && Counts() && State() == Reap(old(State())) && NoneLost()
    {
      hide Inv, Ring, Counted, Without, Circles, Holds, Linked, Held, Alive;
      ghost var t := State();
      ReapKeeps(t);
      ReapedRings(t);
      ReapHolds(t);
      Outside(proclist, rs);
      ReapLoop();
      assert Holds(rs.rec) && Circles(rs.rec, rs.ring);
      ReapMirror(proclist, rs, Reap(t).rs);
      rs := Reap(t).rs;
    }

    /** The search of pfind for `%n`: the leader of the live job with that index; `%0` finds none. */
    method PfindIndex(idx: nat) returns (pp: Process?)
      requires Ready()
      ensures pp != null ==> IsLeader(rs, pp) && rs.rec[pp].index == idx
      ensures pp == null ==> forall p <- rs.procs :: IsLeader(rs, p) ==> rs.rec[p].index != idx
    {
      hide Holds, Circles, Led, Rings, Indexed, Named, Current;
      pp := proclist.next;
      ghost var s := rs.procs;
      while pp != null
        invariant if s == [] then pp == null else pp == s[0] && Linked(s[0], s[1..])
        invariant (forall p <- s :: p in rs.rec.Keys)
        invariant forall p <- rs.procs :: p in s || (IsLeader(rs, p) ==> rs.rec[p].index != idx)
        decreases |s|
      {
        Seen(proclist, rs, pp);
        LeaderSeen(rs, pp);
        if pp.index == idx && pp.pid == pp.jobid {
          return;
        }
        assert forall p <- s :: p == pp || p in s[1..];
        pp, s := pp.next, s[1..];
      }
    }
  }

  /** An index in use belongs to a live record, and pid and jobid tell the leader. */
  lemma LeaderSeen(rs: Records, p: Process)
    requires Sound(rs) && p in rs.rec
    ensures rs.rec[p].index > 0 <==> Live(rs, p)
    ensures rs.rec[p].pid == rs.rec[p].jobid <==> IsLeader(rs, p)
  {
    if Live(rs, p) {
      LeaderByPid(rs, p);
    }
  }

  lemma ReapedRings(t: Table)
    requires Inv(t)
    ensures Listed(t.rs) && Owned(Reap(t).rs.rec, Reap(t).rs.ring)
  {
    hide Led, Covered, Shaped, Owned, Indexed, Named, Alive, MaxIndex;
    ReapKeeps(t);
  }

  lemma ReapMirror(h: Process, rs: Records, r: Records)
    requires Holds(rs.rec) && Circles(rs.rec, rs.ring) && Linked(h, r.procs) && h !in rs.rec && InRange(r)
    requires Remains(rs.rec, r.rec) && (forall l <- r.ring :: l in rs.ring && r.ring[l] == rs.ring[l])
    requires Owned(r.rec, r.ring)
    ensures Mirror(h, r)
  {
    hide Linked;
  }

  /** The records kept and the ones still ahead, behind the list head, are all different. */
  predicate Fitting(rec: map<Process, Rec>, w: seq<Process>, s: seq<Process>) {
    && w != [] && Distinct(w + s)
    && (forall p <- w[1..] :: p in rec.Keys) && (forall p <- s :: p in rec.Keys)
  }

  lemma FittingStep(rec: map<Process, Rec>, w: seq<Process>, s: seq<Process>)
    requires Fitting(rec, w, s) && s != []
    ensures Distinct(w) && w[|w| - 1] !in s[1..] && w[|w| - 1] != s[0] && s[0] in rec
    ensures Fitting(rec, w, s[1..]) && Fitting(rec, w + [s[0]], s[1..])
  {
    var v, u := w + s, w + s[1..];
    assert w + [s[0]] + s[1..] == v;
    assert forall i :: 0 <= i < |w| ==> v[i] == w[i];
    assert forall i :: 0 <= i < |s| ==> v[|w| + i] == s[i];
    assert forall i :: 0 <= i < |u| ==> u[i] == v[if i < |w| then i else i + 1];
  }

  lemma FirstOf(h: Process, s: seq<Process>)
    requires Linked(h, s)
    ensures if s == [] then h.next == null else h.next == s[0] && Linked(s[0], s[1..])
  {
  }

  lemma Seen1(rec: map<Process, Rec>, p: Process)
    requires Holds(rec) && p in rec
    ensures p.pid == rec[p].pid && p.cwd == rec[p].cwd
  {
  }

  lemma {:induction false} HeldSnoc(a: seq<Process>, p: Process, rec: map<Process, Rec>)
    requires (forall q <- a :: q in rec) && p in rec
    ensures Held(a + [p], rec) == Held(a, rec) + if rec[p].cwd == null then multiset{} else multiset{rec[p].cwd}
  {
    if a == [] {
      assert [] + [p] == [p] && [p][1..] == [];
    } else {
      assert (a + [p])[1..] == a[1..] + [p];
      HeldSnoc(a[1..], p, rec);
    }
  }

  /** The records of w are linked one to the next. */
  ghost predicate Chained(w: seq<Process>)
    reads w`next
  {
    w != [] && forall i :: 0 <= i < |w| - 1 ==> w[i].next == w[i + 1]
  }

  lemma ChainedLonger(w: seq<Process>, pp: Process)
    requires Chained(w) && w[|w| - 1].next == pp
    ensures Chained(w + [pp])
  {
  }

  lemma {:induction false} ListEnds(w: seq<Process>)
    requires Chained(w) && w[|w| - 1].next == null
    ensures Linked(w[0], w[1..])
    decreases |w|
  {
    if |w| > 1 {
      assert forall i :: 0 <= i < |w| - 1 ==> w[1..][i] == w[i + 1];
      assert w[0].next == w[0 + 1];
      ListEnds(w[1..]);
    }
  }

  function NewFlags(amp: bool, pipeout: bool, stderr: bool): (flags: set<Flag>)
    ensures Running in flags && (Foregnd in flags <==> !amp) && flags <= {Running, Foregnd, PipedOut, PipedErr}
    ensures (PipedOut in flags <==> pipeout) && (PipedErr in flags <==> pipeout && stderr)
  {
    {Running} + (if amp then {} else {Foregnd})
    + (if pipeout then {PipedOut} + (if stderr then {PipedErr} else {}) else {})
  }

  lemma NoRing(rs: Records, p: Process)
    requires Sound(rs) && p !in rs.rec
    ensures p !in rs.ring
  {
    if p in rs.ring {
      OwnerOf(rs, p, rs.ring[p][0]);
    }
  }

  lemma OwnCircle(h: Process, rs: Records, p: Process, r: Rec)
    requires Mirror(h, rs) && p !in rs.ring && p.friends == p && r.lead == p
    ensures Linked(h, rs.procs) && Holds(rs.rec) && Circles(rs.rec[p := r], Add(rs, p, r).ring)
  {
    assert [] + [p] == [p];
  }

  lemma HoldsMore(rec: map<Process, Rec>, p: Process, r: Rec)
    requires Holds(rec) && p !in rec
    requires p.cwd == r.cwd && p.flags == r.flags && p.reason == r.reason
    requires p.index == r.index && p.pid == r.pid && p.jobid == r.jobid
    ensures Holds(rec[p := r])
  {
  }

  lemma Outside(h: Process, rs: Records)
    requires Mirror(h, rs)
    ensures h !in rs.rec && InRange(rs)
  {
  }

  lemma SameTail(h: Process, g: Process, s: seq<Process>)
    requires Linked(h, s) && g.next == h.next
    ensures Linked(g, s)
  {
  }

  lemma LinkedFront(h: Process, p: Process, s: seq<Process>)
    requires h.next == p && Linked(p, s)
    ensures Linked(h, [p] + s)
  {
    assert ([p] + s)[1..] == s;
  }

  /** No record is on two rings. */
  predicate Disjoint(ring: map<Process, seq<Process>>) {
    forall l <- ring, m <- ring, p <- ring[l] :: p in ring[m] ==> l == m
  }

  lemma RingsApart(rs: Records)
    requires Sound(rs)
    ensures Disjoint(rs.ring)
  {
    hide Led, Indexed, Named, Covered;
    forall l <- rs.ring, m <- rs.ring, p <- rs.ring[l] | p in rs.ring[m] ensures l == m {
      OwnerOf(rs, l, p);
      OwnerOf(rs, m, p);
    }
  }

  lemma OwnerOf(rs: Records, l: Process, p: Process)
    requires Sound(rs) && l in rs.ring && p in rs.ring[l]
    ensures p in rs.rec && rs.rec[p].lead == l
  {
  }

  lemma LongerCircle(s: seq<Process>, pp: Process)
    requires s != [] && pp.friends == s[0] && s[|s| - 1].friends == pp
    requires forall i :: 0 <= i < |s| - 1 ==> s[i].friends == s[i + 1]
    ensures Circle(s + [pp])
  {
    var w := s + [pp];
    forall i | 0 <= i < |w| ensures w[i].friends == w[if i + 1 < |w| then i + 1 else 0] {
      if i < |s| - 1 {
        assert w[i] == s[i] && w[i + 1] == s[i + 1];
      }
    }
  }

  lemma FlushOff(t: Table, p: Process)
    requires Inv(t) && p in t.rs.rec
    ensures InRange(t.rs)
    ensures Live(t.rs, p) ==>
              var r := Flush(t, t.rs.rec[p].lead).rs; !Live(r, p) && forall q <- t.rs.rec :: Live(r, q) ==> Live(t.rs, q)
  {
    hide Led, Rings, Indexed, Named, Current, MaxIndex, Flush;
    if Live(t.rs, p) {
      LeaderLives(t, p);
      FlushKeeps(t, t.rs.rec[p].lead);
    }
  }

  lemma NoneLive(t: Table)
    requires Inv(t) && forall p <- t.rs.procs :: !Live(t.rs, p)
    ensures t.currjob == t.curr == t.prev == null && t.maxindex == 0 && forall p <- t.rs.rec :: !Live(t.rs, p)
  {
    MaxIsMax(t.rs.procs, t.rs.rec);
  }

  lemma NoteLives(t: Table, p: Process)
    requires Inv(t) && p in t.rs.rec && NeedNote in t.rs.rec[p].flags
    ensures Live(t.rs, p)
    ensures Inv(With(t, t.rs.rec[p := t.rs.rec[p].(flags := t.rs.rec[p].flags - {NeedNote})]))
  {
    hide Led, Rings, Indexed, Named, Current, MaxIndex;
    FlagsKeep(t, t.rs.rec[p := t.rs.rec[p].(flags := t.rs.rec[p].flags - {NeedNote})]);
  }

  lemma NewsKeeps(t: Table, p: Process, st: Status)
    requires Inv(t) && Live(t.rs, p)
    ensures Inv(With(t, News(t.rs.rec, p, st)))
  {
    hide Led, Rings, Indexed, Named, MaxIndex, Current;
    FlagsKeep(t, News(t.rs.rec, p, st));
  }

  lemma SettledLeads(t: Table, l: Process, jobflags: set<Flag>, p: Process)
    requires l in t.rs.rec && p in t.rs.rec && t.rs.rec[p].lead == l
    ensures var r := Settled(t, l, jobflags); p in r.rs.rec && r.rs.rec[p].lead == l && r.rs.rec[p].pid == t.rs.rec[p].pid
  {
  }

  lemma ReportKeeps(rec: map<Process, Rec>, p: Process)
    requires p in rec && rec[p].lead in rec
    ensures var r := Report(rec, rec[p].lead); p in r && r[p].lead == rec[p].lead && r[p].pid == rec[p].pid
  {
  }

  /** Only the job with the highest index can take it away. */
  lemma MaxStays(t: Table, l: Process)
    requires Inv(t) && IsLeader(t.rs, l) && t.rs.rec[l].index != t.maxindex
    ensures MaxIndex(t.rs.procs, Zero(t.rs, l).rec) == t.maxindex
  {
    hide Led, Rings, Indexed, Named, Current;
    var r := Zero(t.rs, l).rec;
    MaxIsMax(t.rs.procs, t.rs.rec);
    MaxIsMax(t.rs.procs, r);
    if t.maxindex > 0 {
      var p :| p in t.rs.procs && t.rs.rec[p].index == t.maxindex;
      OtherIndex(t.rs, l, p);
    }
    assert forall p <- t.rs.procs :: r[p].index <= t.rs.rec[p].index;
  }

  lemma OtherIndex(rs: Records, l: Process, p: Process)
    requires Sound(rs) && l in rs.rec && p in rs.rec && rs.rec[p].index != rs.rec[l].index
    ensures rs.rec[p].lead != l
  {
  }

  lemma FirstStep(rs: Records, s: seq<Process>, curr: Process?, pp: Process)
    requires s != [] && s[0] in rs.rec.Keys
    ensures var r := rs.rec[s[0]];
            var here := s[0] != curr && s[0] != pp && r.pid != 0 && r.pid == r.jobid;
            && JobTable.First(rs, s, curr, pp, false) == (if here then s[0] else JobTable.First(rs, s[1..], curr, pp, false))
            && JobTable.First(rs, s, curr, pp, true)
               == (if here && Stopped in r.flags then s[0] else JobTable.First(rs, s[1..], curr, pp, true))
  {
  }

  lemma NextFriends(s: seq<Process>)
    requires Circle(s) && Distinct(s)
    ensures forall n :: 0 <= n < |s| ==> s[n].friends == s[if n + 1 < |s| then n + 1 else 0]
    ensures forall n :: 0 <= n < |s| ==> (s[n].friends == s[0] <==> n + 1 == |s|)
  {
    forall n | 0 <= n < |s| ensures s[n].friends == s[0] <==> n + 1 == |s| {
      assert s[n].friends == s[if n + 1 < |s| then n + 1 else 0];
    }
  }

  /** r is rec with f applied to the records of s. */
  predicate Applied(rec: map<Process, Rec>, s: seq<Process>, f: Rec -> Rec, r: map<Process, Rec>) {
    r.Keys == rec.Keys && forall p <- rec :: r[p] == if p in s then f(rec[p]) else rec[p]
  }

  lemma ApplyNone(rec: map<Process, Rec>, s: seq<Process>, f: Rec -> Rec)
    ensures Applied(rec, s[..0], f, rec)
  {
  }

  lemma ApplyNext(rec: map<Process, Rec>, s: seq<Process>, n: nat, f: Rec -> Rec, r: map<Process, Rec>)
    requires n < |s| && Distinct(s) && s[n] in rec && Applied(rec, s[..n], f, r)
    ensures s[n] in r && r[s[n]] == rec[s[n]]
    ensures Applied(rec, s[..n + 1], f, r[s[n] := f(rec[s[n]])])
  {
    assert s[..n + 1] == s[..n] + [s[n]];
    assert s[n] !in s[..n];
  }

  lemma AppliedToJob(rec: map<Process, Rec>, s: seq<Process>, l: Process, f: Rec -> Rec, r: map<Process, Rec>)
    requires Applied(rec, s, f, r) && forall p <- rec :: p in s <==> rec[p].lead == l
    ensures r == map p <- rec :: if rec[p].lead == l then f(rec[p]) else rec[p]
  {
  }
}
