/** Any mix of forks, news of children, job control and directory commands, on the job table and the
    directory ring together. */
module Session {
  import opened Common
  import opened Strings
  import opened Dirs
  import opened JobTable
  import opened Jobs

  datatype Command =
    | Fork(pid: int, amp: bool, pipeout: bool, stderr: bool)
    | News(pid: int, status: Status, notify: bool)
    | EndJob
    | Fg(index: nat, foregnd: bool)
    | Finish(index: nat)
    | Notes
    | Reap
    | Cd(n: int, name: Word, ok: bool)
    | Pushd(arg: Option<int>, name: Word, ok: bool)
    | Popd(arg: Option<int>, ok: bool)

  ghost predicate Consistent(js: JobList)
    reads js, js.proclist, js.rs.procs, js.rs.rec.Keys, js.dirs, js.dirs.loop, js.dirs.refs
  {
    js.Ready() && js.Counts() && js.dirs.Accounted()
  }

  /** Directories only come new; what was freed stays freed. */
  twostate predicate Kept(dirs: Dirs)
    reads dirs
  {
    && (forall d <- dirs.loop :: d in old(dirs.loop) || fresh(d))
    && (forall d <- dirs.refs :: d in old(dirs.refs) || d in old(dirs.loop) || fresh(d))
    && old(dirs.freed) <= dirs.freed && old(dirs.made) <= dirs.made
  }

  /** cd, pushd and popd. */
  method Change(js: JobList, c: Command)
    requires Consistent(js) && (c.Cd? || c.Pushd? || c.Popd?)
    modifies js.dirs, js.dirs.loop, js.dirs.refs
    ensures Consistent(js) && Kept(js.dirs) && js.State() == old(js.State())
  {
    hide Mirror, Inv, Ring, Counted, Without, Held;
    var dirs := js.dirs;
    assert allocated(js.rs.procs) && allocated(js.rs.rec.Keys);
    var r;
    match c {
      case Cd(n, name, ok) => r := dirs.Dochngd(n, name, ok);
      case Pushd(n, name, ok) => r := dirs.Dopushd(n, name, ok);
      case Popd(n, ok) => r := dirs.Dopopd(n, ok);
    }
  }

  /** The records of the table are old or new ones. */
  twostate predicate OnlyNew(js: JobList)
    reads js
  {
    forall p <- js.rs.rec :: p in old(js.rs.rec) || fresh(p)
  }

  /** Steps that only change flags, indexes and the current jobs do not touch the directories. */
  method Control(js: JobList, c: Command)
    requires js.Ready() && !c.Fork? && !c.Reap? && !c.Cd? && !c.Pushd? && !c.Popd?
    modifies js`rs, js`pcurrjob, js`pcurrent, js`pprevious, js`pmaxindex
    modifies js.rs.rec.Keys`index, js.rs.rec.Keys`pid, js.rs.rec.Keys`flags, js.rs.rec.Keys`reason
    ensures js.Ready() && SameHeld(old(js.State()), js.State())
  {
    hide Mirror, Inv, Held, Child, Start, Flush, NoteList, SameHeld;
    ghost var t := js.State();
    Basics(t);
    match c {
      case News(pid, st, notify) =>
        if pid != 0 {
          ChildHolds(t, pid, st, notify);
          js.Pchild(pid, st, notify);
        }
      case EndJob =>
        js.Pendjob();
      case Fg(index, foregnd) =>
        if index > 0 {
          var pp := js.PfindIndex(index);
          if pp != null {
            StartHolds(t, pp, foregnd);
            js.Pstart(pp, foregnd);
          }
        }
      case Finish(index) =>
        var pp := js.pcurrjob;
        if index > 0 {
          pp := js.PfindIndex(index);
        }
        if pp != null {
          FlushHolds(t, t.rs.rec[pp].lead);
          js.Pflush(pp);
        }
      case Notes =>
        NoteListHolds(t, t.rs.procs);
        js.Pnote();
      case _ =>
    }
  }

  lemma Basics(t: Table)
    requires Inv(t)
    ensures InRange(t.rs) && (t.currjob != null ==> t.currjob in t.rs.rec)
    ensures SameHeld(t, t) && SameHeld(t, t.(currjob := null))
  {
  }

  /** A fork; the system gives no pid that a live record has. */
  method Spawn(js: JobList, pid: int, amp: bool, pipeout: bool, stderr: bool)
    requires Consistent(js)
    modifies js, js.proclist`next, js.rs.rec.Keys`friends, js.dirs`refs, js.dirs.dcwd`count
    ensures Consistent(js) && OnlyNew(js) && Kept(js.dirs)
  {
    hide Mirror, Sound, Current, Ring, Counted, Without, Held, Alloc;
    if pid != 0 {
      var used := js.Find(pid);
      if used == null {
        Unused(js.State(), pid);
        NewProcess(js, pid, amp, pipeout, stderr);
      }
    }
  }

  /** A fork with a pid that no record has. */
  method NewProcess(js: JobList, pid: int, amp: bool, pipeout: bool, stderr: bool)
    requires js.Ready() && js.Counts() && pid != 0 && forall q <- js.rs.rec :: js.rs.rec[q].pid != pid
    modifies js, js.proclist`next, js.rs.rec.Keys`friends, js.dirs`refs, js.dirs.dcwd`count
    ensures js.Ready() && js.Counts() && OnlyNew(js)
    ensures old(js.dirs.refs) <= js.dirs.refs && forall d <- js.dirs.refs :: d in old(js.dirs.refs) || d in js.dirs.loop
  {
    hide Mirror, Inv, Ring, Counted, Without, Held, Alloc;
    ghost var t, cwd := js.State(), js.dirs.dcwd;
    assert cwd in js.dirs.loop;
    var pp := js.Palloc(pid, amp, pipeout, stderr);
    AllocHolds(t, pp, pid, NewFlags(amp, pipeout, stderr), cwd);
  }

  lemma Unused(t: Table, pid: int)
    requires Inv(t) && ByPid(t.rs.procs, t.rs.rec, pid) == null
    ensures forall q <- t.rs.rec :: t.rs.rec[q].pid != pid
  {
    hide Led, Rings, Indexed, Named, Current, MaxIndex;
    forall q <- t.rs.rec ensures t.rs.rec[q].pid != pid {
      assert q in t.rs.procs;
    }
  }

  method Perform(js: JobList, c: Command)
    requires Consistent(js)
    modifies js, js.proclist, js.rs.rec.Keys, js.dirs, js.dirs.loop, js.dirs.refs
    ensures Consistent(js) && OnlyNew(js) && Kept(js.dirs)
  {
    hide Mirror, Inv, Ring, Counted, Without, Held, Alive, Inv;
    if c.Fork? {
      Spawn(js, c.pid, c.amp, c.pipeout, c.stderr);
    } else if c.Reap? {
      js.ReapAll();
    } else if c.Cd? || c.Pushd? || c.Popd? {
      Change(js, c);
    } else {
      Work(js, c);
    }
  }

  method Work(js: JobList, c: Command)
    requires Consistent(js) && !c.Fork? && !c.Reap? && !c.Cd? && !c.Pushd? && !c.Popd?
    modifies js`rs, js`pcurrjob, js`pcurrent, js`pprevious, js`pmaxindex
    modifies js.rs.rec.Keys`index, js.rs.rec.Keys`pid, js.rs.rec.Keys`flags, js.rs.rec.Keys`reason
    ensures Consistent(js) && js.rs.rec.Keys == old(js.rs.rec.Keys)
  {
    hide Mirror, Inv, Ring, Counted, Without, Held;
    Control(js, c);
  }

  /** Whatever the commands: the table and the ring stay consistent, a directory is freed at most once and only
      off the ring with no job counting it, and every directory there ever was, before the run or during it, is
      on the ring, counted by a job, or freed. */
  method Run(js: JobList, cs: seq<Command>)
    requires Consistent(js)
    modifies js, js.proclist, js.rs.rec.Keys, js.dirs, js.dirs.loop, js.dirs.refs
    ensures Consistent(js) && OnlyNew(js) && Kept(js.dirs)
    decreases |cs|
  {
    if cs != [] {
      Perform(js, cs[0]);
      Run(js, cs[1..]);
    }
  }
}
