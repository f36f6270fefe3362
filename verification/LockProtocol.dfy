// The fcntl lock-file protocol as a state machine over the system calls of any number of
// processes.  Two paths are involved: the locks file, whose inode carries the record locks and
// which may be unlinked and created anew, and the gate, a file created with O_EXCL.
//
// A process is at most once inside the protocol for a path (one lock object per path and
// process), and processes do not crash.
module LockProtocol {
  import opened Common

  type Pid = nat
  type Ino = nat

  datatype Mode = Shared | Exclusive

  // Where a process stands.  The names say which system call came last.
  datatype Pc =
    | Idle
    | WantLock(mode: Mode)                 // constructor entered, no gate yet
    | GateForLock(mode: Mode)              // created the gate
    | OpenForLock(mode: Mode, ino: Ino)    // opened (or created) the locks file
    | LockedGated(mode: Mode, ino: Ino)    // F_SETLKW came back, gate still there
    | Holding(mode: Mode, ino: Ino)        // constructor finished
    | Failed                               // constructor must unlink the gate and throw
    | Closed                               // destructor entered: close(fd) dropped the lock
    | GateForRelease                       // created the gate again
    | OpenForRelease(ino: Ino)             // reopened the locks file, without O_CREAT
    | Checked(ino: Ino, free: bool)        // F_GETLK answered, fd still open
    | GateLast                             // only the gate is left to unlink

  datatype Lock = Lock(pid: Pid, ino: Ino, mode: Mode)

  // name: the inode the locks path refers to, if any.  gate: whether the gate path exists.
  // leaked: whether some constructor threw after opening the locks file.
  datatype State = State(procs: seq<Pc>, name: Option<Ino>, gate: bool, locks: set<Lock>, leaked: bool)

  datatype Action =
    | Start(mode: Mode)
    | CreateGate
    | Sleep                    // open of the gate said EEXIST
    | OpenLocks(newIno: Ino)
    | OpenFails
    | SetLk
    | SetLkFails
    | DropGate
    | CloseFd
    | Reopen
    | GetLk
    | Finish                   // close the checking fd, unlink the locks file if it was free

  predicate HasGate(pc: Pc) {
    pc.GateForLock? || pc.OpenForLock? || pc.LockedGated? || pc.Failed? ||
    pc.GateForRelease? || pc.OpenForRelease? || pc.Checked? || pc.GateLast?
  }

  predicate HasLock(pc: Pc) {
    pc.LockedGated? || pc.Holding?
  }

  // Inode a process has an open descriptor on.
  function OpenIno(pc: Pc): Option<Ino> {
    if pc.OpenForLock? || pc.LockedGated? || pc.Holding? || pc.OpenForRelease? || pc.Checked? then Some(pc.ino)
    else None
  }

  // A lock another process has that excludes a request of the given mode.
  predicate Conflicts(l: Lock, p: Pid, ino: Ino, mode: Mode) {
    l.pid != p && l.ino == ino && (l.mode == Exclusive || mode == Exclusive)
  }

  // close() drops every record lock the process has on the inode.
  ghost function Released(locks: set<Lock>, p: Pid, ino: Ino): set<Lock> {
    set l | l in locks && !(l.pid == p && l.ino == ino)
  }

  ghost predicate Init(s: State) {
    && (forall p :: 0 <= p < |s.procs| ==> s.procs[p] == Idle)
    && s.name == None && !s.gate && s.locks == {} && !s.leaked
  }

  // An inode number the file system may hand out: no descriptor and no lock refers to it.
  ghost predicate Unused(s: State, ino: Ino) {
    && (forall q :: 0 <= q < |s.procs| ==> OpenIno(s.procs[q]) != Some(ino))
    && (forall l :: l in s.locks ==> l.ino != ino)
  }

  // Whether process p can make this system call now and have it come back this way.
  ghost predicate Enabled(s: State, p: Pid, a: Action) {
    p < |s.procs| &&
    var pc := s.procs[p];
    match a
    case Start(_) => pc == Idle
    case CreateGate => (pc.WantLock? || pc.Closed?) && !s.gate
    case Sleep => (pc.WantLock? || pc.Closed?) && s.gate
    case OpenLocks(newIno) => pc.GateForLock? && (s.name.None? ==> Unused(s, newIno))
    case OpenFails => pc.GateForLock?
    case SetLk => pc.OpenForLock? && forall l :: l in s.locks ==> !Conflicts(l, p, pc.ino, pc.mode)
    case SetLkFails => pc.OpenForLock?
    case DropGate => pc.LockedGated? || pc.Failed? || pc.GateLast?
    case CloseFd => pc.Holding?
    case Reopen => pc.GateForRelease?
    case GetLk => pc.OpenForRelease?
    case Finish => pc.Checked?
  }

  function At(s: State, p: Pid, pc: Pc): State
    requires p < |s.procs|
  {
    s.(procs := s.procs[p := pc])
  }

  // What the call does to the files, the lock table and the process.
  ghost function Apply(s: State, p: Pid, a: Action): State
    requires Enabled(s, p, a)
  {
    var pc := s.procs[p];
    match a
    case Start(mode) => At(s, p, WantLock(mode))
    case CreateGate => At(s, p, if pc.WantLock? then GateForLock(pc.mode) else GateForRelease).(gate := true)
    case Sleep => s
    case OpenLocks(newIno) =>
      var ino := if s.name.Some? then s.name.value else newIno;
      At(s, p, OpenForLock(pc.mode, ino)).(name := Some(ino))
    case OpenFails => At(s, p, Failed)
    case SetLk => At(s, p, LockedGated(pc.mode, pc.ino)).(locks := s.locks + {Lock(p, pc.ino, pc.mode)})
    case SetLkFails => At(s, p, Failed).(leaked := true)
    case DropGate => At(s, p, if pc.LockedGated? then Holding(pc.mode, pc.ino) else Idle).(gate := false)
    case CloseFd => At(s, p, Closed).(locks := Released(s.locks, p, pc.ino))
    case Reopen => At(s, p, if s.name.Some? then OpenForRelease(s.name.value) else GateLast)
    case GetLk => At(s, p, Checked(pc.ino, forall l :: l in s.locks ==> !Conflicts(l, p, pc.ino, Exclusive)))
    case Finish =>
      At(s, p, GateLast).(locks := Released(s.locks, p, pc.ino), name := if pc.free then None else s.name)
  }

  ghost predicate Next(s: State, s': State, p: Pid, a: Action) {
    Enabled(s, p, a) && s' == Apply(s, p, a)
  }

  // ---------- the invariant ----------

  // Exactly one process stands between creating and unlinking the gate while the gate exists.
  ghost predicate GateInv(s: State) {
    && (forall p, q :: 0 <= p < |s.procs| && 0 <= q < |s.procs| && HasGate(s.procs[p]) && HasGate(s.procs[q]) ==> p == q)
    && (forall p :: 0 <= p < |s.procs| && HasGate(s.procs[p]) ==> s.gate)
    && (s.gate ==> exists p :: 0 <= p < |s.procs| && HasGate(s.procs[p]))
  }

  // The kernel's lock table and the processes agree.
  ghost predicate TableInv(s: State) {
    && (forall l :: l in s.locks ==> l.pid < |s.procs| && HasLock(s.procs[l.pid])
                                     && s.procs[l.pid].ino == l.ino && s.procs[l.pid].mode == l.mode)
    && (forall p :: 0 <= p < |s.procs| && HasLock(s.procs[p]) ==> Lock(p, s.procs[p].ino, s.procs[p].mode) in s.locks)
  }

  // Every held lock, and every descriptor opened under the gate, is on the inode that
  // the locks path names now.
  ghost predicate NameInv(s: State) {
    && (forall l :: l in s.locks ==> s.name == Some(l.ino))
    && (forall p :: 0 <= p < |s.procs| && OpenIno(s.procs[p]).Some? ==> s.name == OpenIno(s.procs[p]))
  }

  // A locks file found free stays free until it is unlinked.
  ghost predicate FreeInv(s: State) {
    forall p :: 0 <= p < |s.procs| && s.procs[p].Checked? && s.procs[p].free ==> s.locks == {}
  }

  ghost predicate ExclusionInv(s: State) {
    forall l, m :: l in s.locks && m in s.locks && l.pid != m.pid ==> l.mode == Shared && m.mode == Shared
  }

  // Somebody who will still look at the locks file.
  predicate Responsible(pc: Pc) {
    pc.OpenForLock? || pc.LockedGated? || pc.Holding? || pc.Closed? || pc.GateForRelease? || pc.OpenForRelease? ||
    (pc.Checked? && pc.free)
  }

  ghost predicate CleanupInv(s: State) {
    s.name.Some? && !s.leaked ==> exists p :: 0 <= p < |s.procs| && Responsible(s.procs[p])
  }

  ghost predicate Inv(s: State) {
    GateInv(s) && TableInv(s) && NameInv(s) && FreeInv(s) && ExclusionInv(s) && CleanupInv(s)
  }

  lemma InitInv(s: State)
    requires Init(s)
    ensures Inv(s)
  {
  }

  lemma NextGate(s: State, s': State, p: Pid, a: Action)
    requires Inv(s) && Next(s, s', p, a)
    ensures GateInv(s')
  {
    hide TableInv, NameInv, FreeInv, ExclusionInv, CleanupInv, Conflicts, Released, Unused;
    if s'.gate {
      if s.gate {
        var q :| 0 <= q < |s.procs| && HasGate(s.procs[q]);
        assert HasGate(s'.procs[q]);
      } else {
        assert HasGate(s'.procs[p]);
      }
    }
  }

  lemma NextTable(s: State, s': State, p: Pid, a: Action)
    requires Inv(s) && Next(s, s', p, a)
    ensures TableInv(s')
  {
    hide GateInv, FreeInv, ExclusionInv, CleanupInv, Conflicts, Unused, HasGate;
  }

  lemma NextName(s: State, s': State, p: Pid, a: Action)
    requires Inv(s) && Next(s, s', p, a)
    ensures NameInv(s')
  {
  }

  lemma NextFree(s: State, s': State, p: Pid, a: Action)
    requires Inv(s) && Next(s, s', p, a)
    ensures FreeInv(s')
  {
  }

  lemma NextExclusion(s: State, s': State, p: Pid, a: Action)
    requires Inv(s) && Next(s, s', p, a)
    ensures ExclusionInv(s')
  {
    if a.SetLk? {
      forall l | l in s.locks && l.pid != p
        ensures l.mode == Shared && s.procs[p].mode == Shared
      {
        assert !Conflicts(l, p, s.procs[p].ino, s.procs[p].mode);
        assert s.name == Some(l.ino) == OpenIno(s.procs[p]);
      }
    }
  }

  lemma NextCleanup(s: State, s': State, p: Pid, a: Action)
    requires Inv(s) && Next(s, s', p, a)
    ensures CleanupInv(s')
  {
    if s'.name.Some? && !s'.leaked {
      if Responsible(s'.procs[p]) {
      } else if s.name.Some? && exists q :: 0 <= q < |s.procs| && q != p && Responsible(s.procs[q]) {
        var q :| 0 <= q < |s.procs| && q != p && Responsible(s.procs[q]);
        assert Responsible(s'.procs[q]);
      }
    }
  }

  lemma NextInv(s: State, s': State, p: Pid, a: Action)
    requires Inv(s) && Next(s, s', p, a)
    ensures Inv(s')
  {
    NextGate(s, s', p, a);
    NextTable(s, s', p, a);
    NextName(s, s', p, a);
    NextFree(s, s', p, a);
    NextExclusion(s, s', p, a);
    NextCleanup(s, s', p, a);
  }

  // ---------- whole runs ----------

  datatype Event = Event(pid: Pid, action: Action)

  ghost predicate Run(ss: seq<State>, es: seq<Event>) {
    && |ss| == |es| + 1
    && Init(ss[0])
    && forall k :: 0 <= k < |es| ==> Next(ss[k], ss[k + 1], es[k].pid, es[k].action)
  }

  lemma {:induction false} RunInv(ss: seq<State>, es: seq<Event>, k: nat)
    requires Run(ss, es) && k < |ss|
    ensures Inv(ss[k])
  {
    if k == 0 {
      InitInv(ss[0]);
    } else {
      RunInv(ss, es, k - 1);
      assert Next(ss[k - 1], ss[k - 1 + 1], es[k - 1].pid, es[k - 1].action);
      NextInv(ss[k - 1], ss[k], es[k - 1].pid, es[k - 1].action);
    }
  }

  // Mutual exclusion: at no point of any run does an exclusive holder coexist with another
  // holder, although the locks file may have been unlinked and created anew in between.
  lemma MutualExclusion(ss: seq<State>, es: seq<Event>, k: nat, p: Pid, q: Pid)
    requires Run(ss, es) && k < |ss|
    requires p < |ss[k].procs| && q < |ss[k].procs| && p != q
    requires HasLock(ss[k].procs[p]) && HasLock(ss[k].procs[q])
    ensures ss[k].procs[p].mode == Shared && ss[k].procs[q].mode == Shared
    ensures ss[k].procs[p].ino == ss[k].procs[q].ino && ss[k].name == Some(ss[k].procs[p].ino)
  {
    RunInv(ss, es, k);
    var s := ss[k];
    assert Lock(p, s.procs[p].ino, s.procs[p].mode) in s.locks;
    assert Lock(q, s.procs[q].ino, s.procs[q].mode) in s.locks;
  }

  // A request waits exactly while some process has a lock, unless both are shared: readers do not wait for
  // readers, whichever inode they opened.
  lemma WaitsExactly(s: State, p: Pid)
    requires Inv(s) && p < |s.procs| && s.procs[p].OpenForLock?
    ensures Enabled(s, p, SetLk) <==>
      forall q :: 0 <= q < |s.procs| && HasLock(s.procs[q]) ==> s.procs[q].mode == Shared && s.procs[p].mode == Shared
  {
    var pc := s.procs[p];
    forall q | 0 <= q < |s.procs| && HasLock(s.procs[q]) && (s.procs[q].mode == Exclusive || pc.mode == Exclusive)
      ensures !Enabled(s, p, SetLk)
    {
      var l := Lock(q, s.procs[q].ino, s.procs[q].mode);
      assert s.name == OpenIno(pc) && l in s.locks;
      assert Conflicts(l, p, pc.ino, pc.mode);
    }
  }

  // The locks file is found free, and then unlinked, exactly when nobody has a lock.
  lemma FreeExactly(s: State, p: Pid)
    requires Inv(s) && p < |s.procs| && s.procs[p].OpenForRelease?
    ensures Apply(s, p, GetLk).procs[p] == Checked(s.procs[p].ino, forall q :: 0 <= q < |s.procs| ==> !HasLock(s.procs[q]))
  {
    var pc := s.procs[p];
    forall q | 0 <= q < |s.procs| && HasLock(s.procs[q])
      ensures exists l :: l in s.locks && Conflicts(l, p, pc.ino, Exclusive)
    {
      var l := Lock(q, s.procs[q].ino, s.procs[q].mode);
      assert s.name == OpenIno(pc) && l in s.locks;
      assert Conflicts(l, p, pc.ino, Exclusive);
    }
  }

  // ---------- progress ----------

  // Steps by which a process gets on; sleeping, failing and new requests do not count.
  predicate GetsOn(a: Action) {
    !a.Start? && !a.Sleep? && !a.OpenFails? && !a.SetLkFails?
  }

  ghost predicate CanGetOn(s: State, p: Pid) {
    exists a :: GetsOn(a) && Enabled(s, p, a)
  }

  // Steps the process still has ahead of it until it is idle again.
  function Ahead(pc: Pc): nat {
    match pc
    case Idle => 0
    case WantLock(_) => 11
    case GateForLock(_) => 10
    case OpenForLock(_, _) => 9
    case LockedGated(_, _) => 8
    case Holding(_, _) => 7
    case Closed => 6
    case GateForRelease => 5
    case OpenForRelease(_) => 4
    case Checked(_, _) => 3
    case GateLast => 2
    case Failed => 1
  }

  function Work(procs: seq<Pc>): nat {
    if |procs| == 0 then 0 else Ahead(procs[0]) + Work(procs[1..])
  }

  lemma {:induction false} WorkUpdate(procs: seq<Pc>, p: nat, pc: Pc)
    requires p < |procs|
    ensures Work(procs[p := pc]) == Work(procs) - Ahead(procs[p]) + Ahead(pc)
  {
    if p == 0 {
      assert procs[p := pc][1..] == procs[1..];
    } else {
      assert procs[p := pc][1..] == procs[1..][p - 1 := pc];
      WorkUpdate(procs[1..], p - 1, pc);
    }
  }

  // Every step that gets on uses up work, so a run of such steps is finite.
  lemma WorkDecreases(s: State, s': State, p: Pid, a: Action)
    requires Next(s, s', p, a) && GetsOn(a)
    ensures Work(s'.procs) < Work(s.procs)
  {
    hide Work, Unused, Conflicts, Released;
    assert s'.procs == s.procs[p := s'.procs[p]];
    WorkUpdate(s.procs, p, s'.procs[p]);
  }

  // A process with the gate is never stuck behind anyone but a holder, and a holder
  // closes its descriptor without the gate.
  lemma GateOwnerOrHolder(s: State, p: Pid)
    requires Inv(s) && p < |s.procs| && HasGate(s.procs[p])
    ensures CanGetOn(s, p)
            || (s.procs[p].OpenForLock? && exists q: Pid :: q < |s.procs| && q != p && s.procs[q].Holding? && CanGetOn(s, q))
  {
    match s.procs[p]
    case GateForLock(mode) =>
      var newIno := UnusedIno(s);
      assert Enabled(s, p, OpenLocks(newIno));
    case OpenForLock(mode, ino) =>
      if !Enabled(s, p, SetLk) {
        var l :| l in s.locks && Conflicts(l, p, ino, mode);
        assert Enabled(s, l.pid, CloseFd);
      }
    case LockedGated(_, _) => assert Enabled(s, p, DropGate);
    case Failed => assert Enabled(s, p, DropGate);
    case GateLast => assert Enabled(s, p, DropGate);
    case GateForRelease => assert Enabled(s, p, Reopen);
    case OpenForRelease(_) => assert Enabled(s, p, GetLk);
    case Checked(_, _) => assert Enabled(s, p, Finish);
  }

  // There is always an inode number left.
  lemma UnusedIno(s: State) returns (ino: Ino)
    requires Inv(s)
    ensures Unused(s, ino)
  {
    ino := match s.name case Some(i) => i + 1 case None => 0;
  }

  lemma NoDeadlockAt(s: State, p: Pid)
    requires Inv(s) && p < |s.procs| && s.procs[p] != Idle
    ensures exists q: Pid :: q < |s.procs| && CanGetOn(s, q)
  {
    if s.gate {
      var o :| 0 <= o < |s.procs| && HasGate(s.procs[o]);
      GateOwnerOrHolder(s, o);
    } else {
      assert !HasGate(s.procs[p]);
      var a := if s.procs[p].Holding? then CloseFd else CreateGate;
      assert GetsOn(a) && Enabled(s, p, a);
      assert CanGetOn(s, p);
    }
  }

  // No deadlock: whenever some process is inside the protocol, some process can take a
  // step that gets on.
  lemma NoDeadlock(ss: seq<State>, es: seq<Event>, k: nat, p: Pid)
    requires Run(ss, es) && k < |ss|
    requires p < |ss[k].procs| && ss[k].procs[p] != Idle
    ensures exists q: Pid :: q < |ss[k].procs| && CanGetOn(ss[k], q)
  {
    RunInv(ss, es, k);
    NoDeadlockAt(ss[k], p);
  }

  // From any point of any run the processes inside the protocol can all be brought out of it.
  lemma {:induction false} CanDrain(s: State) returns (ss: seq<State>, es: seq<Event>)
    requires Inv(s)
    ensures |ss| == |es| + 1 && ss[0] == s
    ensures forall k :: 0 <= k < |es| ==> Next(ss[k], ss[k + 1], es[k].pid, es[k].action) && GetsOn(es[k].action)
    ensures forall p :: 0 <= p < |ss[|es|].procs| ==> ss[|es|].procs[p] == Idle
    decreases Work(s.procs)
  {
    hide Inv, Enabled, Apply, Work, GetsOn;
    if p :| 0 <= p < |s.procs| && s.procs[p] != Idle {
      NoDeadlockAt(s, p);
      var q: Pid :| q < |s.procs| && CanGetOn(s, q);
      var a :| GetsOn(a) && Enabled(s, q, a);
      var s' := Apply(s, q, a);
      WorkDecreases(s, s', q, a);
      NextInv(s, s', q, a);
      var ss', es' := CanDrain(s');
      ss, es := [s] + ss', [Event(q, a)] + es';
    } else {
      ss, es := [s], [];
    }
  }

  // ---------- cleaning up ----------

  // When every process is idle and no constructor threw with the locks file open, neither
  // the gate nor the locks file is left behind.
  lemma NothingLeftBehind(ss: seq<State>, es: seq<Event>, k: nat)
    requires Run(ss, es) && k < |ss|
    requires forall p :: 0 <= p < |ss[k].procs| ==> ss[k].procs[p] == Idle
    ensures !ss[k].gate && ss[k].locks == {}
    ensures !ss[k].leaked ==> ss[k].name == None
  {
    RunInv(ss, es, k);
  }
}
