// Processes that share a message-id file, interleaved step by step: each loads the file under a
// shared lock, changes its own store, and saves under an exclusive lock by merging the file,
// writing a temporary file and renaming it over the old one.
//
// The lock steps are those of LockProtocol; nothing here assumes that the lock excludes anybody.
// A file that is open for reading keeps its contents when the path is renamed over, so a read is
// one step; the temporary file is shared, and is written line by line.
module MidInfoSharing {
  import opened Common
  import opened MidInfo
  import L = LockProtocol

  type Pid = L.Pid

  // What a process is doing with its store.
  datatype Phase =
    | Quiet
    | Loading                                        // wants or has the shared lock
    | Loaded                                         // about to release the shared lock
    | Saving                                         // wants or has the exclusive lock
    | Merging(before: Table)                         // file merged in; the store was `before`
    | Writing(before: Table, written: seq<Line>, todo: seq<Line>)
    | Saved                                          // renamed; about to release the lock

  datatype App = App(store: Table, changed: bool, phase: Phase)

  // file, tmp: contents of the file and of its temporary sibling, if they exist.
  datatype World = World(lock: L.State, apps: seq<App>, file: Option<seq<Line>>, tmp: Option<seq<Line>>)

  datatype LocalOp =
    | OpInsert(mid: Mid, now: int)
    | OpRemove(mid: Mid)
    | OpSetDelete(mid: Mid, now: int)
    | OpDoDelete(related: set<Mid>, now: int)

  datatype Action =
    | LockCall(a: L.Action)       // any call of the lock constructor or destructor
    | Change(op: LocalOp)
    | ReadFile
    | MergeFile
    | OpenTmp(order: seq<Line>)
    | WriteLine
    | Rename

  function Lines(f: Option<seq<Line>>): seq<Line> {
    if f.Some? then f.value else []
  }

  ghost function ChangedStore(t: Table, op: LocalOp): Table {
    match op
    case OpInsert(mid, now) => InsertedNew(t, mid, now)
    case OpRemove(mid) => Killed(t, {mid})
    case OpSetDelete(mid, now) => DeletedAt(t, mid, now)
    case OpDoDelete(related, now) => Killed(t, Expired(t, related, now))
  }

  ghost predicate MarksChanged(t: Table, op: LocalOp) {
    match op
    case OpInsert(mid, _) => mid !in t
    case OpRemove(mid) => mid in t
    case OpSetDelete(_, _) => false
    case OpDoDelete(related, now) => Expired(t, related, now) != {}
  }

  ghost predicate Init(w: World) {
    && L.Init(w.lock)
    && |w.apps| == |w.lock.procs|
    && (forall p :: 0 <= p < |w.apps| ==> w.apps[p] == App(map[], false, Quiet))
  }

  // The phase the lock call belongs to, and the phase after it.
  ghost predicate LockCallFits(app: App, pc: L.Pc, a: L.Action) {
    match a
    case Start(mode) => app.phase.Quiet? && (mode == L.Exclusive ==> app.changed)
    case CloseFd => app.phase.Loaded? || app.phase.Saved?
    case _ => true
  }

  function PhaseAfter(app: App, pc: L.Pc, a: L.Action): Phase {
    match a
    case Start(mode) => if mode == L.Shared then Loading else Saving
    case CloseFd => Quiet
    case OpenFails => Quiet      // the constructor throws: the load or save is given up
    case SetLkFails => Quiet
    case _ => app.phase
  }

  // A load clears the store before it asks for the lock.
  function AppAfter(app: App, pc: L.Pc, a: L.Action): App {
    if a == L.Start(L.Shared) then App(map[], false, Loading) else app.(phase := PhaseAfter(app, pc, a))
  }

  ghost predicate Holds(w: World, p: Pid, mode: L.Mode)
    requires p < |w.lock.procs|
  {
    w.lock.procs[p].Holding? && w.lock.procs[p].mode == mode
  }

  ghost predicate Next(w: World, w': World, p: Pid, a: Action) {
    p < |w.apps| == |w.lock.procs| &&
    var app := w.apps[p];
    match a
    case LockCall(la) =>
      && LockCallFits(app, w.lock.procs[p], la)
      && L.Next(w.lock, w'.lock, p, la)
      && w' == w.(lock := w'.lock, apps := w.apps[p := AppAfter(app, w.lock.procs[p], la)])
    case Change(op) =>
      && app.phase.Quiet?
      && w' == w.(apps := w.apps[p := App(ChangedStore(app.store, op), app.changed || MarksChanged(app.store, op), Quiet)])
    case ReadFile =>
      && app.phase.Loading? && Holds(w, p, L.Shared)
      && w' == w.(apps := w.apps[p := App(Merged(app.store, Lines(w.file)), false, Loaded)])
    case MergeFile =>
      && app.phase.Saving? && Holds(w, p, L.Exclusive)
      && w' == w.(apps := w.apps[p := app.(store := Merged(app.store, Lines(w.file)), phase := Merging(app.store))])
    case OpenTmp(order) =>
      && app.phase.Merging? && Written(app.store, order)
      && w' == w.(tmp := Some([]), apps := w.apps[p := app.(phase := Writing(app.phase.before, [], order))])
    case WriteLine =>
      && app.phase.Writing? && |app.phase.todo| > 0 && w.tmp.Some?
      && w' == w.(tmp := Some(w.tmp.value + [app.phase.todo[0]]),
                  apps := w.apps[p := app.(phase := Writing(app.phase.before, app.phase.written + [app.phase.todo[0]], app.phase.todo[1..]))])
    case Rename =>
      && app.phase.Writing? && app.phase.todo == [] && w.tmp.Some?
      && w' == w.(file := w.tmp, tmp := None, apps := w.apps[p := app.(phase := Saved)])
  }

  // ---------- the invariant ----------

  // Processes between merging and renaming hold the exclusive lock.
  predicate InSave(ph: Phase) {
    ph.Merging? || ph.Writing?
  }

  // The constructor has been entered for this mode and has not thrown.
  predicate AsksFor(pc: L.Pc, mode: L.Mode) {
    (pc.WantLock? || pc.GateForLock? || pc.OpenForLock? || L.HasLock(pc)) && pc.mode == mode
  }

  predicate PhaseFits(ph: Phase, pc: L.Pc) {
    match ph
    case Quiet => !AsksFor(pc, L.Shared) && !AsksFor(pc, L.Exclusive)
    case Loading => AsksFor(pc, L.Shared)
    case Saving => AsksFor(pc, L.Exclusive)
    case Loaded => pc.Holding? && pc.mode == L.Shared
    case _ => pc.Holding? && pc.mode == L.Exclusive
  }

  ghost predicate PhaseInv(w: World)
    requires |w.apps| == |w.lock.procs|
  {
    forall p :: 0 <= p < |w.apps| ==> PhaseFits(w.apps[p].phase, w.lock.procs[p])
  }

  ghost predicate SaveInv(w: World) {
    forall p :: 0 <= p < |w.apps| && InSave(w.apps[p].phase) ==>
      var ph := w.apps[p].phase;
      && w.apps[p].store == Merged(ph.before, Lines(w.file))
      && (ph.Writing? ==> w.tmp == Some(ph.written) && Written(w.apps[p].store, ph.written + ph.todo))
  }

  ghost predicate Inv(w: World) {
    && |w.apps| == |w.lock.procs|
    && L.Inv(w.lock)
    && PhaseInv(w) && SaveInv(w)
  }

  // The lock lets nobody else into a save.
  lemma OneSaver(w: World, p: Pid, q: Pid)
    requires Inv(w) && p < |w.apps| && q < |w.apps| && p != q
    requires InSave(w.apps[p].phase)
    ensures !w.lock.procs[q].Holding?
    ensures !InSave(w.apps[q].phase)
  {
    var s := w.lock;
    assert PhaseFits(w.apps[p].phase, s.procs[p]) && PhaseFits(w.apps[q].phase, s.procs[q]);
    assert L.Lock(p, s.procs[p].ino, L.Exclusive) in s.locks;
  }

  // A lock call takes the phase of its caller along.
  lemma LockCallPhase(s: L.State, s': L.State, p: Pid, a: L.Action, app: App)
    requires L.Next(s, s', p, a) && LockCallFits(app, s.procs[p], a)
    requires PhaseFits(app.phase, s.procs[p])
    ensures PhaseFits(AppAfter(app, s.procs[p], a).phase, s'.procs[p])
    ensures |s'.procs| == |s.procs| && forall q :: 0 <= q < |s.procs| && q != p ==> s'.procs[q] == s.procs[q]
  {
  }

  lemma NextPhase(w: World, w': World, p: Pid, a: Action)
    requires Inv(w) && Next(w, w', p, a)
    ensures |w'.apps| == |w'.lock.procs| && PhaseInv(w')
  {
    assert PhaseFits(w.apps[p].phase, w.lock.procs[p]);
    if a.LockCall? {
      LockCallPhase(w.lock, w'.lock, p, a.a, w.apps[p]);
    } else {
      assert w'.lock == w.lock;
    }
    forall q | 0 <= q < |w'.apps|
      ensures PhaseFits(w'.apps[q].phase, w'.lock.procs[q])
    {
      assert q != p ==> w'.apps[q] == w.apps[q];
    }
  }

  lemma NextSave(w: World, w': World, p: Pid, a: Action)
    requires Inv(w) && Next(w, w', p, a)
    ensures SaveInv(w')
  {
    forall q | 0 <= q < |w'.apps| && InSave(w'.apps[q].phase)
      ensures var ph := w'.apps[q].phase;
        && w'.apps[q].store == Merged(ph.before, Lines(w'.file))
        && (ph.Writing? ==> w'.tmp == Some(ph.written) && Written(w'.apps[q].store, ph.written + ph.todo))
    {
      if q != p {
        assert InSave(w.apps[q].phase);
        OneSaver(w, q, p);
      } else if a.WriteLine? {
        var ph := w.apps[p].phase;
        assert ph.written + [ph.todo[0]] + ph.todo[1..] == ph.written + ph.todo;
      } else if a.OpenTmp? {
        assert [] + a.order == a.order;
      }
    }
  }

  lemma NextInv(w: World, w': World, p: Pid, a: Action)
    requires Inv(w) && Next(w, w', p, a)
    ensures Inv(w')
  {
    NextPhase(w, w', p, a);
    NextSave(w, w', p, a);
    if a.LockCall? { L.NextInv(w.lock, w'.lock, p, a.a); }
  }

  // ---------- whole runs ----------

  datatype Event = Event(pid: Pid, action: Action)

  ghost predicate Run(ws: seq<World>, es: seq<Event>) {
    && |ws| == |es| + 1
    && Init(ws[0])
    && forall k :: 0 <= k < |es| ==> Next(ws[k], ws[k + 1], es[k].pid, es[k].action)
  }

  lemma {:induction false} RunInv(ws: seq<World>, es: seq<Event>, k: nat)
    requires Run(ws, es) && k < |ws|
    ensures Inv(ws[k])
  {
    if k > 0 {
      RunInv(ws, es, k - 1);
      assert Next(ws[k - 1], ws[k - 1 + 1], es[k - 1].pid, es[k - 1].action);
      NextInv(ws[k - 1], ws[k], es[k - 1].pid, es[k - 1].action);
    }
  }

  // What the file says after a save: the join of what it said and what the saver's store said
  // before merging, with dead messages left out.
  function Joined(lines: seq<Line>, store: Table, m: Mid): Option<int> {
    JoinOpt(Removed(store, m), RemovedIn(lines, m))
  }

  // No lost update.  When a save completes, in any run of any number of processes, each message
  // of the old file or of the saver's store is in the new file with the joined removal time,
  // and is absent only if that time is DEAD.
  lemma NoLostUpdate(ws: seq<World>, es: seq<Event>, k: nat, m: Mid)
    requires Run(ws, es) && k < |es| && es[k].action.Rename?
    ensures es[k].pid < |ws[k].apps|
    ensures var saver := ws[k].apps[es[k].pid].phase;
      && saver.Writing?
      && ws[k + 1].file.Some?
      && var d := Joined(Lines(ws[k].file), saver.before, m);
         RemovedIn(ws[k + 1].file.value, m) == if d == Some(DEAD) then None else d
    ensures var saver := ws[k].apps[es[k].pid].phase;
      saver.Writing? && ws[k + 1].file.Some? &&
      MidInfo.Merged(map[], ws[k + 1].file.value) == Live(MidInfo.Merged(saver.before, Lines(ws[k].file)))
  {
    RunInv(ws, es, k);
    assert Next(ws[k], ws[k + 1], es[k].pid, es[k].action);
    var app := ws[k].apps[es[k].pid];
    assert app.phase.written + app.phase.todo == app.phase.written;
    WrittenReads(app.store, app.phase.written, m);
    WrittenLoads(app.store, app.phase.written);
    MergedJoins(app.phase.before, Lines(ws[k].file), m);
  }

  // Some save between i and j dropped message m as dead.
  ghost predicate DroppedBetween(ws: seq<World>, es: seq<Event>, i: nat, j: nat, m: Mid)
    requires |ws| == |es| + 1 && j < |ws|
  {
    exists k: nat :: i <= k < j && es[k].action.Rename? && es[k].pid < |ws[k].apps|
      && ws[k].apps[es[k].pid].phase.Writing?
      && Joined(Lines(ws[k].file), ws[k].apps[es[k].pid].phase.before, m) == Some(DEAD)
  }

  // Over any run what the file says about a message only goes up, unless a save drops it as dead.
  lemma {:induction false} FileOnlyRises(ws: seq<World>, es: seq<Event>, i: nat, j: nat, m: Mid)
    requires Run(ws, es) && i <= j < |ws|
    requires RemovedIn(Lines(ws[i].file), m).Some?
    ensures DroppedBetween(ws, es, i, j, m)
            || (RemovedIn(Lines(ws[j].file), m).Some?
                && Below(RemovedIn(Lines(ws[i].file), m).value, RemovedIn(Lines(ws[j].file), m).value))
  {
    if i < j && !DroppedBetween(ws, es, i, j, m) {
      var k := j - 1;
      FileOnlyRises(ws, es, i, k, m);
      assert Next(ws[k], ws[k + 1], es[k].pid, es[k].action);
      if es[k].action.Rename? {
        NoLostUpdate(ws, es, k, m);
      }
    }
  }

  // A file is replaced only by a process that holds the exclusive lock, while no other process
  // holds any lock, so what it merged is still what it replaces.
  lemma ReplacedUnderLock(ws: seq<World>, es: seq<Event>, k: nat, q: Pid)
    requires Run(ws, es) && k < |es| && ws[k].file != ws[k + 1].file
    requires q < |ws[k].apps| && q != es[k].pid
    ensures es[k].action.Rename? && Holds(ws[k], es[k].pid, L.Exclusive)
    ensures !ws[k].lock.procs[q].Holding?
  {
    RunInv(ws, es, k);
    assert Next(ws[k], ws[k + 1], es[k].pid, es[k].action);
    OneSaver(ws[k], es[k].pid, q);
  }
}
