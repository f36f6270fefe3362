// The loop that retrieves the queue, adding parity files as paths run out of files.
module Retrieve {
  import opened Common
  import opened ServerFiles
  import opened ParLists
  import opened RecoveryPackets
  import opened Autopar
  import Knapsack

  // What the disk holds for a path at some time.
  datatype Disk = Disk(par1: Local, par2: Local)

  // What the handlers of a path hold, as values.
  datatype PathState = PathState(par1: ParState, par2: ParState)

  function Left(s: ParState): Offers {
    Offers(s.lists.pxxs, s.lists.extra)
  }

  // First the PAR1 files, then the PAR2 files had their round; if that queued nothing, and not for being
  // optimistic, nothing left would help any set that needs something.
  ghost predicate ServedThrough(path: string, disk: Disk, optimistic: bool, s0: PathState, s1: PathState,
                                q0: seq<Queued>, q: seq<Queued>, q1: seq<Queued>)
  {
    && Served(false, path, disk.par1, optimistic, s0.par1, s1.par1, q0, q)
    && Served(true, path, disk.par2, optimistic, s0.par2, s1.par2, q, q1)
    && (|q1| == |q0| && !optimistic ==>
          Exhausted(false, disk.par1.sets, s0.par1.finished, Left(s1.par1))
          && Exhausted(true, disk.par2.sets, s0.par2.finished, Left(s1.par2)))
  }

  ghost predicate ServedPath(path: string, disk: Disk, optimistic: bool, s0: PathState, s1: PathState,
                             q0: seq<Queued>, q1: seq<Queued>)
  {
    exists q: seq<Queued> :: ServedThrough(path, disk, optimistic, s0, s1, q0, q, q1)
  }

  lemma ItIsServed(path: string, disk: Disk, optimistic: bool, s0: PathState, s1: PathState,
                   q0: seq<Queued>, q: seq<Queued>, q1: seq<Queued>)
    requires Served(false, path, disk.par1, optimistic, s0.par1, s1.par1, q0, q)
    requires Served(true, path, disk.par2, optimistic, s0.par2, s1.par2, q, q1)
    requires |q1| == |q0| && !optimistic ==> Exhausted(false, disk.par1.sets, s0.par1.finished, Left(s1.par1))
    requires |q1| == |q0| && !optimistic ==> Exhausted(true, disk.par2.sets, s0.par2.finished, Left(s1.par2))
    ensures ServedPath(path, disk, optimistic, s0, s1, q0, q1)
  {
    hide Served, Exhausted, Left;
    assert ServedThrough(path, disk, optimistic, s0, s1, q0, q, q1);
  }

  // The parity files of one download path.
  class ParInfo {
    const path: string
    const par1info: ParXInfo
    const par2info: ParXInfo

    constructor (path: string, subjects1: Subjects, subjects2: Subjects)
      ensures this.path == path && Ok() && Held() == multiset{}
      ensures fresh(par1info) && fresh(par2info)
    {
      this.path := path;
      par1info := new ParXInfo(path, false, subjects1);
      par2info := new ParXInfo(path, true, subjects2);
    }

    ghost predicate Ok()
      reads par1info, par2info
    {
      && par1info != par2info && !par1info.par2 && par2info.par2 && par1info.path == par2info.path == path
      && par1info.Valid() && par2info.Valid()
    }

    ghost function Held(): multiset<ServerFile>
      reads par1info, par2info
    {
      par1info.Held() + par2info.Held()
    }

    ghost function State(): PathState
      reads par1info, par2info
    {
      PathState(par1info.State(), par2info.State())
    }

    // Fetch what the sets in this path need.
    method MaybeGetPxxs(disk: Disk, optimistic: bool, fc: FileQueue)
      requires Ok() && ByDate(fc.files) && LocalOk(disk.par2, Held()) && |Held()| <= Knapsack.INT_MAX
      modifies par1info, par2info, fc
      ensures Ok() && ByDate(fc.files) && FilesBag(fc.files) + Held() == FilesBag(old(fc.files)) + old(Held())
      ensures FilesBag(old(fc.files)) <= FilesBag(fc.files)
      ensures forall x :: x in fc.files ==> x in old(fc.files) || Ours(x, path)
      ensures ServedPath(path, disk, optimistic, old(State()), State(), old(fc.files), fc.files)
    {
      hide FilesBag, ByDate, ParXInfo.Held, ParXInfo.Valid, ParXInfo.State, LocalOk, Served, Exhausted, ServedPath;
      ghost var held1, held2, q0 := par1info.Held(), par2info.Held(), fc.files;
      assert |Held()| == |held1| + |held2|;
      FewerToCheck(disk.par2, Held(), held2);
      ghost var s0 := State();
      FinishedIs();
      var n1 := par1info.MaybeGetPxxs(disk.par1, optimistic, fc);
      ghost var q1 := fc.files;
      FinishedIs();
      assert par2info.State() == s0.par2;
      var n2 := par2info.MaybeGetPxxs(disk.par2, optimistic, fc);
      FinishedIs();
      TwoSteps(FilesBag(q0), FilesBag(q1), FilesBag(fc.files), held1, par1info.Held(), held2, par2info.Held());
      ItIsServed(path, disk, optimistic, s0, State(), q0, q1, fc.files);
    }

    lemma FinishedIs()
      ensures par1info.State().finished == par1info.finished && par2info.State().finished == par2info.finished
      ensures Left(par1info.State()) == Offers(par1info.serverpxxs, par1info.serverextradata)
      ensures Left(par2info.State()) == Offers(par2info.serverpxxs, par2info.serverextradata)
    {
    }
  }

  lemma TwoSteps<T>(q0: multiset<T>, q1: multiset<T>, q2: multiset<T>, a: multiset<T>, a': multiset<T>, b: multiset<T>, b': multiset<T>)
    requires q1 + a' == q0 + a && q2 + b' == q1 + b
    ensures q2 + (a' + b') == q0 + (a + b)
  {
    forall x
      ensures (q2 + (a' + b'))[x] == (q0 + (a + b))[x]
    {
      assert (q1 + a')[x] == (q0 + a)[x] && (q2 + b')[x] == (q1 + b)[x];
    }
  }

  // ---------- all paths ----------

  function Objects(infos: seq<ParInfo>): set<ParXInfo> {
    if |infos| == 0 then {} else {infos[0].par1info, infos[0].par2info} + Objects(infos[1..])
  }

  ghost function AllHeld(infos: seq<ParInfo>): multiset<ServerFile>
    reads Objects(infos)
  {
    if |infos| == 0 then multiset{} else infos[0].Held() + AllHeld(infos[1..])
  }

  ghost function States(infos: seq<ParInfo>): seq<PathState>
    reads Objects(infos)
  {
    if |infos| == 0 then [] else [infos[0].State()] + States(infos[1..])
  }

  function Paths(infos: seq<ParInfo>): seq<string> {
    seq(|infos|, i requires 0 <= i < |infos| => infos[i].path)
  }

  // Every path has its own objects.
  ghost predicate AllOk(infos: seq<ParInfo>)
    reads Objects(infos)
  {
    |infos| == 0 ||
    (infos[0].Ok() && {infos[0].par1info, infos[0].par2info} !! Objects(infos[1..]) && AllOk(infos[1..]))
  }

  lemma {:induction false} OneOfAll(infos: seq<ParInfo>, i: nat)
    requires i < |infos| && AllOk(infos)
    ensures Objects(infos) == Objects(infos[..i]) + {infos[i].par1info, infos[i].par2info} + Objects(infos[i + 1..])
    ensures AllHeld(infos) == AllHeld(infos[..i]) + infos[i].Held() + AllHeld(infos[i + 1..])
    ensures infos[i].Ok() && AllOk(infos[..i]) && AllOk(infos[i + 1..])
    ensures Objects(infos[..i]) !! {infos[i].par1info, infos[i].par2info}
    ensures {infos[i].par1info, infos[i].par2info} !! Objects(infos[i + 1..])
    ensures Objects(infos[..i]) !! Objects(infos[i + 1..])
  {
    hide ParInfo.Ok, ParInfo.Held;
    if i > 0 {
      OneOfAll(infos[1..], i - 1);
      assert infos[1..][..i - 1] == infos[..i][1..] && infos[1..][i..] == infos[i + 1..];
    }
  }

  predicate HasInfo(infos: seq<ParInfo>, path: string) {
    exists i :: 0 <= i < |infos| && infos[i].path == path
  }

  // Every queued file's path has a handler.
  ghost predicate AllHandled(q: seq<Queued>, infos: seq<ParInfo>) {
    forall x :: x in q ==> HasInfo(infos, x.path)
  }

  // The first handler for the path had its round, and no other.
  ghost predicate AskedAt(paths: seq<string>, i: nat, path: string, disk: Disk, optimistic: bool,
                          s0: seq<PathState>, s1: seq<PathState>, q0: seq<Queued>, q1: seq<Queued>)
  {
    && i < |paths| == |s0| == |s1| && paths[i] == path && (forall j :: 0 <= j < i ==> paths[j] != path)
    && s1 == s0[i := s1[i]] && ServedPath(path, disk, optimistic, s0[i], s1[i], q0, q1)
  }

  ghost predicate Asked(paths: seq<string>, path: string, disk: Disk, optimistic: bool,
                        s0: seq<PathState>, s1: seq<PathState>, q0: seq<Queued>, q1: seq<Queued>)
  {
    exists i: nat :: AskedAt(paths, i, path, disk, optimistic, s0, s1, q0, q1)
  }

  lemma ItIsAsked(infos: seq<ParInfo>, i: nat, disk: Disk, optimistic: bool, a: seq<PathState>, s: PathState, s': PathState,
                  b: seq<PathState>, q0: seq<Queued>, q1: seq<Queued>)
    requires i < |infos| == |a + [s] + b| && |a| == i && forall j :: 0 <= j < i ==> infos[j].path != infos[i].path
    requires ServedPath(infos[i].path, disk, optimistic, s, s', q0, q1)
    ensures Asked(Paths(infos), infos[i].path, disk, optimistic, a + [s] + b, a + [s'] + b, q0, q1)
  {
    hide ServedPath;
    var s0, s1 := a + [s] + b, a + [s'] + b;
    assert s0[i] == s && s1[i] == s' && s1 == s0[i := s'];
    assert AskedAt(Paths(infos), i, infos[i].path, disk, optimistic, s0, s1, q0, q1);
  }

  lemma {:induction false} OneState(infos: seq<ParInfo>, i: nat)
    requires i < |infos|
    ensures States(infos) == States(infos[..i]) + [infos[i].State()] + States(infos[i + 1..]) && |States(infos[..i])| == i
  {
    hide ParInfo.State;
    if i > 0 {
      OneState(infos[1..], i - 1);
      assert infos[1..][..i - 1] == infos[..i][1..] && infos[1..][i..] == infos[i + 1..];
    }
  }

  lemma {:induction false} StatesCount(infos: seq<ParInfo>)
    ensures |States(infos)| == |infos|
  {
    if |infos| > 0 { StatesCount(infos[1..]); }
  }

  // The handler of a path tries to fetch more.
  method PathMaybeGetPxxs(infos: seq<ParInfo>, path: string, disk: Disk, optimistic: bool, fc: FileQueue,
                          ghost objects: set<ParXInfo>)
    requires objects == Objects(infos)
    requires AllOk(infos) && HasInfo(infos, path) && AllHandled(fc.files, infos)
    requires ByDate(fc.files) && LocalOk(disk.par2, AllHeld(infos)) && |AllHeld(infos)| <= Knapsack.INT_MAX
    modifies objects, fc
    ensures AllOk(infos) && AllHandled(fc.files, infos) && ByDate(fc.files)
    ensures FilesBag(fc.files) + AllHeld(infos) == FilesBag(old(fc.files)) + old(AllHeld(infos))
    ensures FilesBag(old(fc.files)) <= FilesBag(fc.files)
    ensures forall x :: x in fc.files ==> x in old(fc.files) || !x.dupecheck
    ensures Asked(Paths(infos), path, disk, optimistic, old(States(infos)), States(infos), old(fc.files), fc.files)
  {
    hide FilesBag, ByDate, LocalOk, ParInfo.Ok, ParInfo.Held, ParInfo.State, AllHeld, AllOk, States, Asked, Paths, ServedPath;
    var i := 0;
    while infos[i].path != path
      invariant 0 <= i < |infos|
      invariant forall j :: 0 <= j < i ==> infos[j].path != path
      decreases |infos| - i
    {
      i := i + 1;
    }
    OneOfAll(infos, i);
    ghost var a, held, b, q := AllHeld(infos[..i]), infos[i].Held(), AllHeld(infos[i + 1..]), FilesBag(fc.files);
    assert |held| <= |AllHeld(infos)| by { Between(a, held, b); }
    FewerToCheck(disk.par2, AllHeld(infos), held);
    ghost var sa, s, sb := States(infos[..i]), infos[i].State(), States(infos[i + 1..]);
    StatesCount(infos);
    OneState(infos, i);
    infos[i].MaybeGetPxxs(disk, optimistic, fc);
    assert AllOk(infos[..i]) && AllOk(infos[i + 1..]);
    assert AllHeld(infos[..i]) == a && AllHeld(infos[i + 1..]) == b;
    assert States(infos[..i]) == sa && States(infos[i + 1..]) == sb;
    AllAgain(infos, i);
    OneState(infos, i);
    ItIsAsked(infos, i, disk, optimistic, sa, s, infos[i].State(), sb, old(fc.files), fc.files);
    OneChanged(FilesBag(fc.files), q, a, infos[i].Held(), held, b);
  }

  lemma Between<T>(a: multiset<T>, m: multiset<T>, b: multiset<T>)
    ensures |m| <= |a + m + b|
  {
    assert |a + m + b| == |a| + |m| + |b|;
  }

  lemma OneChanged<T>(q': multiset<T>, q: multiset<T>, a: multiset<T>, h': multiset<T>, h: multiset<T>, b: multiset<T>)
    requires q' + h' == q + h
    ensures q' + (a + h' + b) == q + (a + h + b)
  {
    forall x
      ensures (q' + (a + h' + b))[x] == (q + (a + h + b))[x]
    {
      assert (q' + h')[x] == (q + h)[x];
    }
  }

  lemma {:induction false} AllAgain(infos: seq<ParInfo>, i: nat)
    requires i < |infos| && infos[i].Ok() && AllOk(infos[..i]) && AllOk(infos[i + 1..])
    requires Objects(infos[..i]) !! {infos[i].par1info, infos[i].par2info}
    requires {infos[i].par1info, infos[i].par2info} !! Objects(infos[i + 1..])
    requires Objects(infos[..i]) !! Objects(infos[i + 1..])
    ensures Objects(infos) == Objects(infos[..i]) + {infos[i].par1info, infos[i].par2info} + Objects(infos[i + 1..])
    ensures AllOk(infos)
    ensures AllHeld(infos) == AllHeld(infos[..i]) + infos[i].Held() + AllHeld(infos[i + 1..])
  {
    hide ParInfo.Ok, ParInfo.Held;
    if i > 0 {
      assert infos[1..][..i - 1] == infos[..i][1..] && infos[1..][i..] == infos[i + 1..];
      AllAgain(infos[1..], i - 1);
    }
  }

  // How many queued files are for a path.
  method PathFilesLeft(q: seq<Queued>, path: string) returns (left: nat)
    ensures left == 0 <==> forall x :: x in q ==> x.path != path
  {
    left := 0;
    for k := 0 to |q|
      invariant left == 0 <==> forall j :: 0 <= j < k ==> q[j].path != path
    {
      if q[k].path == path { left := left + 1; }
    }
  }

  // ---------- files that are there already ----------

  // Behind a file just decoded: whether a queued file is one it was found to be.
  predicate Dupe(x: Queued, path: string, dupe: Queued -> bool) {
    x.dupecheck && x.path == path && dupe(x)
  }

  function Kept(q: seq<Queued>, path: string, dupe: Queued -> bool): seq<Queued> {
    if |q| == 0 then [] else Kept(q[..|q| - 1], path, dupe) + (if Dupe(q[|q| - 1], path, dupe) then [] else [q[|q| - 1]])
  }

  function Dupes(q: seq<Queued>, path: string, dupe: Queued -> bool): seq<Queued> {
    if |q| == 0 then [] else Dupes(q[..|q| - 1], path, dupe) + (if Dupe(q[|q| - 1], path, dupe) then [q[|q| - 1]] else [])
  }

  // Take the files that are there already out of the queue.
  method SkipDupes(q: seq<Queued>, path: string, dupe: Queued -> bool) returns (rest: seq<Queued>, skipped: seq<Queued>)
    ensures rest == Kept(q, path, dupe) && skipped == Dupes(q, path, dupe)
    ensures Splits(q, rest, skipped, path)
  {
    hide Dupe, Kept, Dupes, Splits;
    rest, skipped := q, [];
    var dfi := 0;
    ghost var i := 0;
    SkipStart(q, path, dupe);
    while dfi < |rest|
      invariant i <= |q| && dfi == |Kept(q[..i], path, dupe)|
      invariant rest == Kept(q[..i], path, dupe) + q[i..] && skipped == Dupes(q[..i], path, dupe)
      decreases |q| - i
    {
      SkipStep(q, i, path, dupe);
      Splice(rest, Kept(q[..i], path, dupe), q[i..], if Dupe(q[i], path, dupe) then [] else [q[i]]);
      if Dupe(rest[dfi], path, dupe) {
        skipped := skipped + [rest[dfi]];
        rest := rest[..dfi] + rest[dfi + 1..];
      } else {
        dfi := dfi + 1;
      }
      i := i + 1;
    }
    assert q[..i] == q && q[i..] == [];
    SkipSplits(q, path, dupe);
  }

  // A file is skipped exactly when it is to be checked, is for the path, and was found to be there.
  lemma {:induction false} KeptIs(q: seq<Queued>, path: string, dupe: Queued -> bool)
    ensures forall x :: x in Kept(q, path, dupe) ==> !(x.dupecheck && x.path == path && dupe(x))
    ensures forall x :: x in Dupes(q, path, dupe) ==> x.dupecheck && x.path == path && dupe(x)
  {
    if |q| > 0 { KeptIs(q[..|q| - 1], path, dupe); }
  }

  lemma SkipStart(q: seq<Queued>, path: string, dupe: Queued -> bool)
    ensures q[..0] == [] && q[0..] == q && Kept([], path, dupe) == [] && Dupes([], path, dupe) == [] && [] + q == q
  {
  }

  lemma SkipStep(q: seq<Queued>, i: nat, path: string, dupe: Queued -> bool)
    requires i < |q|
    ensures q[i..] == [q[i]] + q[i + 1..] && q[i..][1..] == q[i + 1..]
    ensures Kept(q[..i + 1], path, dupe) == Kept(q[..i], path, dupe) + (if Dupe(q[i], path, dupe) then [] else [q[i]])
    ensures Dupes(q[..i + 1], path, dupe) == Dupes(q[..i], path, dupe) + (if Dupe(q[i], path, dupe) then [q[i]] else [])
  {
    hide Dupe;
    assert q[..i + 1][..i] == q[..i];
  }

  // What a queue falls apart into: files to be kept, in order, and files skipped.
  ghost predicate Splits(q: seq<Queued>, kept: seq<Queued>, gone: seq<Queued>, path: string) {
    && FilesBag(kept) + FilesBag(gone) == FilesBag(q) && multiset(kept) + multiset(gone) == multiset(q)
    && (ByDate(q) ==> ByDate(kept))
    && (forall x :: x in gone ==> x.dupecheck && x.path == path)
  }

  // Skipping keeps the order; the files kept and the files skipped are the files there were; only files
  // to be checked are skipped.
  lemma {:induction false} SkipSplits(q: seq<Queued>, path: string, dupe: Queued -> bool)
    ensures Splits(q, Kept(q, path, dupe), Dupes(q, path, dupe), path)
  {
    hide Splits, Kept, Dupes;
    if |q| == 0 {
      SkipStart(q, path, dupe);
      NothingSplits(path);
      assert q == [];
    } else {
      var n := |q| - 1;
      SkipSplits(q[..n], path, dupe);
      SkipStep(q, n, path, dupe);
      assert q[..n + 1] == q && q == q[..n] + [q[n]];
      var k, d := Kept(q[..n], path, dupe), Dupes(q[..n], path, dupe);
      assert k + [] == k && d + [] == d;
      if Dupe(q[n], path, dupe) { GoneMore(q[..n], k, d, path, q[n]); } else { KeptMore(q[..n], k, d, path, q[n]); }
    }
  }

  lemma NothingSplits(path: string)
    ensures Splits([], [], [], path)
  {
  }

  lemma GoneMore(q: seq<Queued>, kept: seq<Queued>, gone: seq<Queued>, path: string, x: Queued)
    requires Splits(q, kept, gone, path) && x.dupecheck && x.path == path
    ensures Splits(q + [x], kept, gone + [x], path)
  {
    hide FilesBag;
    OneMoreFile(q, x);
    OneMoreFile(gone, x);
    ByDateFront(q, x);
  }

  lemma KeptMore(q: seq<Queued>, kept: seq<Queued>, gone: seq<Queued>, path: string, x: Queued)
    requires Splits(q, kept, gone, path)
    ensures Splits(q + [x], kept + [x], gone, path)
  {
    hide FilesBag, ByDate;
    OneMoreFile(q, x);
    OneMoreFile(kept, x);
    ByDateFront(q, x);
    if ByDate(q + [x]) {
      PartOf(q, kept, gone);
      ByDateMore(q, kept, x);
    }
  }

  lemma ByDateFront(q: seq<Queued>, x: Queued)
    ensures ByDate(q + [x]) ==> ByDate(q)
  {
    if ByDate(q + [x]) {
      forall i, j | 0 <= i < j < |q|
        ensures q[i].file.badate <= q[j].file.badate
      {
        assert (q + [x])[i] == q[i] && (q + [x])[j] == q[j];
      }
    }
  }

  lemma ByDateMore(q: seq<Queued>, kept: seq<Queued>, x: Queued)
    requires ByDate(q + [x]) && ByDate(kept) && forall y :: y in kept ==> y in q
    ensures ByDate(kept + [x])
  {
    forall i | 0 <= i < |kept|
      ensures kept[i].file.badate <= x.file.badate
    {
      assert kept[i] in kept;
      var j :| 0 <= j < |q| && q[j] == kept[i];
      assert (q + [x])[j] == kept[i] && (q + [x])[|q|] == x;
    }
  }

  lemma PartOf(q: seq<Queued>, kept: seq<Queued>, gone: seq<Queued>)
    requires multiset(kept) + multiset(gone) == multiset(q)
    ensures forall x :: x in kept || x in gone ==> x in q
    ensures |kept| + |gone| == |q|
    ensures forall x :: x in q ==> x in kept || x in gone
  {
    forall x
      ensures x in kept || x in gone <==> x in q
    {
      assert (multiset(kept) + multiset(gone))[x] == multiset(q)[x];
      assert x in q <==> multiset(q)[x] > 0;
      assert x in kept <==> multiset(kept)[x] > 0;
      assert x in gone <==> multiset(gone)[x] > 0;
    }
    assert |multiset(kept) + multiset(gone)| == |kept| + |gone|;
    assert |multiset(q)| == |q|;
  }

  lemma NoFilesYet()
    ensures FilesBag([]) == multiset{}
  {
  }

  lemma OneMoreFile(q: seq<Queued>, x: Queued)
    ensures FilesBag(q + [x]) == FilesBag(q) + multiset{x.file}
  {
    InsertedFiles(q, x, |q|);
    assert q[..|q|] + [x] + q[|q|..] == q + [x];
  }

  lemma {:induction false} FilesTogether(a: seq<Queued>, b: seq<Queued>)
    ensures FilesBag(a + b) == FilesBag(a) + FilesBag(b)
  {
    hide FilesBag;
    if |b| == 0 {
      assert a + b == a && b == [];
      NoFilesYet();
    } else {
      var n := |b| - 1;
      FilesTogether(a, b[..n]);
      assert a + b == (a + b[..n]) + [b[n]] && b == b[..n] + [b[n]];
      OneMoreFile(a + b[..n], b[n]);
      OneMoreFile(b[..n], b[n]);
    }
  }

  // ---------- the loop ----------

  // Files done with (retrieved or skipped), queued, and held by the handlers; the one being worked on is
  // still in the queue.
  ghost function Everything(done: seq<Queued>, q: seq<Queued>, working: bool, held: multiset<ServerFile>): multiset<ServerFile> {
    FilesBag(done) + FilesBag(if working && |q| > 0 then q[1..] else q) + held
  }

  // Only files queued in the beginning are to be checked for being there already.
  ghost predicate CheckedOnly(q: seq<Queued>, q0: seq<Queued>) {
    forall x :: x in q && x.dupecheck ==> x in q0
  }

  // Only files queued in the beginning, and to be checked, are skipped.
  ghost predicate SkippedOnly(gone: seq<Queued>, q0: seq<Queued>) {
    forall x :: x in gone ==> x.dupecheck && x in q0
  }

  // A path that has no files left has its handler asked; otherwise nothing changes.
  ghost predicate Turned(paths: seq<string>, path: string, disk: Disk, optimistic: bool, autopar: bool,
                         s0: seq<PathState>, s1: seq<PathState>, left: seq<Queued>, queue: seq<Queued>)
  {
    if autopar && forall x :: x in left ==> x.path != path then Asked(paths, path, disk, optimistic, s0, s1, left, queue)
    else s1 == s0 && queue == left
  }

  function DupeAt(dupe: (nat, Queued) -> bool, n: nat): Queued -> bool {
    x => dupe(n, x)
  }

  // One file's round: the file retrieved, the files skipped behind it, the files left, and what the handlers
  // hold and what is queued when it is over.
  datatype Round = Round(file: Queued, gone: seq<Queued>, left: seq<Queued>, after: seq<PathState>, queue: seq<Queued>)

  // What is given besides the queue: the paths with handlers, the disk and the checks at each file, the options.
  datatype Given = Given(paths: seq<string>, disk: (nat, string) -> Disk, dupe: (nat, Queued) -> bool, optimistic: bool, autopar: bool)

  // The n-th file is the first of the queue; what is there already is skipped, and the path has its turn.
  ghost predicate RoundOk(g: Given, n: nat, q: seq<Queued>, s: seq<PathState>, r: Round) {
    && |q| > 0 && r.file == q[0]
    && r.left == Kept(q[1..], q[0].path, DupeAt(g.dupe, n)) && r.gone == Dupes(q[1..], q[0].path, DupeAt(g.dupe, n))
    && Turned(g.paths, q[0].path, g.disk(n, q[0].path), g.optimistic, g.autopar, s, r.after, r.left, r.queue)
  }

  function QueueAfter(q0: seq<Queued>, rounds: seq<Round>, n: nat): seq<Queued>
    requires n <= |rounds|
  {
    if n == 0 then q0 else rounds[n - 1].queue
  }

  function StatesAfter(s0: seq<PathState>, rounds: seq<Round>, n: nat): seq<PathState>
    requires n <= |rounds|
  {
    if n == 0 then s0 else rounds[n - 1].after
  }

  ghost predicate Run(g: Given, q0: seq<Queued>, s0: seq<PathState>, rounds: seq<Round>) {
    forall k :: 0 <= k < |rounds| ==> RoundOk(g, k + 1, QueueAfter(q0, rounds, k), StatesAfter(s0, rounds, k), rounds[k])
  }

  function FilesOf(rounds: seq<Round>): seq<Queued> {
    if |rounds| == 0 then [] else FilesOf(rounds[..|rounds| - 1]) + [rounds[|rounds| - 1].file]
  }

  function GoneIn(rounds: seq<Round>): seq<Queued> {
    if |rounds| == 0 then [] else GoneIn(rounds[..|rounds| - 1]) + rounds[|rounds| - 1].gone
  }

  lemma RunMore(g: Given, q0: seq<Queued>, s0: seq<PathState>, rounds: seq<Round>, r: Round)
    requires Run(g, q0, s0, rounds)
    requires RoundOk(g, |rounds| + 1, QueueAfter(q0, rounds, |rounds|), StatesAfter(s0, rounds, |rounds|), r)
    ensures Run(g, q0, s0, rounds + [r])
    ensures QueueAfter(q0, rounds + [r], |rounds| + 1) == r.queue && StatesAfter(s0, rounds + [r], |rounds| + 1) == r.after
    ensures FilesOf(rounds + [r]) == FilesOf(rounds) + [r.file] && GoneIn(rounds + [r]) == GoneIn(rounds) + r.gone
  {
    hide RoundOk, QueueAfter, StatesAfter, FilesOf, GoneIn;
    var more := rounds + [r];
    forall k | 0 <= k < |more|
      ensures RoundOk(g, k + 1, QueueAfter(q0, more, k), StatesAfter(s0, more, k), more[k])
    {
      EarlierRounds(q0, s0, rounds, r, k);
      assert more[k] == if k < |rounds| then rounds[k] else r;
    }
    LastRound(q0, s0, rounds, r);
  }

  lemma EarlierRounds(q0: seq<Queued>, s0: seq<PathState>, rounds: seq<Round>, r: Round, k: nat)
    requires k <= |rounds|
    ensures QueueAfter(q0, rounds + [r], k) == QueueAfter(q0, rounds, k)
    ensures StatesAfter(s0, rounds + [r], k) == StatesAfter(s0, rounds, k)
  {
  }

  lemma LastRound(q0: seq<Queued>, s0: seq<PathState>, rounds: seq<Round>, r: Round)
    ensures QueueAfter(q0, rounds + [r], |rounds| + 1) == r.queue && StatesAfter(s0, rounds + [r], |rounds| + 1) == r.after
    ensures FilesOf(rounds + [r]) == FilesOf(rounds) + [r.file] && GoneIn(rounds + [r]) == GoneIn(rounds) + r.gone
  {
    assert (rounds + [r])[..|rounds|] == rounds;
  }

  // How far the loop is: between two rounds, or in the middle of one.
  ghost predicate InBetween(g: Given, q0: seq<Queued>, s0: seq<PathState>, rounds: seq<Round>, q: seq<Queued>, s: seq<PathState>,
                           retrieved: seq<Queued>, skipped: seq<Queued>)
  {
    && Run(g, q0, s0, rounds) && q == QueueAfter(q0, rounds, |rounds|) && s == StatesAfter(s0, rounds, |rounds|)
    && retrieved == FilesOf(rounds) && skipped == GoneIn(rounds)
  }

  ghost predicate Amid(g: Given, q0: seq<Queued>, s0: seq<PathState>, rounds: seq<Round>, q: seq<Queued>, s: seq<PathState>,
                       retrieved: seq<Queued>, skipped: seq<Queued>)
  {
    var q' := QueueAfter(q0, rounds, |rounds|);
    && Run(g, q0, s0, rounds) && s == StatesAfter(s0, rounds, |rounds|) && |q'| > 0
    && q == [q'[0]] + Kept(q'[1..], q'[0].path, DupeAt(g.dupe, |rounds| + 1)) && retrieved == FilesOf(rounds) + [q'[0]]
    && skipped == GoneIn(rounds) + Dupes(q'[1..], q'[0].path, DupeAt(g.dupe, |rounds| + 1))
  }

  lemma RunStart(g: Given, q0: seq<Queued>, s0: seq<PathState>)
    ensures InBetween(g, q0, s0, [], q0, s0, [], [])
  {
  }

  lemma NowAmid(g: Given, q0: seq<Queued>, s0: seq<PathState>, rounds: seq<Round>, q: seq<Queued>, s: seq<PathState>,
                retrieved: seq<Queued>, skipped: seq<Queued>)
    requires InBetween(g, q0, s0, rounds, q, s, retrieved, skipped) && |q| > 0
    ensures var f := DupeAt(g.dupe, |rounds| + 1);
      Amid(g, q0, s0, rounds, [q[0]] + Kept(q[1..], q[0].path, f), s, retrieved + [q[0]], skipped + Dupes(q[1..], q[0].path, f))
  {
    hide Run, Kept, Dupes, DupeAt, FilesOf, GoneIn;
  }

  lemma RunEnd(g: Given, q0: seq<Queued>, s0: seq<PathState>, rounds: seq<Round>, q: seq<Queued>, s: seq<PathState>,
               retrieved: seq<Queued>, skipped: seq<Queued>)
    requires InBetween(g, q0, s0, rounds, q, s, retrieved, skipped)
    ensures Run(g, q0, s0, rounds) && q == QueueAfter(q0, rounds, |rounds|) && s == StatesAfter(s0, rounds, |rounds|)
    ensures retrieved == FilesOf(rounds) && skipped == GoneIn(rounds)
  {
    hide Run, FilesOf, GoneIn, QueueAfter, StatesAfter;
  }

  lemma RoundOver(g: Given, q0: seq<Queued>, s0: seq<PathState>, rounds: seq<Round>, q: seq<Queued>, s: seq<PathState>,
                  retrieved: seq<Queued>, skipped: seq<Queued>, q1: seq<Queued>, s1: seq<PathState>)
    returns (r: Round)
    requires Amid(g, q0, s0, rounds, q, s, retrieved, skipped) && |q| > 0
    requires Turned(g.paths, q[0].path, g.disk(|rounds| + 1, q[0].path), g.optimistic, g.autopar, s, s1, q[1..], q1)
    ensures InBetween(g, q0, s0, rounds + [r], q1, s1, retrieved, skipped)
  {
    hide Run, Kept, Dupes, DupeAt, FilesOf, GoneIn, Turned;
    var q' := QueueAfter(q0, rounds, |rounds|);
    r := Round(q'[0], Dupes(q'[1..], q'[0].path, DupeAt(g.dupe, |rounds| + 1)), q[1..], s1, q1);
    assert q[1..] == Kept(q'[1..], q'[0].path, DupeAt(g.dupe, |rounds| + 1)) && q[0] == q'[0];
    RunMore(g, q0, s0, rounds, r);
  }

  // The file retrieved last leaves the queue.  If its path has no files left, its handler is asked.
  method Finished(infos: seq<ParInfo>, fc: FileQueue, disk: Disk, optimistic: bool, autopar: bool, ghost objects: set<ParXInfo>)
    requires objects == Objects(infos) && AllOk(infos) && ByDate(fc.files) && |fc.files| > 0
    requires autopar ==> AllHandled(fc.files, infos)
    requires LocalOk(disk.par2, AllHeld(infos)) && |AllHeld(infos)| <= Knapsack.INT_MAX
    modifies objects, fc
    ensures AllOk(infos) && ByDate(fc.files) && (autopar ==> AllHandled(fc.files, infos))
    ensures FilesBag(fc.files) + AllHeld(infos) == FilesBag(old(fc.files)[1..]) + old(AllHeld(infos))
    ensures FilesBag(old(fc.files)[1..]) <= FilesBag(fc.files)
    ensures forall x :: x in fc.files ==> x in old(fc.files) || !x.dupecheck
    ensures Turned(Paths(infos), old(fc.files)[0].path, disk, optimistic, autopar, old(States(infos)), States(infos),
                   old(fc.files)[1..], fc.files)
  {
    hide FilesBag, ByDate, LocalOk, AllHeld, AllOk, AllHandled, States, Asked, Paths;
    var fr := fc.files[0];
    Rest(fc.files, infos);
    fc.files := fc.files[1..];
    if autopar {
      var left := PathFilesLeft(fc.files, fr.path);
      if left == 0 {
        PathMaybeGetPxxs(infos, fr.path, disk, optimistic, fc, objects);
      }
    }
  }

  // Retrieve the queue, first file first.  When a path has no files left, more may be queued for it.
  // Behind each file retrieved, files queued for the same path that are to be checked may turn out to be
  // there already; they are skipped.
  //
  // Whatever turns up on disk meanwhile, this ends, and every file ends up retrieved, skipped or still
  // held, as often as it was there in the beginning.  Only files queued in the beginning, to be checked,
  // are skipped: a parity file never is.
  method RetrieveAll(infos: seq<ParInfo>, fc: FileQueue, disk: (nat, string) -> Disk, dupe: (nat, Queued) -> bool,
                     optimistic: bool, autopar: bool, ghost objects: set<ParXInfo>)
    returns (retrieved: seq<Queued>, skipped: seq<Queued>, ghost rounds: seq<Round>)
    requires objects == Objects(infos) && AllOk(infos) && ByDate(fc.files)
    requires autopar ==> AllHandled(fc.files, infos)
    requires forall n, path :: LocalOk(disk(n, path).par2, AllHeld(infos))
    requires |AllHeld(infos)| + |fc.files| <= Knapsack.INT_MAX
    modifies objects, fc
    ensures fc.files == [] && AllOk(infos)
    ensures FilesBag(retrieved) + FilesBag(skipped) + AllHeld(infos) == FilesBag(old(fc.files)) + old(AllHeld(infos))
    ensures SkippedOnly(skipped, old(fc.files))
    ensures Run(Given(Paths(infos), disk, dupe, optimistic, autopar), old(fc.files), old(States(infos)), rounds)
    ensures QueueAfter(old(fc.files), rounds, |rounds|) == []
    ensures StatesAfter(old(States(infos)), rounds, |rounds|) == States(infos)
    ensures retrieved == FilesOf(rounds) && skipped == GoneIn(rounds)
  {
    hide *;
    ghost var g := Given(Paths(infos), disk, dupe, optimistic, autopar);
    rounds := [];
    RunStart(g, fc.files, States(infos));
    retrieved, skipped := [], [];
    var working, n := false, 0;
    ghost var q0, held0, s0, done := fc.files, AllHeld(infos), States(infos), [];
    ghost var total := FilesBag(q0) + held0;
    NothingYet(q0, held0);
    while true
      invariant AllOk(infos) && ByDate(fc.files) && (autopar ==> AllHandled(fc.files, infos))
      invariant working ==> |fc.files| > 0
      invariant Everything(done, fc.files, working, AllHeld(infos)) == total && AllHeld(infos) <= held0
      invariant FilesBag(done) == FilesBag(retrieved) + FilesBag(skipped)
      invariant |AllHeld(infos)| + |fc.files| <= Knapsack.INT_MAX
      invariant CheckedOnly(fc.files, q0) && SkippedOnly(skipped, q0)
      invariant n == |rounds| + (if working then 1 else 0)
      invariant if working then Amid(g, q0, s0, rounds, fc.files, States(infos), retrieved, skipped)
                else InBetween(g, q0, s0, rounds, fc.files, States(infos), retrieved, skipped)
      decreases |AllHeld(infos)| + |fc.files|, if working then 0 else 1
    {
      if working {
        ghost var q, held, s := fc.files, AllHeld(infos), States(infos);
        FewerToCheck(disk(n, fc.files[0].path).par2, held0, held);
        Finished(infos, fc, disk(n, fc.files[0].path), optimistic, autopar, objects);
        working := false;
        ghost var r := RoundOver(g, q0, s0, rounds, q, s, retrieved, skipped, fc.files, States(infos));
        rounds := rounds + [r];
        Erased(done, q, held);
        SameTotal(done, q[1..], held, fc.files, AllHeld(infos));
        StillCheckedOnly(q, fc.files, q0);
      }
      if |fc.files| == 0 {
        AllDone(done, AllHeld(infos));
        RunEnd(g, q0, s0, rounds, fc.files, States(infos), retrieved, skipped);
        break;
      }
      var fr := fc.files[0];
      Working(done, fc.files, AllHeld(infos));
      NowAmid(g, q0, s0, rounds, fc.files, States(infos), retrieved, skipped);
      OneMoreFile(retrieved, fr);
      OneMoreFile(done, fr);
      retrieved, done := retrieved + [fr], done + [fr];
      working := true;
      n := n + 1;
      ghost var q := fc.files;
      var rest, gone := SkipDupes(fc.files[1..], fr.path, DupeAt(dupe, n));
      Skipped(done, q, rest, gone, fr.path, AllHeld(infos), infos, q0);
      SkippedMore(skipped, gone, q0);
      FilesTogether(skipped, gone);
      FilesTogether(done, gone);
      skipped, done := skipped + gone, done + gone;
      fc.files := [fr] + rest;
    }
  }

  lemma NothingYet(q: seq<Queued>, held: multiset<ServerFile>)
    ensures Everything([], q, false, held) == FilesBag(q) + held && FilesBag([]) == FilesBag([]) + FilesBag([])
    ensures CheckedOnly(q, q) && SkippedOnly([], q)
  {
  }

  lemma Rest(q: seq<Queued>, infos: seq<ParInfo>)
    requires ByDate(q) && |q| > 0
    ensures ByDate(q[1..])
    ensures AllHandled(q, infos) ==> AllHandled(q[1..], infos) && HasInfo(infos, q[0].path)
    ensures forall x :: x in q[1..] ==> x in q
  {
    hide HasInfo;
    assert q[0] in q;
    assert forall x :: x in q[1..] ==> x in q;
  }

  lemma Erased(done: seq<Queued>, q: seq<Queued>, held: multiset<ServerFile>)
    requires |q| > 0
    ensures Everything(done, q[1..], false, held) == Everything(done, q, true, held)
  {
  }

  lemma SameTotal(done: seq<Queued>, q0: seq<Queued>, held0: multiset<ServerFile>, q: seq<Queued>, held: multiset<ServerFile>)
    requires FilesBag(q) + held == FilesBag(q0) + held0 && FilesBag(q0) <= FilesBag(q)
    ensures Everything(done, q, false, held) == Everything(done, q0, false, held0)
    ensures |held| + |q| == |held0| + |q0| && held <= held0
  {
    var r := FilesBag(done);
    assert (r + FilesBag(q)) + held == r + (FilesBag(q) + held) && (r + FilesBag(q0)) + held0 == r + (FilesBag(q0) + held0);
    FilesCount(q);
    FilesCount(q0);
    assert |FilesBag(q) + held| == |FilesBag(q0) + held0|;
    Smaller(FilesBag(q), held, FilesBag(q0), held0);
  }

  lemma StillCheckedOnly(q: seq<Queued>, q': seq<Queued>, q0: seq<Queued>)
    requires CheckedOnly(q, q0) && forall x :: x in q' ==> x in q || !x.dupecheck
    ensures CheckedOnly(q', q0)
  {
  }

  lemma Working(done: seq<Queued>, q: seq<Queued>, held: multiset<ServerFile>)
    requires |q| > 0
    ensures Everything(done + [q[0]], q, true, held) == Everything(done, q, false, held)
  {
    OneMoreFile(done, q[0]);
    var r, f := FilesBag(done), multiset{q[0].file};
    assert FilesBag(q) == f + FilesBag(q[1..]);
    assert (r + f) + FilesBag(q[1..]) == r + (f + FilesBag(q[1..]));
  }

  // Files skipped while one is being worked on: they are done with, and nothing else changes.
  lemma Skipped(done: seq<Queued>, q: seq<Queued>, rest: seq<Queued>, gone: seq<Queued>, path: string,
                held: multiset<ServerFile>, infos: seq<ParInfo>, q0: seq<Queued>)
    requires |q| > 0 && Splits(q[1..], rest, gone, path) && ByDate(q)
    ensures Everything(done + gone, [q[0]] + rest, true, held) == Everything(done, q, true, held)
    ensures ByDate([q[0]] + rest) && |[q[0]] + rest| <= |q|
    ensures AllHandled(q, infos) ==> AllHandled([q[0]] + rest, infos)
    ensures CheckedOnly(q, q0) ==> CheckedOnly([q[0]] + rest, q0) && SkippedOnly(gone, q0)
  {
    hide FilesBag, HasInfo;
    Rest(q, infos);
    FilesTogether(done, gone);
    PartOf(q[1..], rest, gone);
    var all := [q[0]] + rest;
    assert all[1..] == rest && all[0] == q[0];
    assert forall x :: x in all ==> x in q;
    assert forall x :: x in gone ==> x in q;
    StillByDate(q, rest);
    hide ByDate;
    var d, g, r := FilesBag(done), FilesBag(gone), FilesBag(rest);
    assert (d + g) + r == d + (r + g);
  }

  lemma SkippedMore(a: seq<Queued>, b: seq<Queued>, q0: seq<Queued>)
    requires SkippedOnly(a, q0) && SkippedOnly(b, q0)
    ensures SkippedOnly(a + b, q0)
  {
  }

  lemma StillByDate(q: seq<Queued>, rest: seq<Queued>)
    requires |q| > 0 && ByDate(q) && ByDate(rest) && forall x :: x in rest ==> x in q[1..]
    ensures ByDate([q[0]] + rest)
  {
    var all := [q[0]] + rest;
    forall j | 0 < j < |all|
      ensures all[0].file.badate <= all[j].file.badate
    {
      assert all[j] == rest[j - 1] && rest[j - 1] in q[1..];
    }
  }

  lemma AllDone(done: seq<Queued>, held: multiset<ServerFile>)
    ensures Everything(done, [], false, held) == FilesBag(done) + held
  {
  }

  // So a file that was there once is retrieved or skipped at most once, and not both.
  lemma {:induction false} AtMostOnce(retrieved: seq<Queued>, skipped: seq<Queued>, held: multiset<ServerFile>, total: multiset<ServerFile>)
    requires FilesBag(retrieved) + FilesBag(skipped) + held == total && forall f :: f in total ==> total[f] == 1
    ensures var both := retrieved + skipped; forall i, j :: 0 <= i < j < |both| ==> both[i].file != both[j].file
  {
    var both := retrieved + skipped;
    FilesTogether(retrieved, skipped);
    forall i, j | 0 <= i < j < |both|
      ensures both[i].file != both[j].file
    {
      CountTwo(both, i, j);
      assert (FilesBag(both) + held)[both[i].file] <= 1;
    }
  }

  lemma {:induction false} CountOne(q: seq<Queued>, i: nat)
    requires i < |q|
    ensures FilesBag(q)[q[i].file] >= 1
  {
    if i > 0 { CountOne(q[1..], i - 1); }
  }

  lemma {:induction false} CountTwo(q: seq<Queued>, i: nat, j: nat)
    requires i < j < |q|
    ensures q[i].file == q[j].file ==> FilesBag(q)[q[i].file] >= 2
  {
    if i == 0 {
      CountOne(q[1..], j - 1);
    } else {
      CountTwo(q[1..], i - 1, j - 1);
    }
  }
}
