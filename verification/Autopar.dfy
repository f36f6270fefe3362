// Automatic retrieval of parity files: what is fetched beside the files asked for, until a path's
// files can be verified or nothing more helps.
module Autopar {
  import opened Common
  import opened ServerFiles
  import opened ParLists
  import opened RecoveryPackets
  import Knapsack

  // ---------- what subjects and the disk say ----------

  // What a subject looks like by itself.
  datatype Looks = NotPar | LooksPar(basename: string) | LooksPxx(basename: string)

  datatype Subjects = Subjects(textpost: ServerFile -> bool, complete: ServerFile -> bool, looks: ServerFile -> Looks)

  // A parity set found on disk: how many volumes or packets it still needs, and which it has.
  datatype LocalSet = LocalSet(key: string, needed: nat, have: set<nat>, ranges: Matcher, blocks: Estimate)

  // What is on disk in one path: the sets, and whether a subject goes with one of them, as an index
  // file (true) or as a volume.
  datatype Local = Local(index: ServerFile -> Option<bool>, sets: seq<LocalSet>)

  // No file held has two ranges that both bring packets a set does not have: one name of the set reads all
  // of these (OnceInAllListsIff).
  ghost predicate LocalOk(local: Local, held: multiset<ServerFile>) {
    forall k, f :: 0 <= k < |local.sets| && f in held ==> OneNews(local.sets[k].ranges(f), local.sets[k].have)
  }

  predicate Claimable(f: ServerFile, s: Subjects) {
    !s.textpost(f) && s.looks(f) != NotPar
  }

  ghost predicate SetsClaimable(ps: seq<NamedSet>, s: Subjects) {
    forall k, f :: 0 <= k < |ps| && f in ps[k].info.serverpars + ps[k].info.serverpxxs ==> Claimable(f, s)
  }

  // ---------- the sets no local file is known for ----------

  // The file has been added to the volumes, or to the index files, of a set.
  ghost predicate OneMore(i: ParSetInfo, j: ParSetInfo, f: ServerFile, pxx: bool) {
    if pxx then j.serverpars == i.serverpars && multiset(j.serverpxxs) == multiset(i.serverpxxs) + multiset{f}
    else j.serverpxxs == i.serverpxxs && multiset(j.serverpars) == multiset(i.serverpars) + multiset{f}
  }

  // It is set k that got the file: the one with the name, or a new one behind the others.
  ghost predicate AddedAt(ps: seq<NamedSet>, r: seq<NamedSet>, name: string, f: ServerFile, pxx: bool, k: nat) {
    && k < |r| && r[k].name == name
    && if k < |ps| then ps[k].name == name && r == ps[k := r[k]] && OneMore(ps[k].info, r[k].info, f, pxx)
       else
         && (forall j :: 0 <= j < |ps| ==> ps[j].name != name)
         && r == ps + [r[k]] && OneMore(ParSetInfo([], []), r[k].info, f, pxx)
  }

  ghost predicate AddedToSet(ps: seq<NamedSet>, r: seq<NamedSet>, name: string, f: ServerFile, pxx: bool) {
    exists k: nat :: AddedAt(ps, r, name, f, pxx, k)
  }

  method AddToSet(ps: seq<NamedSet>, name: string, f: ServerFile, pxx: bool, ghost s: Subjects) returns (r: seq<NamedSet>)
    requires SetsClaimable(ps, s) && Claimable(f, s)
    ensures SetsClaimable(r, s) && SetsBag(r) == SetsBag(ps) + multiset{f}
    ensures AddedToSet(ps, r, name, f, pxx)
  {
    hide SetsBag, Claimable, SetBag, SetsClaimable, OneMore, AddedAt;
    var k := 0;
    while k < |ps| && ps[k].name != name
      invariant 0 <= k <= |ps|
      invariant forall j :: 0 <= j < k ==> ps[j].name != name
    {
      k := k + 1;
    }
    r := ps;
    if k == |ps| {
      NewSet(ps, name);
      EmptyClaimable(ps, name, s);
      r := r + [EmptySet(name)];
    }
    var info := r[k].info;
    if pxx {
      var l := ListInsert(info.serverpxxs, f);
      info := info.(serverpxxs := l);
    } else {
      var l := ListInsert(info.serverpars, f);
      info := info.(serverpars := l);
    }
    ItIsOneMore(r[k].info, info, f, pxx);
    OneFileMore(r, k, NamedSet(name, info), f, pxx, s);
    ItIsAdded(ps, r, k, NamedSet(name, info), f, pxx);
    r := r[k := NamedSet(name, info)];
  }

  lemma EmptyClaimable(ps: seq<NamedSet>, name: string, s: Subjects)
    requires SetsClaimable(ps, s)
    ensures SetsClaimable(ps + [EmptySet(name)], s)
  {
  }

  lemma ItIsOneMore(i: ParSetInfo, j: ParSetInfo, f: ServerFile, pxx: bool)
    requires if pxx then j == i.(serverpxxs := j.serverpxxs) else j == i.(serverpars := j.serverpars)
    requires if pxx then multiset(j.serverpxxs) == multiset(i.serverpxxs) + multiset{f}
             else multiset(j.serverpars) == multiset(i.serverpars) + multiset{f}
    ensures OneMore(i, j, f, pxx)
  {
  }

  lemma ItIsAdded(ps: seq<NamedSet>, r: seq<NamedSet>, k: nat, n: NamedSet, f: ServerFile, pxx: bool)
    requires k <= |ps| && r == if k < |ps| then ps else ps + [EmptySet(n.name)]
    requires k < |ps| ==> ps[k].name == n.name
    requires forall j :: 0 <= j < k ==> ps[j].name != n.name
    requires OneMore(r[k].info, n.info, f, pxx)
    ensures AddedToSet(ps, r[k := n], n.name, f, pxx)
  {
    hide OneMore;
    assert AddedAt(ps, r[k := n], n.name, f, pxx, k);
  }

  lemma OneFileMore(ps: seq<NamedSet>, k: nat, n: NamedSet, f: ServerFile, pxx: bool, s: Subjects)
    requires k < |ps| && SetsClaimable(ps, s) && Claimable(f, s) && OneMore(ps[k].info, n.info, f, pxx)
    ensures SetsClaimable(ps[k := n], s) && SetsBag(ps[k := n]) == SetsBag(ps) + multiset{f}
  {
    hide SetsBag, Claimable;
    var i, j := ps[k].info, n.info;
    SetReplaced(ps, k, n);
    SetGrew(SetsBag(ps[k := n]), SetBag(i), SetsBag(ps), SetBag(j), f);
    if pxx {
      BagMembers(j.serverpxxs, i.serverpxxs, f);
    } else {
      BagMembers(j.serverpars, i.serverpars, f);
    }
  }

  lemma BagMembers(l: seq<ServerFile>, l0: seq<ServerFile>, f: ServerFile)
    requires multiset(l) == multiset(l0) + multiset{f}
    ensures forall x :: x in l ==> x in l0 || x == f
  {
    forall x | x in l
      ensures x in l0 || x == f
    {
      assert x in multiset(l);
    }
  }

  lemma SetGrew<T>(now: multiset<T>, s: multiset<T>, before: multiset<T>, s': multiset<T>, f: T)
    requires now + s == before + s' && s' == s + multiset{f}
    ensures now == before + multiset{f}
  {
    forall x
      ensures now[x] == (before + multiset{f})[x]
    {
      assert (now + s)[x] == (before + s')[x];
    }
  }

  function EmptySet(name: string): NamedSet {
    NamedSet(name, ParSetInfo([], []))
  }

  lemma {:induction false} NewSet(ps: seq<NamedSet>, name: string)
    ensures SetsBag(ps + [EmptySet(name)]) == SetsBag(ps)
  {
    var r := ps + [EmptySet(name)];
    if |ps| == 0 {
      assert r == [EmptySet(name)] && r[1..] == [];
      assert SetBag(EmptySet(name).info) == multiset{};
    } else {
      assert r[0] == ps[0] && r[1..] == ps[1..] + [EmptySet(name)];
      NewSet(ps[1..], name);
    }
    assert SetsBag(r) == SetsBag(ps);
  }

  // Take all volumes out of the sets.
  method ReleaseUnclaimed(ps: seq<NamedSet>, ghost s: Subjects) returns (r: seq<NamedSet>, unclaimed: seq<ServerFile>)
    requires SetsClaimable(ps, s)
    ensures SetsClaimable(r, s) && SetsBag(r) + multiset(unclaimed) == SetsBag(ps)
    ensures forall f :: f in unclaimed ==> Claimable(f, s)
    ensures |r| == |ps| && forall k :: 0 <= k < |r| ==> r[k].info.serverpxxs == []
    ensures multiset(unclaimed) == VolumesBag(ps)
  {
    hide SetsBag, Claimable, VolumesBag;
    r, unclaimed := ps, [];
    for k := 0 to |ps|
      invariant |r| == |ps| && r[k..] == ps[k..] && forall j :: 0 <= j < k ==> r[j].info.serverpxxs == []
      invariant SetsClaimable(r, s) && SetsBag(r) + multiset(unclaimed) == SetsBag(ps)
      invariant forall f :: f in unclaimed ==> Claimable(f, s)
      invariant VolumesBag(r) + multiset(unclaimed) == VolumesBag(ps)
    {
      assert r[k] == r[k..][0] == ps[k];
      var emptied := NamedSet(r[k].name, r[k].info.(serverpxxs := []));
      SetReplaced(r, k, emptied);
      Released(SetsBag(r[k := emptied]), SetBag(r[k].info), SetsBag(r), SetBag(emptied.info), multiset(r[k].info.serverpxxs),
               multiset(unclaimed), SetsBag(ps));
      VolumesReplaced(r, k, emptied);
      Released(VolumesBag(r[k := emptied]), multiset(r[k].info.serverpxxs), VolumesBag(r), multiset([]),
               multiset(r[k].info.serverpxxs), multiset(unclaimed), VolumesBag(ps));
      unclaimed := unclaimed + r[k].info.serverpxxs;
      r := r[k := emptied];
    }
    NoVolumesLeft(r);
  }

  lemma Released<T>(now: multiset<T>, s: multiset<T>, before: multiset<T>, s': multiset<T>, out: multiset<T>, un: multiset<T>, all: multiset<T>)
    requires now + s == before + s' && s == s' + out && before + un == all
    ensures now + (un + out) == all
  {
    forall x
      ensures (now + (un + out))[x] == all[x]
    {
      assert (now + s)[x] == (before + s')[x] && (before + un)[x] == all[x];
    }
  }

  // Each set has given its initial files.
  ghost predicate AllInitialGone(ps: seq<NamedSet>, r: seq<NamedSet>) {
    |r| == |ps| && forall k :: 0 <= k < |ps| ==> r[k].name == ps[k].name && InitialGone(ps[k].info, r[k].info)
  }

  // The initial files of all sets.
  method InitialOfSets(ps: seq<NamedSet>, path: string, fc: FileQueue, ghost s: Subjects) returns (r: seq<NamedSet>, count: nat)
    requires ByDate(fc.files) && SetsClaimable(ps, s)
    modifies fc
    ensures ByDate(fc.files) && FilesBag(fc.files) + SetsBag(r) == FilesBag(old(fc.files)) + SetsBag(ps)
    ensures FilesBag(old(fc.files)) <= FilesBag(fc.files)
    ensures |fc.files| == |old(fc.files)| + count && SetsClaimable(r, s)
    ensures forall x :: x in fc.files ==> x in old(fc.files) || Ours(x, path)
    ensures AllInitialGone(ps, r)
  {
    hide ByDate, FilesBag, SetsBag, SetBag, Claimable, InitialGone;
    r, count := ps, 0;
    for k := 0 to |ps|
      invariant |r| == |ps| && SetsClaimable(r, s)
      invariant forall j :: k <= j < |ps| ==> r[j] == ps[j]
      invariant forall j :: 0 <= j < k ==> r[j].name == ps[j].name && InitialGone(ps[j].info, r[j].info)
      invariant ByDate(fc.files) && FilesBag(fc.files) + SetsBag(r) == FilesBag(old(fc.files)) + SetsBag(ps)
      invariant FilesBag(old(fc.files)) <= FilesBag(fc.files)
      invariant |fc.files| == |old(fc.files)| + count
      invariant forall x :: x in fc.files ==> x in old(fc.files) || Ours(x, path)
    {
      ghost var before := fc.files;
      var info, n := SetInitialPars(r[k].info, path, fc);
      var named := NamedSet(r[k].name, info);
      SetReplaced(r, k, named);
      Passed(FilesBag(fc.files), SetsBag(r[k := named]), SetBag(r[k].info), FilesBag(before), SetsBag(r), SetBag(info),
             FilesBag(old(fc.files)) + SetsBag(ps));
      StillClaimable(r, k, named, s);
      r := r[k := named];
      count := count + n;
    }
  }

  lemma StillClaimable(ps: seq<NamedSet>, k: nat, n: NamedSet, s: Subjects)
    requires k < |ps| && SetsClaimable(ps, s) && n.info.serverpars == []
    requires multiset(n.info.serverpxxs) <= multiset(ps[k].info.serverpxxs)
    ensures SetsClaimable(ps[k := n], s)
  {
    hide Claimable;
    forall f | f in n.info.serverpxxs
      ensures f in ps[k].info.serverpxxs
    {
      assert f in multiset(n.info.serverpxxs);
    }
  }

  lemma Passed<T>(q': multiset<T>, ps': multiset<T>, s: multiset<T>, q: multiset<T>, ps: multiset<T>, s': multiset<T>, all: multiset<T>)
    requires ps' + s == ps + s' && q' + s' == q + s && q + ps == all
    ensures q' + ps' == all
  {
    forall x
      ensures (q' + ps')[x] == all[x]
    {
      assert (ps' + s)[x] == (ps + s')[x] && (q' + s')[x] == (q + s)[x] && (q + ps)[x] == all[x];
    }
  }

  // ---------- one kind of parity files in one path ----------

  function Four<T>(a: multiset<T>, b: multiset<T>, c: multiset<T>, d: multiset<T>): multiset<T> {
    a + b + c + d
  }

  lemma FourMore<T>(a: multiset<T>, b: multiset<T>, c: multiset<T>, d: multiset<T>, f: multiset<T>)
    ensures Four(a + f, b, c, d) == Four(a, b, c, d) + f
    ensures Four(a, b + f, c, d) == Four(a, b, c, d) + f
    ensures Four(a, b, c + f, d) == Four(a, b, c, d) + f
    ensures Four(a, b, c, d + f) == Four(a, b, c, d) + f
  {
  }

  lemma InitialSum<T>(q0: multiset<T>, q1: multiset<T>, q2: multiset<T>, pars: multiset<T>, pxxs: multiset<T>, extra: multiset<T>,
                      sets0: multiset<T>, sets: multiset<T>)
    requires q1 == q0 + pars && q2 + sets == q1 + sets0
    ensures q2 + Four(multiset([]), pxxs, extra, sets) == q0 + Four(pars, pxxs, extra, sets0)
  {
    forall x
      ensures (q2 + Four(multiset([]), pxxs, extra, sets))[x] == (q0 + Four(pars, pxxs, extra, sets0))[x]
    {
      assert q1[x] == (q0 + pars)[x] && (q2 + sets)[x] == (q1 + sets0)[x];
    }
  }

  // The lists of one kind.
  datatype Lists = Lists(pars: seq<ServerFile>, pxxs: seq<ServerFile>, extra: seq<ServerFile>, sets: seq<NamedSet>)

  // Where a wanted file is put: with the set on disk it matches, else with the set its subject names,
  // else with the incomplete files.
  ghost predicate PutInPlace(a: Lists, b: Lists, f: ServerFile, index: Option<bool>, looks: Looks) {
    match index
    case Some(true) => b == a.(pars := b.pars) && multiset(b.pars) == multiset(a.pars) + multiset{f}
    case Some(false) => b == a.(pxxs := b.pxxs) && multiset(b.pxxs) == multiset(a.pxxs) + multiset{f}
    case None =>
      match looks
      case LooksPar(basename) => b == a.(sets := b.sets) && AddedToSet(a.sets, b.sets, basename, f, false)
      case LooksPxx(basename) => b == a.(sets := b.sets) && AddedToSet(a.sets, b.sets, basename, f, true)
      case NotPar => b == a.(extra := b.extra) && multiset(b.extra) == multiset(a.extra) + multiset{f}
  }

  // All index files have been queued.
  ghost predicate IndexFilesGone(l: Lists) {
    l.pars == [] && forall k :: 0 <= k < |l.sets| ==> l.sets[k].info.serverpars == []
  }

  lemma SameIndexFiles(a: Lists, b: Lists)
    requires a.pars == b.pars && a.sets == b.sets
    ensures IndexFilesGone(a) <==> IndexFilesGone(b)
  {
  }

  // No volume kept with the sets matches a set on disk.
  ghost predicate Unclaimed(ps: seq<NamedSet>, index: ServerFile -> Option<bool>) {
    forall k, f :: 0 <= k < |ps| && f in ps[k].info.serverpxxs ==> index(f).None?
  }

  // Of the files in out, those that match an index file of a set on disk are with the index files, and those
  // that match a volume are with the volumes.
  ghost predicate Settled(l: Lists, r: Lists, out: multiset<ServerFile>, index: ServerFile -> Option<bool>) {
    && (forall f :: multiset(r.pars)[f] == multiset(l.pars)[f] + (if index(f) == Some(true) then out[f] else 0))
    && (forall f :: multiset(r.pxxs)[f] == multiset(l.pxxs)[f] + (if index(f) == Some(false) then out[f] else 0))
  }

  lemma SettledStart(l: Lists, r: Lists, index: ServerFile -> Option<bool>)
    requires r.pars == l.pars && r.pxxs == l.pxxs
    ensures Settled(l, r, multiset{}, index)
  {
  }

  lemma SettledMore(l: Lists, a: Lists, b: Lists, out: multiset<ServerFile>, f: ServerFile, index: ServerFile -> Option<bool>, looks: Looks)
    requires Settled(l, a, out, index) && PutInPlace(a, b, f, index(f), looks)
    ensures Settled(l, b, out + multiset{f}, index)
  {
    hide AddedToSet;
  }

  // The volumes kept with a set are those whose subjects name it.
  ghost predicate NamedRight(ps: seq<NamedSet>, s: Subjects) {
    forall k, f :: 0 <= k < |ps| && f in ps[k].info.serverpxxs ==> s.looks(f) == LooksPxx(ps[k].name)
  }

  lemma StillNamed(a: Lists, b: Lists, f: ServerFile, index: Option<bool>, s: Subjects)
    requires NamedRight(a.sets, s) && PutInPlace(a, b, f, index, s.looks(f))
    ensures NamedRight(b.sets, s)
  {
    if index.None? && !s.looks(f).NotPar? {
      var pxx := s.looks(f).LooksPxx?;
      var k: nat :| AddedAt(a.sets, b.sets, s.looks(f).basename, f, pxx, k);
      hide PutInPlace, AddedToSet;
      var i := if k < |a.sets| then a.sets[k].info else ParSetInfo([], []);
      if pxx { BagMembers(b.sets[k].info.serverpxxs, i.serverpxxs, f); }
      forall j, x | 0 <= j < |b.sets| && x in b.sets[j].info.serverpxxs
        ensures s.looks(x) == LooksPxx(b.sets[j].name)
      {
        if j != k { assert b.sets[j] == a.sets[j]; }
      }
    }
  }

  lemma NothingLeft(ps: seq<NamedSet>, index: ServerFile -> Option<bool>)
    requires forall k :: 0 <= k < |ps| ==> ps[k].info.serverpxxs == []
    ensures Unclaimed(ps, index) && forall s :: NamedRight(ps, s)
  {
  }

  lemma StillUnclaimed(a: Lists, b: Lists, f: ServerFile, index: ServerFile -> Option<bool>, s: Subjects)
    requires Unclaimed(a.sets, index) && Claimable(f, s) && PutInPlace(a, b, f, index(f), s.looks(f))
    ensures Unclaimed(b.sets, index) && b.extra == a.extra
  {
    if index(f).None? {
      var pxx := s.looks(f).LooksPxx?;
      var k: nat :| AddedAt(a.sets, b.sets, s.looks(f).basename, f, pxx, k);
      hide PutInPlace, AddedToSet;
      AddedUnclaimed(a.sets, b.sets, s.looks(f).basename, f, pxx, k, index);
    }
  }

  lemma AddedUnclaimed(ps: seq<NamedSet>, r: seq<NamedSet>, name: string, f: ServerFile, pxx: bool, k: nat, index: ServerFile -> Option<bool>)
    requires AddedAt(ps, r, name, f, pxx, k) && Unclaimed(ps, index) && index(f).None?
    ensures Unclaimed(r, index)
  {
    var i := if k < |ps| then ps[k].info else ParSetInfo([], []);
    if pxx { BagMembers(r[k].info.serverpxxs, i.serverpxxs, f); }
    forall j, x | 0 <= j < |r| && x in r[j].info.serverpxxs
      ensures index(x).None?
    {
      if j != k { assert r[j] == ps[j]; }
    }
  }

  // ---------- what is asked for ----------

  // The volumes, and the incomplete files with data, that requests draw on.
  datatype Offers = Offers(pxxs: seq<ServerFile>, extra: seq<ServerFile>)

  // One set's turn: what was on offer before and after, and what was queued.
  datatype Turn = Turn(before: Offers, after: Offers, added: nat, got: seq<ServerFile>,
                       listing: Listing, chosen: set<int>, vols: seq<nat>, nowhave: set<nat>)

  // The set was not asked for.
  ghost predicate PassedOver(t: Turn) {
    t.added == 0 && t.got == [] && t.after == t.before
  }

  // What the set needs was asked for, and what that says was queued.
  ghost predicate AskedFor(par2: bool, set_: LocalSet, optimistic: bool, t: Turn) {
    && multiset(t.after.pxxs) + multiset(t.after.extra) + multiset(t.got) == multiset(t.before.pxxs) + multiset(t.before.extra)
    && (t.added == 0 <==> t.got == []) && (t.added == 0 ==> t.after == t.before)
    && if par2 then
         Request(set_.needed, t.before.pxxs, t.before.extra, set_.ranges, set_.have, set_.blocks, optimistic,
                 t.added, t.got, t.listing, t.chosen)
       else
         && t.added == |t.got| && t.after.extra == t.before.extra
         && VolumeRequest(set_.needed, t.before.pxxs, set_.ranges, set_.have, optimistic, t.got, t.vols, t.after.pxxs, t.nowhave)
  }

  // Nothing on offer would bring the set anything.
  ghost predicate NothingToBring(par2: bool, set_: LocalSet, o: Offers) {
    if par2 then OnOffer(o.pxxs, set_.ranges) <= set_.have && Useful(o.extra, set_.blocks) == []
    else Offered(o.pxxs, set_.ranges) <= set_.have
  }

  lemma NothingQueued(par2: bool, set_: LocalSet, t: Turn)
    requires AskedFor(par2, set_, false, t) && t.added == 0 && set_.needed > 0
    ensures NothingToBring(par2, set_, t.after)
  {
    hide Request, VolumeRequest, OnOffer, Useful, Offered;
    if par2 {
      NoPackets(set_.needed, t.before.pxxs, t.before.extra, set_.ranges, set_.have, set_.blocks, t.got, t.listing, t.chosen);
    } else {
      NoVolumes(set_.needed, t.before.pxxs, set_.ranges, set_.have, t.vols, t.after.pxxs, t.nowhave);
    }
  }

  // The sets finished after the first n turns: those nothing was queued for.
  function FinishedAfter(finished: set<string>, sets: seq<LocalSet>, turns: seq<Turn>, n: nat): set<string>
    requires n <= |sets| && n <= |turns|
  {
    if n == 0 then finished
    else FinishedAfter(finished, sets, turns, n - 1) + (if turns[n - 1].added == 0 then {sets[n - 1].key} else {})
  }

  function OffersAfter(o: Offers, turns: seq<Turn>, n: nat): Offers
    requires n <= |turns|
  {
    if n == 0 then o else turns[n - 1].after
  }

  function TurnsBag(turns: seq<Turn>): multiset<ServerFile> {
    if |turns| == 0 then multiset{} else TurnsBag(turns[..|turns| - 1]) + multiset(turns[|turns| - 1].got)
  }

  // A set is asked for exactly when it needs something and is not finished.
  ghost predicate TurnOk(par2: bool, set_: LocalSet, optimistic: bool, finished: set<string>, o: Offers, t: Turn) {
    && t.before == o
    && if set_.needed > 0 && set_.key !in finished then AskedFor(par2, set_, optimistic, t) else PassedOver(t)
  }

  // Every set has had its turn.
  ghost predicate TurnsOk(par2: bool, sets: seq<LocalSet>, optimistic: bool, finished: set<string>, o: Offers, turns: seq<Turn>) {
    && |turns| <= |sets|
    && forall k :: 0 <= k < |turns| ==>
         TurnOk(par2, sets[k], optimistic, FinishedAfter(finished, sets, turns, k), OffersAfter(o, turns, k), turns[k])
  }

  lemma {:induction false} FinishedSame(finished: set<string>, sets: seq<LocalSet>, turns: seq<Turn>, t: Turn, n: nat)
    requires n <= |turns| <= |sets|
    ensures FinishedAfter(finished, sets, turns + [t], n) == FinishedAfter(finished, sets, turns, n)
  {
    if n > 0 { FinishedSame(finished, sets, turns, t, n - 1); }
  }

  lemma TurnMore(par2: bool, sets: seq<LocalSet>, optimistic: bool, finished: set<string>, o: Offers, turns: seq<Turn>, t: Turn)
    requires TurnsOk(par2, sets, optimistic, finished, o, turns) && |turns| < |sets|
    requires TurnOk(par2, sets[|turns|], optimistic, FinishedAfter(finished, sets, turns, |turns|), OffersAfter(o, turns, |turns|), t)
    ensures TurnsOk(par2, sets, optimistic, finished, o, turns + [t])
    ensures OffersAfter(o, turns + [t], |turns| + 1) == t.after && TurnsBag(turns + [t]) == TurnsBag(turns) + multiset(t.got)
    ensures FinishedAfter(finished, sets, turns + [t], |turns| + 1)
         == FinishedAfter(finished, sets, turns, |turns|) + (if t.added == 0 then {sets[|turns|].key} else {})
  {
    hide TurnOk, FinishedAfter, TurnsBag, OffersAfter;
    var more := turns + [t];
    forall k | 0 <= k < |more|
      ensures TurnOk(par2, sets[k], optimistic, FinishedAfter(finished, sets, more, k), OffersAfter(o, more, k), more[k])
    {
      FinishedSame(finished, sets, turns, t, k);
      OffersSame(o, turns, t, k);
      assert more[k] == if k < |turns| then turns[k] else t;
    }
    LastTurn(finished, sets, o, turns, t);
  }

  lemma OffersSame(o: Offers, turns: seq<Turn>, t: Turn, n: nat)
    requires n <= |turns|
    ensures OffersAfter(o, turns + [t], n) == OffersAfter(o, turns, n)
  {
  }

  lemma LastTurn(finished: set<string>, sets: seq<LocalSet>, o: Offers, turns: seq<Turn>, t: Turn)
    requires |turns| < |sets|
    ensures OffersAfter(o, turns + [t], |turns| + 1) == t.after
    ensures TurnsBag(turns + [t]) == TurnsBag(turns) + multiset(t.got)
    ensures FinishedAfter(finished, sets, turns + [t], |turns| + 1)
         == FinishedAfter(finished, sets, turns, |turns|) + (if t.added == 0 then {sets[|turns|].key} else {})
  {
    assert (turns + [t])[..|turns|] == turns;
    FinishedSame(finished, sets, turns, t, |turns|);
  }

  // What a handler of one kind holds, as values.
  datatype ParState = ParState(lists: Lists, finished: set<string>)

  function ListsBag(l: Lists): multiset<ServerFile> {
    Four(multiset(l.pars), multiset(l.pxxs), multiset(l.extra), SetsBag(l.sets))
  }

  // Volumes of unclaimed sets have been given another chance.
  ghost predicate Reclaimed(l: Lists, r: Lists, index: ServerFile -> Option<bool>) {
    && ListsBag(r) == ListsBag(l) && Unclaimed(r.sets, index) && r.extra == l.extra
    && Settled(l, r, VolumesBag(l.sets), index)
  }

  // The volumes in out have been put in their places, coming from l.
  ghost predicate Reclaiming(l: Lists, r: Lists, out: multiset<ServerFile>, index: ServerFile -> Option<bool>, s: Subjects) {
    Unclaimed(r.sets, index) && NamedRight(r.sets, s) && Settled(l, r, out, index) && r.extra == l.extra
  }

  lemma ReclaimingStart(l: Lists, r: Lists, index: ServerFile -> Option<bool>, s: Subjects)
    requires r == l.(sets := r.sets) && forall k :: 0 <= k < |r.sets| ==> r.sets[k].info.serverpxxs == []
    ensures Reclaiming(l, r, multiset{}, index, s)
  {
    NothingLeft(r.sets, index);
    SettledStart(l, r, index);
  }

  lemma ReclaimingMore(l: Lists, a: Lists, b: Lists, out: multiset<ServerFile>, f: ServerFile, index: ServerFile -> Option<bool>, s: Subjects)
    requires Reclaiming(l, a, out, index, s) && Claimable(f, s) && PutInPlace(a, b, f, index(f), s.looks(f))
    ensures Reclaiming(l, b, out + multiset{f}, index, s)
  {
    hide Unclaimed, NamedRight, Settled, PutInPlace, Claimable;
    StillUnclaimed(a, b, f, index, s);
    StillNamed(a, b, f, index(f), s);
    SettledMore(l, a, b, out, f, index, s.looks(f));
  }

  lemma ReclaimedIs(l: Lists, r: Lists, index: ServerFile -> Option<bool>, s: Subjects)
    requires ListsBag(r) == ListsBag(l) && Reclaiming(l, r, VolumesBag(l.sets), index, s)
    ensures Reclaimed(l, r, index) && NamedRight(r.sets, s)
  {
    hide Unclaimed, NamedRight, Settled, ListsBag, VolumesBag;
  }

  // The index files, and the initial files of sets without local files, have been queued.
  ghost predicate InitialQueued(r: Lists, m: Lists) {
    m.pars == [] && m.pxxs == r.pxxs && m.extra == r.extra && AllInitialGone(r.sets, m.sets)
  }

  // One round: reclaim, queue the initial files, and give every local set its turn.
  ghost predicate ServedBy(par2: bool, path: string, local: Local, optimistic: bool, s0: ParState, s1: ParState,
                           q0: seq<Queued>, q1: seq<Queued>, r: Lists, m: Lists, turns: seq<Turn>)
  {
    && Reclaimed(s0.lists, r, local.index) && InitialQueued(r, m)
    && |turns| == |local.sets| && TurnsOk(par2, local.sets, optimistic, s0.finished, Offers(m.pxxs, m.extra), turns)
    && s1.lists == m.(pxxs := s1.lists.pxxs, extra := s1.lists.extra)
    && Offers(s1.lists.pxxs, s1.lists.extra) == OffersAfter(Offers(m.pxxs, m.extra), turns, |turns|)
    && s1.finished == FinishedAfter(s0.finished, local.sets, turns, |turns|)
    && FilesBag(q1) + ListsBag(m) == FilesBag(q0) + ListsBag(r) + TurnsBag(turns)
    && (forall x :: x in q1 ==> x in q0 || Ours(x, path))
  }

  ghost predicate Served(par2: bool, path: string, local: Local, optimistic: bool, s0: ParState, s1: ParState,
                         q0: seq<Queued>, q1: seq<Queued>)
  {
    exists r: Lists, m: Lists, turns: seq<Turn> :: ServedBy(par2, path, local, optimistic, s0, s1, q0, q1, r, m, turns)
  }

  // PAR1 files, or PAR2 files.
  class ParXInfo {
    const path: string
    const par2: bool
    const subjects: Subjects
    var serverpars: seq<ServerFile>
    var serverpxxs: seq<ServerFile>
    var serverextradata: seq<ServerFile>
    var parsets: seq<NamedSet>
    var finished: set<string>
    var finishedOk: nat

    constructor (path: string, par2: bool, subjects: Subjects)
      ensures this.path == path && this.par2 == par2 && this.subjects == subjects
      ensures Valid() && Held() == multiset{} && finished == {}
    {
      this.path, this.par2, this.subjects := path, par2, subjects;
      serverpars, serverpxxs, serverextradata, parsets, finished, finishedOk := [], [], [], [], {}, 0;
    }

    // All files it holds.
    ghost function Held(): multiset<ServerFile>
      reads this`serverpars, this`serverpxxs, this`serverextradata, this`parsets
    {
      Four(multiset(serverpars), multiset(serverpxxs), multiset(serverextradata), SetsBag(parsets))
    }

    ghost function AllLists(): Lists
      reads this`serverpars, this`serverpxxs, this`serverextradata, this`parsets
    {
      Lists(serverpars, serverpxxs, serverextradata, parsets)
    }

    ghost function State(): ParState
      reads this`serverpars, this`serverpxxs, this`serverextradata, this`parsets, this`finished
    {
      ParState(AllLists(), finished)
    }

    ghost predicate Valid()
      reads this`parsets
    {
      SetsClaimable(parsets, subjects)
    }

    // Is the file one for this kind?
    predicate Wanted(f: ServerFile, wantIncomplete: bool, index: ServerFile -> Option<bool>) {
      && !subjects.textpost(f)
      && if par2 then index(f).Some? || subjects.looks(f) != NotPar || (!wantIncomplete && !subjects.complete(f))
         else (wantIncomplete || subjects.complete(f)) && (index(f).Some? || subjects.looks(f) != NotPar)
    }

    // Keep a file if it is wanted.
    method MaybeAddParfile(f: ServerFile, wantIncomplete: bool, index: ServerFile -> Option<bool>) returns (added: bool)
      requires Valid()
      modifies this
      ensures Valid() && added == Wanted(f, wantIncomplete, index)
      ensures added ==> !subjects.textpost(f)
      ensures !subjects.textpost(f) && par2 ==>
        (added <==> index(f).Some? || !subjects.looks(f).NotPar? || !(wantIncomplete || subjects.complete(f)))
      ensures !subjects.textpost(f) && !par2 ==>
        (added <==> (wantIncomplete || subjects.complete(f)) && (index(f).Some? || !subjects.looks(f).NotPar?))
      ensures Held() == if added then old(Held()) + multiset{f} else old(Held())
      ensures if added then PutInPlace(old(AllLists()), AllLists(), f, index(f), subjects.looks(f)) else AllLists() == old(AllLists())
      ensures finished == old(finished) && finishedOk == old(finishedOk)
    {
      hide SetsBag, SetsClaimable, Four, AddedToSet;
      FourMore(multiset(serverpars), multiset(serverpxxs), multiset(serverextradata), SetsBag(parsets), multiset{f});
      if subjects.textpost(f) { return false; }
      if !par2 && !wantIncomplete && !subjects.complete(f) { return false; }
      match index(f) {
        case Some(true) =>
          serverpars := ListInsert(serverpars, f);
          return true;
        case Some(false) =>
          serverpxxs := ListInsert(serverpxxs, f);
          return true;
        case None =>
      }
      match subjects.looks(f) {
        case LooksPar(basename) =>
          parsets := AddToSet(parsets, basename, f, false, subjects);
          return true;
        case LooksPxx(basename) =>
          parsets := AddToSet(parsets, basename, f, true, subjects);
          return true;
        case NotPar =>
      }
      if par2 && !wantIncomplete && !subjects.complete(f) {
        serverextradata := ListInsert(serverextradata, f);
        return true;
      }
      return false;
    }

    // All index files known, and the initial files of sets no local file is known for.
    method GetInitialPars(fc: FileQueue) returns (count: nat)
      requires Valid() && ByDate(fc.files)
      modifies this, fc
      ensures Valid() && ByDate(fc.files) && FilesBag(fc.files) + Held() == FilesBag(old(fc.files)) + old(Held())
      ensures FilesBag(old(fc.files)) <= FilesBag(fc.files)
      ensures |fc.files| == |old(fc.files)| + count && serverpars == []
      ensures forall x :: x in fc.files ==> x in old(fc.files) || Ours(x, path)
      ensures finished == old(finished) && finishedOk == old(finishedOk) && serverpxxs == old(serverpxxs)
      ensures InitialQueued(old(AllLists()), AllLists())
    {
      hide SetsBag, SetsClaimable, FilesBag, ByDate, Four, InitialGone;
      ghost var q0, sets0 := FilesBag(fc.files), SetsBag(parsets);
      count := AddAll(serverpars, path, fc);
      ghost var pars0, q1 := multiset(serverpars), FilesBag(fc.files);
      serverpars := [];
      var n;
      parsets, n := InitialOfSets(parsets, path, fc, subjects);
      InitialSum(q0, q1, FilesBag(fc.files), pars0, multiset(serverpxxs), multiset(serverextradata), sets0, SetsBag(parsets));
      count := count + n;
    }
  
    // Give the volumes of unclaimed sets another chance: a local file may have shown up since.
    method Reclaim(index: ServerFile -> Option<bool>)
      requires Valid()
      modifies this
      ensures Valid() && Held() == old(Held()) && finished == old(finished) && finishedOk == old(finishedOk)
      ensures Reclaimed(old(AllLists()), AllLists(), index) && NamedRight(parsets, subjects)
    {
      hide *;
      ghost var l := AllLists();
      StateIs();
      var unclaimed := Release();
      StateIs();
      ReclaimingStart(l, AllLists(), index, subjects);
      assert unclaimed[..0] == [] && unclaimed[0..] == unclaimed;
      for k := 0 to |unclaimed|
        invariant Valid() && finished == old(finished) && finishedOk == old(finishedOk)
        invariant Reclaiming(l, AllLists(), multiset(unclaimed[..k]), index, subjects)
        invariant Held() + multiset(unclaimed[k..]) == old(Held())
      {
        var f := unclaimed[k];
        assert unclaimed[k..] == [f] + unclaimed[k + 1..] && unclaimed[..k + 1] == unclaimed[..k] + [f];
        ClaimableWanted(f, index);
        ghost var before := AllLists();
        var r := MaybeAddParfile(f, true, index);
        assert r;
        ReclaimingMore(l, before, AllLists(), multiset(unclaimed[..k]), f, index, subjects);
      }
      assert unclaimed[..|unclaimed|] == unclaimed;
      StateIs();
      ReclaimedIs(l, AllLists(), index, subjects);
    }

    lemma ClaimableWanted(f: ServerFile, index: ServerFile -> Option<bool>)
      requires Claimable(f, subjects)
      ensures Wanted(f, true, index)
    {
    }

    method Release() returns (unclaimed: seq<ServerFile>)
      requires Valid()
      modifies this`parsets
      ensures Valid() && Held() + multiset(unclaimed) == old(Held())
      ensures forall k :: 0 <= k < |unclaimed| ==> Claimable(unclaimed[k], subjects)
      ensures forall k :: 0 <= k < |parsets| ==> parsets[k].info.serverpxxs == []
      ensures multiset(unclaimed) == VolumesBag(old(parsets))
    {
      hide SetsBag, SetsClaimable, Four, Claimable, VolumesBag;
      parsets, unclaimed := ReleaseUnclaimed(parsets, subjects);
      FourMore(multiset(serverpars), multiset(serverpxxs), multiset(serverextradata), SetsBag(parsets), multiset(unclaimed));
    }

    // Ask for what one local set needs.
    method Ask(set_: LocalSet, optimistic: bool, fc: FileQueue) returns (added: nat, ghost t: Turn)
      requires Valid() && ByDate(fc.files) && set_.needed > 0
      requires par2 ==> |serverpxxs| <= Knapsack.INT_MAX && Once(serverpxxs, set_.ranges, set_.have)
      modifies this, fc
      ensures Valid() && ByDate(fc.files) && FilesBag(fc.files) + Held() == FilesBag(old(fc.files)) + old(Held())
      ensures |fc.files| >= |old(fc.files)| && (added == 0 <==> |fc.files| == |old(fc.files)|)
      ensures forall x :: x in fc.files ==> x in old(fc.files) || Ours(x, path)
      ensures finished == old(finished) && finishedOk == old(finishedOk)
      ensures |serverpxxs| <= |old(serverpxxs)| && multiset(serverpxxs) <= multiset(old(serverpxxs))
      ensures serverpars == old(serverpars) && parsets == old(parsets)
      ensures FilesBag(fc.files) == FilesBag(old(fc.files)) + multiset(t.got)
      ensures t.before == Offers(old(serverpxxs), old(serverextradata)) && t.after == Offers(serverpxxs, serverextradata)
      ensures t.added == added && AskedFor(par2, set_, optimistic, t)
    {
      hide SetsBag, SetsClaimable, FilesBag, ByDate, Four, Once, Request, Taken, Offered, VolumeRequest, Volumes;
      ghost var q0 := FilesBag(fc.files);
      ghost var before := Offers(serverpxxs, serverextradata);
      ghost var got, listing, chosen, vols, nowhave := [], Listing([], [], [], {}), {}, [], {};
      if par2 {
        added, serverpxxs, serverextradata, got, listing, chosen :=
          GetRecoveryPackets(set_.needed, set_.have, set_.ranges, set_.blocks, optimistic, serverpxxs, serverextradata, path, fc);
      } else {
        var havevols;
        added, serverpxxs, havevols, got, vols := GetPxxs(set_.needed, set_.have, set_.ranges, optimistic, serverpxxs, path, fc);
        nowhave := havevols;
        FewerLeft(serverpxxs, got, before.pxxs);
      }
      t := Turn(before, Offers(serverpxxs, serverextradata), added, got, listing, chosen, vols, nowhave);
      AskedIs(par2, set_, optimistic, t);
      AskSum(q0, FilesBag(fc.files), multiset(got), multiset(serverpars), multiset(before.pxxs), multiset(serverpxxs),
             multiset(before.extra), multiset(serverextradata), SetsBag(parsets));
    }

    // One round for this path: index files and unclaimed volumes go to the sets they belong to, then
    // every set not finished is asked for what it needs.  Files only move from the lists to the queue.
    // When nothing was queued, and not for being optimistic, nothing left would bring any of the sets anything.
    method MaybeGetPxxs(local: Local, optimistic: bool, fc: FileQueue) returns (total: nat)
      requires Valid() && ByDate(fc.files)
      requires par2 ==> LocalOk(local, Held()) && |Held()| <= Knapsack.INT_MAX
      modifies this, fc
      ensures Valid() && ByDate(fc.files) && FilesBag(fc.files) + Held() == FilesBag(old(fc.files)) + old(Held())
      ensures FilesBag(old(fc.files)) <= FilesBag(fc.files)
      ensures |fc.files| >= |old(fc.files)| && (total == 0 <==> |fc.files| == |old(fc.files)|)
      ensures forall x :: x in fc.files ==> x in old(fc.files) || Ours(x, path)
      ensures IndexFilesGone(AllLists())
      ensures finished >= old(finished)
      ensures forall k :: 0 <= k < |local.sets| && local.sets[k].needed == 0 ==> local.sets[k].key in finished
      ensures total == 0 ==> forall k :: 0 <= k < |local.sets| ==> local.sets[k].key in finished
      ensures Served(par2, path, local, optimistic, old(State()), State(), old(fc.files), fc.files)
      ensures total == 0 && !optimistic ==>
        Exhausted(par2, local.sets, old(finished), Offers(serverpxxs, serverextradata))
    {
      hide *;
      ghost var s0, q0 := State(), fc.files;
      StateIs();
      Reclaim(local.index);
      StateIs();
      ghost var r, held := AllLists(), Held();
      total := GetInitialPars(fc);
      StateIs();
      ghost var m := AllLists();
      InitialIs(r, m);
      FewerHeld(q0, held, fc.files, Held());
      if par2 { FewerToCheck(local, held, Held()); }
      ghost var q1 := fc.files;
      var added;
      ghost var turns;
      added, turns := AskEach(local, optimistic, fc);
      total := total + added;
      StateIs();
      QueueSum(FilesBag(fc.files), FilesBag(q1), TurnsBag(turns), ListsBag(m), FilesBag(q0), ListsBag(r));
      ServedIs(par2, path, local, optimistic, s0, State(), q0, fc.files, r, m, turns);
      if total == 0 && !optimistic {
        AllTurnsIdle(par2, local.sets, s0.finished, Offers(m.pxxs, m.extra), turns);
      }
    }

    // Every local set has its turn.
    method AskEach(local: Local, optimistic: bool, fc: FileQueue) returns (total: nat, ghost turns: seq<Turn>)
      requires Valid() && ByDate(fc.files) && IndexFilesGone(AllLists())
      requires par2 ==> LocalOk(local, Held()) && |Held()| <= Knapsack.INT_MAX
      modifies this, fc
      ensures Valid() && ByDate(fc.files) && FilesBag(fc.files) + Held() == FilesBag(old(fc.files)) + old(Held())
      ensures FilesBag(old(fc.files)) <= FilesBag(fc.files)
      ensures |fc.files| >= |old(fc.files)| && (total == 0 <==> |fc.files| == |old(fc.files)|)
      ensures forall x :: x in fc.files ==> x in old(fc.files) || Ours(x, path)
      ensures IndexFilesGone(AllLists()) && finished >= old(finished)
      ensures forall k :: 0 <= k < |local.sets| && local.sets[k].needed == 0 ==> local.sets[k].key in finished
      ensures total == 0 ==> forall k :: 0 <= k < |local.sets| ==> local.sets[k].key in finished
      ensures |turns| == |local.sets|
      ensures TurnsOk(par2, local.sets, optimistic, old(finished), Offers(old(serverpxxs), old(serverextradata)), turns)
      ensures Offers(serverpxxs, serverextradata)
           == OffersAfter(Offers(old(serverpxxs), old(serverextradata)), turns, |turns|)
      ensures finished == FinishedAfter(old(finished), local.sets, turns, |turns|)
      ensures AllLists() == old(AllLists()).(pxxs := serverpxxs, extra := serverextradata)
      ensures FilesBag(fc.files) == FilesBag(old(fc.files)) + TurnsBag(turns)
      ensures total == 0 ==> forall k :: 0 <= k < |turns| ==> turns[k].added == 0
    {
      hide *;
      ghost var o, finished0, q0 := Offers(serverpxxs, serverextradata), finished, FilesBag(fc.files);
      ghost var pxxs, held := multiset(serverpxxs), Held();
      StateIs();
      PxxsWithin();
      total, turns := 0, [];
      TurnsStart(par2, local.sets, optimistic, finished, o);
      for k := 0 to |local.sets|
        invariant Valid() && ByDate(fc.files) && FilesBag(fc.files) + Held() == FilesBag(old(fc.files)) + old(Held())
        invariant FilesBag(old(fc.files)) <= FilesBag(fc.files) && multiset(serverpxxs) <= pxxs
        invariant |fc.files| >= |old(fc.files)| && (total == 0 <==> |fc.files| == |old(fc.files)|)
        invariant forall x :: x in fc.files ==> x in old(fc.files) || Ours(x, path)
        invariant par2 ==> |serverpxxs| <= Knapsack.INT_MAX
        invariant finished >= old(finished)
        invariant forall j :: 0 <= j < k && local.sets[j].needed == 0 ==> local.sets[j].key in finished
        invariant total == 0 ==> forall j :: 0 <= j < k ==> local.sets[j].key in finished
        invariant |turns| == k && TurnsOk(par2, local.sets, optimistic, finished0, o, turns)
        invariant Offers(serverpxxs, serverextradata) == OffersAfter(o, turns, k)
        invariant finished == FinishedAfter(finished0, local.sets, turns, k)
        invariant AllLists() == old(AllLists()).(pxxs := serverpxxs, extra := serverextradata)
        invariant FilesBag(fc.files) == q0 + TurnsBag(turns)
        invariant total == 0 ==> forall j :: 0 <= j < k ==> turns[j].added == 0
      {
        if par2 { SetOnce(local, k, held, pxxs, serverpxxs); }
        var added;
        ghost var t;
        added, t := OneSet(local.sets[k], optimistic, fc);
        TurnMore(par2, local.sets, optimistic, finished0, o, turns, t);
        turns := turns + [t];
        total := total + added;
      }
      SameIndexFiles(old(AllLists()), AllLists());
    }

    // Deal with one local set: skip it when finished, ask for what it needs, or note it as done.
    method OneSet(set_: LocalSet, optimistic: bool, fc: FileQueue) returns (added: nat, ghost t: Turn)
      requires Valid() && ByDate(fc.files)
      requires par2 ==> |serverpxxs| <= Knapsack.INT_MAX && Once(serverpxxs, set_.ranges, set_.have)
      modifies this, fc
      ensures Valid() && ByDate(fc.files) && FilesBag(fc.files) + Held() == FilesBag(old(fc.files)) + old(Held())
      ensures FilesBag(old(fc.files)) <= FilesBag(fc.files) && multiset(serverpxxs) <= multiset(old(serverpxxs))
      ensures |fc.files| >= |old(fc.files)| && (added == 0 <==> |fc.files| == |old(fc.files)|)
      ensures forall x :: x in fc.files ==> x in old(fc.files) || Ours(x, path)
      ensures |serverpxxs| <= |old(serverpxxs)| && (IndexFilesGone(AllLists()) <==> IndexFilesGone(old(AllLists())))
      ensures finished == old(finished) + if added == 0 then {set_.key} else {}
      ensures finishedOk == old(finishedOk) + (if set_.key !in old(finished) && set_.needed == 0 then 1 else 0)
      ensures set_.key in old(finished) || set_.needed == 0 ==> added == 0
      ensures AllLists() == old(AllLists()).(pxxs := serverpxxs, extra := serverextradata)
      ensures FilesBag(fc.files) == FilesBag(old(fc.files)) + multiset(t.got) && t.added == added
      ensures t.after == Offers(serverpxxs, serverextradata)
      ensures TurnOk(par2, set_, optimistic, old(finished), Offers(old(serverpxxs), old(serverextradata)), t)
    {
      hide SetsBag, SetsClaimable, FilesBag, ByDate, Four, Once, Held, Valid, IndexFilesGone, AskedFor;
      ghost var now := Offers(serverpxxs, serverextradata);
      t := Turn(now, now, 0, [], Listing([], [], [], {}), {}, [], {});
      if set_.key in finished { return 0, t; }
      if set_.needed > 0 {
        ghost var before := AllLists();
        added, t := Ask(set_, optimistic, fc);
        SameIndexFiles(before, AllLists());
        if added == 0 {
          finished := finished + {set_.key};
        }
      } else {
        added := 0;
        finished := finished + {set_.key};
        finishedOk := finishedOk + 1;
      }
    }

    lemma StateIs()
      ensures State() == ParState(AllLists(), finished) && Held() == ListsBag(AllLists())
      ensures AllLists() == Lists(serverpars, serverpxxs, serverextradata, parsets)
    {
    }

    lemma PxxsWithin()
      ensures |serverpxxs| <= |Held()| && multiset(serverpxxs) <= Held()
    {
      assert |multiset(serverpxxs)| == |serverpxxs|;
      assert |Held()| == |multiset(serverpars)| + |multiset(serverpxxs)| + |multiset(serverextradata)| + |SetsBag(parsets)|;
    }
  }

  // The set needs something, is not finished, and is the first with its key.
  predicate NeedsMore(sets: seq<LocalSet>, k: nat, finished: set<string>)
    requires k < |sets|
  {
    sets[k].needed > 0 && sets[k].key !in finished && forall j :: 0 <= j < k ==> sets[j].key != sets[k].key
  }

  // Nothing on offer would bring anything to a set that needs something.
  ghost predicate Exhausted(par2: bool, sets: seq<LocalSet>, finished: set<string>, o: Offers) {
    forall k :: 0 <= k < |sets| && NeedsMore(sets, k, finished) ==> NothingToBring(par2, sets[k], o)
  }

  lemma AskedIs(par2: bool, set_: LocalSet, optimistic: bool, t: Turn)
    requires multiset(t.after.pxxs) + multiset(t.after.extra) + multiset(t.got) == multiset(t.before.pxxs) + multiset(t.before.extra)
    requires (t.added == 0 <==> |t.got| == 0) && (t.added == 0 ==> t.after == t.before)
    requires par2 ==> Request(set_.needed, t.before.pxxs, t.before.extra, set_.ranges, set_.have, set_.blocks, optimistic,
                              t.added, t.got, t.listing, t.chosen)
    requires !par2 ==> t.added == |t.got| && t.after.extra == t.before.extra
    requires !par2 ==> VolumeRequest(set_.needed, t.before.pxxs, set_.ranges, set_.have, optimistic, t.got, t.vols,
                                     t.after.pxxs, t.nowhave)
    ensures AskedFor(par2, set_, optimistic, t)
  {
    hide Request, VolumeRequest;
  }

  lemma InitialIs(r: Lists, m: Lists)
    requires InitialQueued(r, m)
    ensures IndexFilesGone(m) && m.pxxs == r.pxxs && m.extra == r.extra
  {
  }

  lemma TurnsStart(par2: bool, sets: seq<LocalSet>, optimistic: bool, finished: set<string>, o: Offers)
    ensures TurnsOk(par2, sets, optimistic, finished, o, []) && OffersAfter(o, [], 0) == o
    ensures FinishedAfter(finished, sets, [], 0) == finished && TurnsBag([]) == multiset{}
  {
  }

  lemma QueueSum<T>(q2: multiset<T>, q1: multiset<T>, turns: multiset<T>, m: multiset<T>, q0: multiset<T>, r: multiset<T>)
    requires q2 == q1 + turns && q1 + m == q0 + r
    ensures q2 + m == q0 + r + turns
  {
    forall x
      ensures (q2 + m)[x] == (q0 + r + turns)[x]
    {
      assert (q1 + m)[x] == (q0 + r)[x];
    }
  }

  lemma ServedIs(par2: bool, path: string, local: Local, optimistic: bool, s0: ParState, s1: ParState,
                 q0: seq<Queued>, q1: seq<Queued>, r: Lists, m: Lists, turns: seq<Turn>)
    requires Reclaimed(s0.lists, r, local.index) && InitialQueued(r, m)
    requires |turns| == |local.sets| && TurnsOk(par2, local.sets, optimistic, s0.finished, Offers(m.pxxs, m.extra), turns)
    requires s1.lists == m.(pxxs := s1.lists.pxxs, extra := s1.lists.extra)
    requires Offers(s1.lists.pxxs, s1.lists.extra) == OffersAfter(Offers(m.pxxs, m.extra), turns, |turns|)
    requires s1.finished == FinishedAfter(s0.finished, local.sets, turns, |turns|)
    requires FilesBag(q1) + ListsBag(m) == FilesBag(q0) + ListsBag(r) + TurnsBag(turns)
    requires forall x :: x in q1 ==> x in q0 || Ours(x, path)
    ensures Served(par2, path, local, optimistic, s0, s1, q0, q1)
  {
    hide Reclaimed, InitialQueued, TurnsOk, OffersAfter, FinishedAfter, FilesBag, ListsBag, TurnsBag, Ours;
    assert ServedBy(par2, path, local, optimistic, s0, s1, q0, q1, r, m, turns);
  }

  lemma TurnIs(par2: bool, sets: seq<LocalSet>, optimistic: bool, finished: set<string>, o: Offers, turns: seq<Turn>, k: nat)
    requires TurnsOk(par2, sets, optimistic, finished, o, turns) && k < |turns|
    ensures TurnOk(par2, sets[k], optimistic, FinishedAfter(finished, sets, turns, k), OffersAfter(o, turns, k), turns[k])
  {
    hide TurnOk, OffersAfter, FinishedAfter;
  }

  lemma IdleTurn(par2: bool, set_: LocalSet, optimistic: bool, t: Turn)
    requires t.added == 0 && (AskedFor(par2, set_, optimistic, t) || PassedOver(t))
    ensures t.after == t.before
  {
    hide Request, VolumeRequest;
  }

  // When nothing was queued the offers are as they were, and nothing on offer would bring anything.
  lemma AllTurnsIdle(par2: bool, sets: seq<LocalSet>, finished: set<string>, o: Offers, turns: seq<Turn>)
    requires TurnsOk(par2, sets, false, finished, o, turns) && |turns| == |sets|
    requires forall k :: 0 <= k < |turns| ==> turns[k].added == 0
    ensures Exhausted(par2, sets, finished, OffersAfter(o, turns, |turns|))
  {
    hide NothingToBring, NeedsMore, TurnsOk, AskedFor, PassedOver, FinishedAfter, OffersAfter;
    IdleOffers(par2, sets, finished, o, turns, |turns|);
    forall k | 0 <= k < |sets| && NeedsMore(sets, k, finished)
      ensures NothingToBring(par2, sets[k], OffersAfter(o, turns, |turns|))
    {
      StillWanted(finished, sets, turns, k);
      IdleOffers(par2, sets, finished, o, turns, k);
      TurnIs(par2, sets, false, finished, o, turns, k);
      IdleTurn(par2, sets[k], false, turns[k]);
      NothingQueued(par2, sets[k], turns[k]);
    }
  }

  lemma StillWanted(finished: set<string>, sets: seq<LocalSet>, turns: seq<Turn>, k: nat)
    requires k < |sets| && k <= |turns| && NeedsMore(sets, k, finished)
    ensures sets[k].needed > 0 && sets[k].key !in FinishedAfter(finished, sets, turns, k)
  {
    NotYetFinished(finished, sets, turns, k, k);
  }

  lemma {:induction false} NotYetFinished(finished: set<string>, sets: seq<LocalSet>, turns: seq<Turn>, k: nat, n: nat)
    requires n <= k < |sets| && n <= |turns| && NeedsMore(sets, k, finished)
    ensures sets[k].key !in FinishedAfter(finished, sets, turns, n)
  {
    if n > 0 { NotYetFinished(finished, sets, turns, k, n - 1); }
  }

  lemma {:induction false} IdleOffers(par2: bool, sets: seq<LocalSet>, finished: set<string>, o: Offers, turns: seq<Turn>, n: nat)
    requires TurnsOk(par2, sets, false, finished, o, turns) && n <= |turns| <= |sets|
    requires forall k :: 0 <= k < |turns| ==> turns[k].added == 0
    ensures OffersAfter(o, turns, n) == o
  {
    hide TurnsOk, AskedFor, PassedOver, FinishedAfter;
    if n > 0 {
      IdleOffers(par2, sets, finished, o, turns, n - 1);
      TurnIs(par2, sets, false, finished, o, turns, n - 1);
      IdleTurn(par2, sets[n - 1], false, turns[n - 1]);
    }
  }

  lemma FewerToCheck(local: Local, held: multiset<ServerFile>, fewer: multiset<ServerFile>)
    requires LocalOk(local, held) && fewer <= held
    ensures LocalOk(local, fewer)
  {
    hide OneNews;
  }

  lemma FewerHeld(q0: seq<Queued>, held0: multiset<ServerFile>, q: seq<Queued>, held: multiset<ServerFile>)
    requires FilesBag(q) + held == FilesBag(q0) + held0 && |q| >= |q0|
    requires FilesBag(q0) <= FilesBag(q)
    ensures |held| + |q| == |held0| + |q0| && held <= held0
  {
    FilesCount(q0);
    FilesCount(q);
    assert |FilesBag(q) + held| == |FilesBag(q0) + held0|;
    Smaller(FilesBag(q), held, FilesBag(q0), held0);
  }

  lemma {:induction false} FilesCount(q: seq<Queued>)
    ensures |FilesBag(q)| == |q|
  {
    if |q| > 0 { FilesCount(q[1..]); }
  }

  lemma Smaller<T>(q: multiset<T>, h: multiset<T>, q0: multiset<T>, h0: multiset<T>)
    requires q + h == q0 + h0 && q0 <= q
    ensures h <= h0
  {
    forall x
      ensures h[x] <= h0[x]
    {
      assert (q + h)[x] == (q0 + h0)[x] && q0[x] <= q[x];
    }
  }

  lemma SetOnce(local: Local, k: nat, held: multiset<ServerFile>, pxxs: multiset<ServerFile>, l: seq<ServerFile>)
    requires LocalOk(local, held) && k < |local.sets| && multiset(l) <= pxxs <= held
    ensures Once(l, local.sets[k].ranges, local.sets[k].have)
  {
    hide OneNews, Once;
    forall f | f in l
      ensures OneNews(local.sets[k].ranges(f), local.sets[k].have)
    {
      assert f in multiset(l);
    }
    OnceFromEach(l, local.sets[k].ranges, local.sets[k].have);
  }

  lemma AskSum<T>(q0: multiset<T>, q: multiset<T>, got: multiset<T>, pars: multiset<T>, pxxs0: multiset<T>, pxxs: multiset<T>,
                  extra0: multiset<T>, extra: multiset<T>, sets: multiset<T>)
    requires q == q0 + got && pxxs + extra + got == pxxs0 + extra0
    ensures q + Four(pars, pxxs, extra, sets) == q0 + Four(pars, pxxs0, extra0, sets)
  {
    forall x
      ensures (q + Four(pars, pxxs, extra, sets))[x] == (q0 + Four(pars, pxxs0, extra0, sets))[x]
    {
      assert q[x] == (q0 + got)[x] && (pxxs + extra + got)[x] == (pxxs0 + extra0)[x];
    }
  }
}