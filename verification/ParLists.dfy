// What the parity handler holds for one download path: lists of parity files offered by the servers,
// and the ways files get from there into the queue.
module ParLists {
  import opened Common
  import opened ServerFiles

  // ---------- files seen on the servers that go with no local parity set yet ----------

  datatype ParSetInfo = ParSetInfo(serverpars: seq<ServerFile>, serverpxxs: seq<ServerFile>)

  datatype NamedSet = NamedSet(name: string, info: ParSetInfo)

  function SetBag(s: ParSetInfo): multiset<ServerFile> {
    multiset(s.serverpars) + multiset(s.serverpxxs)
  }

  function SetsBag(ps: seq<NamedSet>): multiset<ServerFile> {
    if |ps| == 0 then multiset{} else SetBag(ps[0].info) + SetsBag(ps[1..])
  }

  lemma {:induction false} SetReplaced(ps: seq<NamedSet>, i: nat, s: NamedSet)
    requires i < |ps|
    ensures SetsBag(ps[i := s]) + SetBag(ps[i].info) == SetsBag(ps) + SetBag(s.info)
  {
    hide SetBag;
    var r := ps[i := s];
    if i == 0 {
      assert r[1..] == ps[1..];
    } else {
      assert r[1..] == ps[1..][i - 1 := s];
      SetReplaced(ps[1..], i - 1, s);
      Beside(SetBag(ps[0].info), SetsBag(r[1..]), SetBag(ps[i].info), SetsBag(ps[1..]), SetBag(s.info));
    }
  }

  // The volumes of all sets.
  function VolumesBag(ps: seq<NamedSet>): multiset<ServerFile> {
    if |ps| == 0 then multiset{} else multiset(ps[0].info.serverpxxs) + VolumesBag(ps[1..])
  }

  lemma {:induction false} VolumesReplaced(ps: seq<NamedSet>, i: nat, s: NamedSet)
    requires i < |ps|
    ensures VolumesBag(ps[i := s]) + multiset(ps[i].info.serverpxxs) == VolumesBag(ps) + multiset(s.info.serverpxxs)
  {
    var r := ps[i := s];
    if i == 0 {
      assert r[1..] == ps[1..];
    } else {
      assert r[1..] == ps[1..][i - 1 := s];
      VolumesReplaced(ps[1..], i - 1, s);
      Beside(multiset(ps[0].info.serverpxxs), VolumesBag(r[1..]), multiset(ps[i].info.serverpxxs), VolumesBag(ps[1..]),
             multiset(s.info.serverpxxs));
    }
  }

  lemma {:induction false} NoVolumesLeft(ps: seq<NamedSet>)
    requires forall k :: 0 <= k < |ps| ==> ps[k].info.serverpxxs == []
    ensures VolumesBag(ps) == multiset{}
  {
    if |ps| > 0 { NoVolumesLeft(ps[1..]); }
  }

  // Everything the files in l are for goes into the queue.
  method AddAll(l: seq<ServerFile>, path: string, fc: FileQueue) returns (count: nat)
    requires ByDate(fc.files)
    modifies fc
    ensures ByDate(fc.files) && FilesBag(fc.files) == FilesBag(old(fc.files)) + multiset(l)
    ensures count == |l| && |fc.files| == |old(fc.files)| + count
    ensures forall x :: x in fc.files ==> x in old(fc.files) || Ours(x, path)
  {
    hide ByDate, FilesBag;
    count := 0;
    for k := 0 to |l|
      invariant ByDate(fc.files) && FilesBag(fc.files) == FilesBag(old(fc.files)) + multiset(l[..k])
      invariant count == k && |fc.files| == |old(fc.files)| + count
      invariant forall x :: x in fc.files ==> x in old(fc.files) || Ours(x, path)
    {
      ghost var before := fc.files;
      fc.AddFile(l[k], path, false);
      AddedIn(before, Queued(path, l[k], false), fc.files);
      assert l[..k + 1] == l[..k] + [l[k]];
      count := count + 1;
    }
    assert l[..|l|] == l;
  }

  lemma AddedIn(before: seq<Queued>, x: Queued, after: seq<Queued>)
    requires multiset(after) == multiset(before) + multiset{x}
    ensures forall y :: y in after ==> y in before || y == x
  {
    forall y | y in after
      ensures y in before || y == x
    {
      assert y in multiset(after);
    }
  }

  ghost predicate FirstSmallest(l: seq<ServerFile>, m: nat) {
    && m < |l|
    && (forall k :: 0 <= k < |l| ==> l[m].bytes <= l[k].bytes)
    && (forall k :: 0 <= k < m ==> l[m].bytes < l[k].bytes)
  }

  // All index files of the set have gone; the first smallest volume has when there were none.
  ghost predicate InitialGone(s: ParSetInfo, r: ParSetInfo) {
    && r.serverpars == []
    && if |s.serverpars| == 0 && |s.serverpxxs| > 0
       then exists m: nat :: FirstSmallest(s.serverpxxs, m) && r.serverpxxs == s.serverpxxs[..m] + s.serverpxxs[m + 1..]
       else r.serverpxxs == s.serverpxxs
  }

  // The position of the first smallest file.
  method Smallest(l: seq<ServerFile>) returns (m: nat)
    requires |l| > 0
    ensures FirstSmallest(l, m)
  {
    m := 0;
    for cur := 1 to |l|
      invariant m < cur
      invariant forall k :: 0 <= k < cur ==> l[m].bytes <= l[k].bytes
      invariant forall k :: 0 <= k < m ==> l[m].bytes < l[k].bytes
    {
      if l[cur].bytes < l[m].bytes { m := cur; }
    }
  }

  // All parity index files are fetched; when there are none, the smallest volume is.
  method SetInitialPars(s: ParSetInfo, path: string, fc: FileQueue) returns (r: ParSetInfo, count: nat)
    requires ByDate(fc.files)
    modifies fc
    ensures ByDate(fc.files) && FilesBag(fc.files) + SetBag(r) == FilesBag(old(fc.files)) + SetBag(s)
    ensures FilesBag(old(fc.files)) <= FilesBag(fc.files)
    ensures |fc.files| == |old(fc.files)| + count
    ensures forall x :: x in fc.files ==> x in old(fc.files) || Ours(x, path)
    ensures r.serverpars == [] && multiset(r.serverpxxs) <= multiset(s.serverpxxs)
    ensures count == 0 <==> SetBag(s) == multiset{}
    ensures InitialGone(s, r)
  {
    hide ByDate, FilesBag, FirstSmallest;
    count := AddAll(s.serverpars, path, fc);
    var pxxs := s.serverpxxs;
    if |s.serverpars| == 0 && |pxxs| > 0 {
      var smallest := Smallest(pxxs);
      ghost var before := fc.files;
      fc.AddFile(pxxs[smallest], path, false);
      AddedIn(before, Queued(path, pxxs[smallest], false), fc.files);
      count := count + 1;
      RemovedBag(pxxs, smallest);
      pxxs := pxxs[..smallest] + pxxs[smallest + 1..];
    }
    r := ParSetInfo([], pxxs);
  }

  // ---------- volumes ----------

  // The recovery packets [begin, end) a subject says are in the file; for old-style volumes, begin is
  // the volume's number.
  datatype Range = Range(begin: nat, end: nat)

  // How the names of one local parity set match a subject: a range for each name that does.
  type Matcher = ServerFile -> seq<Range>

  function Volumes(rs: seq<Range>): set<nat> {
    set k | 0 <= k < |rs| :: rs[k].begin
  }

  function Offered(l: seq<ServerFile>, ranges: Matcher): set<nat> {
    if |l| == 0 then {} else Offered(l[..|l| - 1], ranges) + Volumes(ranges(l[|l| - 1]))
  }

  // The first volume not held.
  method NewVolume(rs: seq<Range>, havevols: set<nat>) returns (vol: Option<nat>)
    ensures vol.Some? ==> vol.value in Volumes(rs) && vol.value !in havevols
    ensures vol.None? ==> Volumes(rs) <= havevols
  {
    for k := 0 to |rs|
      invariant forall j :: 0 <= j < k ==> rs[j].begin in havevols
    {
      if rs[k].begin !in havevols { return Some(rs[k].begin); }
    }
    return None;
  }

  // Whether at least num volumes not held are on offer.
  method EnoughOffered(l: seq<ServerFile>, ranges: Matcher, num: nat, havevols: set<nat>) returns (enough: bool)
    ensures enough <==> |Offered(l, ranges) - havevols| >= num
  {
    var avail: set<nat> := {};
    var k := 0;
    assert l[..0] == [];
    while k < |l| && |avail| < num
      invariant 0 <= k <= |l|
      invariant avail == Offered(l[..k], ranges) - havevols
    {
      assert l[..k + 1][..k] == l[..k];
      avail := avail + (Volumes(ranges(l[k])) - havevols);
      k := k + 1;
    }
    assert l[..|l|] == l;
    enough := |avail| >= num;
    OfferedMore(l, k, ranges);
    if enough { Larger(avail, Offered(l, ranges) - havevols); }
  }

  lemma {:induction false} OfferedMore(l: seq<ServerFile>, k: nat, ranges: Matcher)
    requires k <= |l|
    ensures Offered(l[..k], ranges) <= Offered(l, ranges)
  {
    if k < |l| {
      OfferedMore(l[..|l| - 1], k, ranges);
      assert l[..|l| - 1][..k] == l[..k];
    } else {
      assert l[..k] == l;
    }
  }

  lemma {:induction false} Larger<T>(a: set<T>, b: set<T>)
    requires a <= b
    ensures |a| <= |b|
  {
    if a != {} {
      var x :| x in a;
      Larger(a - {x}, b - {x});
    }
  }

  // What one request for volumes took: files and the new volume each is for.
  ghost predicate Taken(got: seq<ServerFile>, vols: seq<nat>, ranges: Matcher, before: set<nat>, after: set<nat>) {
    && |got| == |vols|
    && (forall k :: 0 <= k < |got| ==> vols[k] in Volumes(ranges(got[k])) && vols[k] !in before)
    && (forall i, j :: 0 <= i < j < |vols| ==> vols[i] != vols[j])
    && after == before + (set v | v in vols)
  }

  // What a request for volumes took and left: at most num files, each for a volume of its own; nothing when
  // the optimistic see too few; and short of num only when what is left brings no volume that is new.
  ghost predicate VolumeRequest(num: nat, l: seq<ServerFile>, ranges: Matcher, havevols: set<nat>, optimistic: bool,
                                got: seq<ServerFile>, vols: seq<nat>, rest: seq<ServerFile>, nowhave: set<nat>)
  {
    var tooFew := optimistic && |Offered(l, ranges) - havevols| < num;
    && |got| <= num && Taken(got, vols, ranges, havevols, nowhave)
    && multiset(rest) + multiset(got) == multiset(l) && (got == [] ==> rest == l)
    && (tooFew ==> got == [])
    && (!tooFew && |got| < num ==> forall k :: 0 <= k < |rest| ==> Volumes(ranges(rest[k])) <= nowhave)
  }

  // When nothing is taken, and not for being optimistic, there is nothing new on offer.
  lemma NoVolumes(num: nat, l: seq<ServerFile>, ranges: Matcher, havevols: set<nat>, vols: seq<nat>, rest: seq<ServerFile>, nowhave: set<nat>)
    requires VolumeRequest(num, l, ranges, havevols, false, [], vols, rest, nowhave) && num > 0
    ensures rest == l && Offered(l, ranges) <= havevols
  {
    hide Volumes;
    assert nowhave == havevols;
    OfferedWithin(l, ranges, havevols);
  }

  lemma {:induction false} OfferedWithin(l: seq<ServerFile>, ranges: Matcher, have: set<nat>)
    requires forall k :: 0 <= k < |l| ==> Volumes(ranges(l[k])) <= have
    ensures Offered(l, ranges) <= have
  {
    hide Volumes;
    if |l| > 0 { OfferedWithin(l[..|l| - 1], ranges, have); }
  }

  // Queue up to num files with volumes not held, no two for the same volume.
  method GetPxxs(num: nat, havevols: set<nat>, ranges: Matcher, optimistic: bool, serverpxxs: seq<ServerFile>,
                 path: string, fc: FileQueue)
    returns (cur: nat, rest: seq<ServerFile>, nowhave: set<nat>, ghost got: seq<ServerFile>, ghost vols: seq<nat>)
    requires ByDate(fc.files)
    modifies fc
    ensures ByDate(fc.files) && cur == |got| <= num && |fc.files| == |old(fc.files)| + cur
    ensures FilesBag(fc.files) == FilesBag(old(fc.files)) + multiset(got)
    ensures multiset(rest) + multiset(got) == multiset(serverpxxs) && (cur == 0 ==> rest == serverpxxs)
    ensures forall x :: x in fc.files ==> x in old(fc.files) || Ours(x, path)
    ensures Taken(got, vols, ranges, havevols, nowhave)
    ensures optimistic && |Offered(serverpxxs, ranges) - havevols| < num ==> cur == 0
    ensures !(optimistic && |Offered(serverpxxs, ranges) - havevols| < num) && cur < num
            ==> forall k :: 0 <= k < |rest| ==> Volumes(ranges(rest[k])) <= nowhave
    ensures VolumeRequest(num, serverpxxs, ranges, havevols, optimistic, got, vols, rest, nowhave)
  {
    hide ByDate, FilesBag, Offered, Volumes, Taken, Fetching;
    cur, rest, nowhave, got, vols := 0, serverpxxs, havevols, [], [];
    ghost var start := fc.files;
    FetchingStart(serverpxxs, ranges, havevols, start, path);
    if optimistic {
      var enough := EnoughOffered(serverpxxs, ranges, num, havevols);
      if !enough { return; }
    }
    var i := 0;
    while i < |rest| && cur < num
      invariant 0 <= i <= |rest| && cur <= num && ByDate(fc.files)
      invariant cur == |got| && |fc.files| == |start| + cur && Taken(got, vols, ranges, havevols, nowhave)
      invariant got == [] ==> rest == serverpxxs
      invariant Fetching(serverpxxs, ranges, got, i, rest, nowhave, start, fc.files, path)
      decreases |rest| - i
    {
      var f := rest[i];
      var vol := NewVolume(ranges(f), nowhave);
      if vol.Some? {
        TakenMore(got, vols, ranges, havevols, nowhave, f, vol.value);
        ghost var before := fc.files;
        fc.AddFile(f, path, false);
        FetchingMore(serverpxxs, ranges, got, i, rest, nowhave, vol.value, start, before, fc.files, path);
        nowhave := nowhave + {vol.value};
        rest := rest[..i] + rest[i + 1..];
        got, vols := got + [f], vols + [vol.value];
        cur := cur + 1;
      } else {
        FetchingSkip(serverpxxs, ranges, got, i, rest, nowhave, start, fc.files, path);
        i := i + 1;
      }
    }
    FetchingEnd(serverpxxs, ranges, got, i, rest, nowhave, start, fc.files, path);
  }

  // The files before i in the rest bring no new volume; what was taken is in the queue.
  ghost predicate Fetching(l: seq<ServerFile>, ranges: Matcher, got: seq<ServerFile>, i: nat, rest: seq<ServerFile>, nowhave: set<nat>,
                           start: seq<Queued>, now: seq<Queued>, path: string)
  {
    && i <= |rest|
    && FilesBag(now) == FilesBag(start) + multiset(got)
    && multiset(rest) + multiset(got) == multiset(l)
    && (forall x :: x in now ==> x in start || Ours(x, path))
    && (forall k :: 0 <= k < i ==> Volumes(ranges(rest[k])) <= nowhave)
  }

  lemma FetchingStart(l: seq<ServerFile>, ranges: Matcher, have: set<nat>, start: seq<Queued>, path: string)
    ensures Fetching(l, ranges, [], 0, l, have, start, start, path) && Taken([], [], ranges, have, have)
    ensures FilesBag(start) == FilesBag(start) + multiset([])
  {
  }

  lemma FetchingSkip(l: seq<ServerFile>, ranges: Matcher, got: seq<ServerFile>, i: nat, rest: seq<ServerFile>, nowhave: set<nat>,
                     start: seq<Queued>, now: seq<Queued>, path: string)
    requires Fetching(l, ranges, got, i, rest, nowhave, start, now, path) && i < |rest| && Volumes(ranges(rest[i])) <= nowhave
    ensures Fetching(l, ranges, got, i + 1, rest, nowhave, start, now, path)
  {
    hide FilesBag, Volumes;
  }

  lemma FetchingMore(l: seq<ServerFile>, ranges: Matcher, got: seq<ServerFile>, i: nat, rest: seq<ServerFile>, nowhave: set<nat>, v: nat,
                     start: seq<Queued>, before: seq<Queued>, now: seq<Queued>, path: string)
    requires Fetching(l, ranges, got, i, rest, nowhave, start, before, path) && i < |rest|
    requires multiset(now) == multiset(before) + multiset{Queued(path, rest[i], false)}
    requires FilesBag(now) == FilesBag(before) + multiset{rest[i]}
    ensures Fetching(l, ranges, got + [rest[i]], i, rest[..i] + rest[i + 1..], nowhave + {v}, start, now, path)
  {
    hide FilesBag, Volumes;
    AddedIn(before, Queued(path, rest[i], false), now);
    RemovedBag(rest, i);
    var left := rest[..i] + rest[i + 1..];
    BagMoved(multiset(left), multiset(rest), multiset(got), rest[i], multiset(l));
    assert forall k :: 0 <= k < i ==> left[k] == rest[k];
  }

  lemma BagMoved<T>(less: multiset<T>, rest: multiset<T>, got: multiset<T>, f: T, all: multiset<T>)
    requires less + multiset{f} == rest && rest + got == all
    ensures less + (got + multiset{f}) == all
  {
  }

  lemma FetchingEnd(l: seq<ServerFile>, ranges: Matcher, got: seq<ServerFile>, i: nat, rest: seq<ServerFile>, nowhave: set<nat>,
                    start: seq<Queued>, now: seq<Queued>, path: string)
    requires Fetching(l, ranges, got, i, rest, nowhave, start, now, path)
    ensures FilesBag(now) == FilesBag(start) + multiset(got)
    ensures multiset(rest) + multiset(got) == multiset(l)
    ensures forall x :: x in now ==> x in start || Ours(x, path)
    ensures forall k :: 0 <= k < i ==> Volumes(ranges(rest[k])) <= nowhave
  {
    hide FilesBag, Volumes;
  }

  lemma TakenMore(got: seq<ServerFile>, vols: seq<nat>, ranges: Matcher, before: set<nat>, after: set<nat>, f: ServerFile, v: nat)
    requires Taken(got, vols, ranges, before, after) && v in Volumes(ranges(f)) && v !in after
    ensures Taken(got + [f], vols + [v], ranges, before, after + {v})
  {
    hide Volumes;
  }
}
