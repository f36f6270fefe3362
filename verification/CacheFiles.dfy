// Files of the header cache, with their parts and the articles that carry them on the servers.
//
// A file owns its parts and a part its articles; nothing else in the cache refers to them, so they
// are values here and the lists holding them are reassigned.
module CacheFiles {
  import opened Common
  import opened FileOrder

  datatype Article = Article(serverid: nat, group: string, articlenum: nat, bytes: nat, lines: nat)
  datatype Part = Part(partnum: int, articles: seq<Article>, date: int, mid: string)
  datatype File = File(key: Key, parts: seq<Part>, have: int, flags: nat, tailoff: int, update: int)

  // Does the part count towards a complete file?
  predicate CountPartnum(partnum: int, req: int) {
    if req > 0 then 0 < partnum <= req else partnum == req
  }

  // ---------- what a file holds ----------

  // One article with all that places it.
  datatype Item = Item(key: Key, partnum: int, mid: string, article: Article)

  function PartItems(key: Key, p: Part): seq<Item> {
    seq(|p.articles|, i requires 0 <= i < |p.articles| => Item(key, p.partnum, p.mid, p.articles[i]))
  }

  function PartsItems(key: Key, ps: seq<Part>): seq<Item> {
    if |ps| == 0 then [] else PartItems(key, ps[0]) + PartsItems(key, ps[1..])
  }

  function FileItems(f: File): seq<Item> {
    PartsItems(f.key, f.parts)
  }

  function Items(fs: seq<File>): seq<Item> {
    if |fs| == 0 then [] else FileItems(fs[0]) + Items(fs[1..])
  }

  lemma {:induction false} PartsItemsAppend(key: Key, a: seq<Part>, b: seq<Part>)
    ensures PartsItems(key, a + b) == PartsItems(key, a) + PartsItems(key, b)
  {
    if |a| == 0 {
      assert a + b == b;
    } else {
      assert (a + b)[1..] == a[1..] + b;
      PartsItemsAppend(key, a[1..], b);
    }
  }

  lemma {:induction false} ItemsAppend(a: seq<File>, b: seq<File>)
    ensures Items(a + b) == Items(a) + Items(b)
  {
    if |a| == 0 {
      assert a + b == b;
    } else {
      assert (a + b)[1..] == a[1..] + b;
      ItemsAppend(a[1..], b);
    }
  }

  lemma OnePart(key: Key, p: Part)
    ensures PartsItems(key, [p]) == PartItems(key, p)
  {
    assert [p][1..] == [];
  }

  lemma OneFile(f: File)
    ensures Items([f]) == FileItems(f)
  {
    assert [f][1..] == [];
  }

  // ---------- parts ----------

  ghost predicate Sorted(ps: seq<Part>) {
    forall i, j :: 0 <= i < j < |ps| ==> ps[i].partnum < ps[j].partnum
  }

  // How many parts count.
  function Counted(ps: seq<Part>, req: int): int {
    if |ps| == 0 then 0 else Counted(ps[1..], req) + (if CountPartnum(ps[0].partnum, req) then 1 else 0)
  }

  lemma {:induction false} CountedAppend(a: seq<Part>, b: seq<Part>, req: int)
    ensures Counted(a + b, req) == Counted(a, req) + Counted(b, req)
  {
    if |a| == 0 {
      assert a + b == b;
    } else {
      assert (a + b)[1..] == a[1..] + b;
      CountedAppend(a[1..], b, req);
    }
  }

  // The numbers of the parts.
  function Numbers(ps: seq<Part>): set<int> {
    set k | 0 <= k < |ps| :: ps[k].partnum
  }

  // The numbers from 1 to n.
  function UpTo(n: nat): (r: set<int>)
    ensures |r| == n
    ensures forall k :: k in r <==> 1 <= k <= n
  {
    if n == 0 then {} else UpTo(n - 1) + {n}
  }

  lemma WithinSize(a: set<int>, b: set<int>)
    requires a <= b
    ensures |a| <= |b|
    ensures |a| == |b| ==> a == b
  {
    assert b == a + (b - a);
    assert |b| == |a| + |b - a|;
  }

  // The count is the number of different numbers that count: of 1 to req when there are several parts,
  // of req itself when there is but one.
  lemma {:induction false} CountedIs(ps: seq<Part>, req: int)
    requires Sorted(ps)
    ensures Counted(ps, req) == |Numbers(ps) * Counting(req)|
  {
    hide UpTo;
    if |ps| == 0 {
      assert Numbers(ps) * Counting(req) == {};
    } else {
      NumbersMore(ps);
      CountedIs(ps[1..], req);
      MemberCounts(ps[0].partnum, req);
      OneMoreNumber(Numbers(ps[1..]), ps[0].partnum, Counting(req));
    }
  }

  function Counting(req: int): set<int> {
    if req > 0 then UpTo(req) else {req}
  }

  lemma MemberCounts(n: int, req: int)
    ensures n in Counting(req) <==> CountPartnum(n, req)
  {
  }

  lemma NumbersMore(ps: seq<Part>)
    requires Sorted(ps) && |ps| > 0
    ensures Sorted(ps[1..])
    ensures Numbers(ps) == Numbers(ps[1..]) + {ps[0].partnum} && ps[0].partnum !in Numbers(ps[1..])
  {
    var rest := ps[1..];
    assert forall i :: 0 <= i < |rest| ==> rest[i] == ps[i + 1];
    forall n
      ensures n in Numbers(ps) <==> n in Numbers(rest) + {ps[0].partnum}
    {
      if k :| 0 <= k < |ps| && ps[k].partnum == n {
        if k > 0 { assert rest[k - 1].partnum == n; }
      }
      if k :| 0 <= k < |rest| && rest[k].partnum == n { assert ps[k + 1].partnum == n; }
    }
  }

  lemma OneMoreNumber(a: set<int>, n: int, c: set<int>)
    requires n !in a
    ensures |(a + {n}) * c| == |a * c| + if n in c then 1 else 0
  {
    if n in c {
      assert (a + {n}) * c == a * c + {n};
    } else {
      assert (a + {n}) * c == a * c;
    }
  }

  // A file passes as complete exactly when it has a part with every number from 1 to req; a post that is a
  // single part, when it has the part with its number.
  lemma CompleteIff(f: File)
    requires FileOk(f)
    ensures f.key.req > 0 ==> (f.have >= f.key.req <==> forall n :: 1 <= n <= f.key.req ==> n in Numbers(f.parts))
    ensures f.key.req > 0 ==> 0 <= f.have <= f.key.req
    ensures f.key.req <= 0 ==> f.have == if f.key.req in Numbers(f.parts) then 1 else 0
  {
    var req, ns := f.key.req, Numbers(f.parts);
    CountedIs(f.parts, req);
    if req > 0 {
      WithinSize(ns * UpTo(req), UpTo(req));
      if forall n :: 1 <= n <= req ==> n in ns {
        assert ns * UpTo(req) == UpTo(req);
      } else {
        var n :| 1 <= n <= req && n !in ns;
        assert n in UpTo(req) && n !in ns * UpTo(req);
      }
    } else if req in ns {
      assert ns * {req} == {req};
    } else {
      assert ns * {req} == {};
    }
  }

  // Binary search for the first part not below partnum.
  method LowerBound(ps: seq<Part>, partnum: int) returns (first: nat)
    requires Sorted(ps)
    ensures first <= |ps|
    ensures forall i :: 0 <= i < first ==> ps[i].partnum < partnum
    ensures forall i :: first <= i < |ps| ==> partnum <= ps[i].partnum
  {
    first := 0;
    var len := |ps|;
    while len > 0
      invariant 0 <= first && 0 <= len && first + len <= |ps|
      invariant forall i :: 0 <= i < first ==> ps[i].partnum < partnum
      invariant forall i :: first + len <= i < |ps| ==> partnum <= ps[i].partnum
      decreases len
    {
      var half := len / 2;
      var middle := first + half;
      if ps[middle].partnum < partnum {
        first := middle + 1;
        len := len - half - 1;
      } else {
        len := half;
      }
    }
  }

  // Where the part with this number is.
  ghost function IndexOf(ps: seq<Part>, partnum: int): Option<nat> {
    if i: nat :| i < |ps| && ps[i].partnum == partnum then Some(i) else None
  }

  lemma IndexIs(ps: seq<Part>, i: nat)
    requires Sorted(ps) && i < |ps|
    ensures IndexOf(ps, ps[i].partnum) == Some(i)
  {
    assert ps[i].partnum == ps[i].partnum;
  }

  method FindPart(ps: seq<Part>, partnum: int) returns (i: Option<nat>)
    requires Sorted(ps)
    ensures i == IndexOf(ps, partnum)
    ensures i.Some? ==> i.value < |ps| && ps[i.value].partnum == partnum
    ensures i.None? ==> forall k :: 0 <= k < |ps| ==> ps[k].partnum != partnum
  {
    var k := LowerBound(ps, partnum);
    if k != |ps| && ps[k].partnum == partnum {
      IndexIs(ps, k);
      return Some(k);
    }
    return None;
  }

  // Number of parts below partnum in a sorted list.
  ghost predicate IsPlace(ps: seq<Part>, partnum: int, k: nat) {
    && k <= |ps|
    && (forall i :: 0 <= i < k ==> ps[i].partnum < partnum)
    && (forall i :: k <= i < |ps| ==> partnum < ps[i].partnum)
  }

  method AddPart(ps: seq<Part>, p: Part) returns (r: seq<Part>, ghost k: nat)
    requires Sorted(ps) && IndexOf(ps, p.partnum).None?
    ensures IsPlace(ps, p.partnum, k) && r == ps[..k] + [p] + ps[k..]
    ensures Sorted(r)
  {
    var i := LowerBound(ps, p.partnum);
    k := i;
    r := ps[..i] + [p] + ps[i..];
  }

  method RemovePart(ps: seq<Part>, partnum: int) returns (r: seq<Part>)
    requires Sorted(ps)
    ensures Sorted(r)
    ensures var i := IndexOf(ps, partnum); r == if i.Some? then ps[..i.value] + ps[i.value + 1..] else ps
  {
    r := ps;
    var i := FindPart(ps, partnum);
    if i.Some? {
      r := ps[..i.value] + ps[i.value + 1..];
    }
  }

  // Inserting a part inserts its articles, and counts it if it counts.
  lemma AddedPart(key: Key, ps: seq<Part>, p: Part, k: nat, req: int)
    requires k <= |ps|
    ensures var r := ps[..k] + [p] + ps[k..];
      && PartsItems(key, r) == PartsItems(key, ps[..k]) + PartItems(key, p) + PartsItems(key, ps[k..])
      && PartsItems(key, ps) == PartsItems(key, ps[..k]) + PartsItems(key, ps[k..])
      && Counted(r, req) == Counted(ps, req) + (if CountPartnum(p.partnum, req) then 1 else 0)
  {
    assert ps == ps[..k] + ps[k..];
    PartsItemsAppend(key, ps[..k], ps[k..]);
    PartsItemsAppend(key, ps[..k], [p]);
    PartsItemsAppend(key, ps[..k] + [p], ps[k..]);
    OnePart(key, p);
    CountedAppend(ps[..k], ps[k..], req);
    CountedAppend(ps[..k], [p], req);
    CountedAppend(ps[..k] + [p], ps[k..], req);
    assert [p][1..] == [];
  }

  // ---------- files ----------

  // No empty parts, parts in order, and the count of parts right.
  ghost predicate PartsOk(ps: seq<Part>) {
    Sorted(ps) && forall i :: 0 <= i < |ps| ==> |ps[i].articles| > 0
  }

  ghost predicate FileOk(f: File) {
    PartsOk(f.parts) && |f.parts| > 0 && f.have == Counted(f.parts, f.key.req)
  }

  // Add an empty part, counting it if it counts.
  method FileAddPart(f: File, p: Part) returns (r: File, ghost k: nat)
    requires Sorted(f.parts) && IndexOf(f.parts, p.partnum).None?
    ensures IsPlace(f.parts, p.partnum, k)
    ensures r == f.(parts := f.parts[..k] + [p] + f.parts[k..], have := r.have)
    ensures r.have == f.have + if CountPartnum(p.partnum, f.key.req) then 1 else 0
    ensures Sorted(r.parts)
  {
    var ps;
    ps, k := AddPart(f.parts, p);
    r := f.(parts := ps, have := if CountPartnum(p.partnum, f.key.req) then f.have + 1 else f.have);
  }

  // ---------- sorted lists of files ----------

  ghost predicate FilesSorted(fs: seq<File>) {
    forall i, j :: 0 <= i < j < |fs| ==> NotAfter(fs[i].key, fs[j].key)
  }

  ghost predicate FilesOk(fs: seq<File>) {
    forall i :: 0 <= i < |fs| ==> FileOk(fs[i])
  }

  function TotalParts(fs: seq<File>): nat {
    if |fs| == 0 then 0 else |fs[0].parts| + TotalParts(fs[1..])
  }

  lemma {:induction false} TotalPartsAppend(a: seq<File>, b: seq<File>)
    ensures TotalParts(a + b) == TotalParts(a) + TotalParts(b)
  {
    if |a| == 0 {
      assert a + b == b;
    } else {
      assert (a + b)[1..] == a[1..] + b;
      TotalPartsAppend(a[1..], b);
    }
  }

  // Replacing one file of a list.
  lemma Replace(fs: seq<File>, i: nat, f: File)
    requires i < |fs|
    ensures Items(fs) == Items(fs[..i]) + FileItems(fs[i]) + Items(fs[i + 1..])
    ensures Items(fs[i := f]) == Items(fs[..i]) + FileItems(f) + Items(fs[i + 1..])
    ensures TotalParts(fs[i := f]) == TotalParts(fs) - |fs[i].parts| + |f.parts|
  {
    assert fs == fs[..i] + ([fs[i]] + fs[i + 1..]);
    assert fs[i := f] == fs[..i] + ([f] + fs[i + 1..]);
    ItemsAppend(fs[..i], [fs[i]] + fs[i + 1..]);
    ItemsAppend(fs[..i], [f] + fs[i + 1..]);
    ItemsAppend([fs[i]], fs[i + 1..]);
    ItemsAppend([f], fs[i + 1..]);
    OneFile(fs[i]);
    OneFile(f);
    TotalPartsAppend(fs[..i], [fs[i]] + fs[i + 1..]);
    TotalPartsAppend(fs[..i], [f] + fs[i + 1..]);
  }

  lemma InsertFile(fs: seq<File>, i: nat, f: File)
    requires i <= |fs|
    ensures Items(fs) == Items(fs[..i]) + Items(fs[i..])
    ensures Items(fs[..i] + [f] + fs[i..]) == Items(fs[..i]) + FileItems(f) + Items(fs[i..])
    ensures TotalParts(fs[..i] + [f] + fs[i..]) == TotalParts(fs) + |f.parts|
  {
    assert fs == fs[..i] + fs[i..];
    ItemsAppend(fs[..i], fs[i..]);
    ItemsAppend(fs[..i], [f]);
    ItemsAppend(fs[..i] + [f], fs[i..]);
    OneFile(f);
    TotalPartsAppend(fs[..i], fs[i..]);
    TotalPartsAppend(fs[..i], [f]);
    TotalPartsAppend(fs[..i] + [f], fs[i..]);
    assert [f][1..] == [];
  }
}
