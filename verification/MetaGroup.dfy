// Reading the caches of several groups as one.
//
// Each group's reader hands out its files in order.  The heads of the readers are kept side by side;
// a round takes the first of the least heads, merges into it every other head with the same key, and
// reads on wherever a head is used up.
module MetaGroup {
  import opened Common
  import opened FileOrder
  import opened CacheFiles
  import opened GroupMerge

  // ---------- articles whose part number is taken by another message ----------

  function FileBag(f: File): multiset<Item> {
    Bag(f.key, f.parts)
  }

  ghost predicate Taken(x: Item, b: multiset<Item>) {
    exists y :: y in b && y.key == x.key && y.partnum == x.partnum && y.mid != x.mid
  }

  // Nothing of f can be merged into what b holds.
  ghost predicate AllTaken(f: File, b: multiset<Item>) {
    forall x :: x in FileBag(f) ==> Taken(x, b)
  }

  // No two messages claim the same part of the same post.
  ghost predicate Clean(b: multiset<Item>) {
    forall x :: x in b ==> !Taken(x, b)
  }

  lemma {:induction false} InParts(key: Key, ps: seq<Part>, k: nat, j: nat)
    requires k < |ps| && j < |ps[k].articles|
    ensures Item(key, ps[k].partnum, ps[k].mid, ps[k].articles[j]) in PartsItems(key, ps)
  {
    var x := Item(key, ps[k].partnum, ps[k].mid, ps[k].articles[j]);
    if k == 0 {
      assert PartItems(key, ps[0])[j] == x;
      assert PartsItems(key, ps)[j] == x;
    } else {
      InParts(key, ps[1..], k - 1, j);
      assert x in PartsItems(key, ps[1..]);
    }
  }

  lemma {:induction false} FromParts(key: Key, ps: seq<Part>, x: Item) returns (k: nat)
    requires x in PartsItems(key, ps)
    ensures k < |ps| && x.key == key && x.partnum == ps[k].partnum && x.mid == ps[k].mid
  {
    if x in PartItems(key, ps[0]) {
      k := 0;
    } else {
      k := FromParts(key, ps[1..], x);
      k := k + 1;
    }
  }

  // The parts left over clash, article by article, with what the target holds.
  lemma LeftoverTaken(key: Key, ps: seq<Part>, target: seq<Part>)
    requires PartsOk(ps) && PartsOk(target)
    ensures forall x :: x in PartsItems(key, Leftover(ps, target)) ==> Taken(x, Bag(key, target))
  {
    hide Bag, PartsItems;
    var l := Leftover(ps, target);
    LeftoverOk(ps, target);
    forall x | x in PartsItems(key, l)
      ensures Taken(x, Bag(key, target))
    {
      var k := FromParts(key, l, x);
      assert l[k] in l;
      var t :| 0 <= t < |target| && target[t].partnum == l[k].partnum && target[t].mid != l[k].mid;
      InParts(key, target, t, 0);
      InBag(key, target, Item(key, target[t].partnum, target[t].mid, target[t].articles[0]));
    }
  }

  lemma InBag(key: Key, ps: seq<Part>, x: Item)
    ensures x in Bag(key, ps) <==> x in PartsItems(key, ps)
  {
  }

  lemma NoItemsNoParts(f: File)
    requires PartsOk(f.parts) && FileBag(f) == multiset{}
    ensures |f.parts| == 0
  {
    if |f.parts| > 0 {
      InParts(f.key, f.parts, 0, 0);
      InBag(f.key, f.parts, Item(f.key, f.parts[0].partnum, f.parts[0].mid, f.parts[0].articles[0]));
    }
  }

  // ---------- heads and readers ----------

  // The count of parts is right when the posts are clean, and never too low.
  ghost predicate HaveOk(f: File, clean: bool) {
    && PartsOk(f.parts)
    && f.have >= Counted(f.parts, f.key.req)
    && (clean && |f.parts| > 0 ==> f.have == Counted(f.parts, f.key.req))
  }

  ghost predicate Fine(f: File, clean: bool) {
    HaveOk(f, clean) && |f.parts| > 0
  }

  // f and then rest are in order; strict: no key twice.
  ghost predicate Follows(f: File, rest: seq<File>, strict: bool) {
    forall k :: 0 <= k < |rest| ==> NotAfter(f.key, rest[k].key) && (strict ==> f.key != rest[k].key)
  }

  // What a reader has still to hand out.
  ghost predicate ReaderOk(rest: seq<File>, clean: bool, strict: bool) {
    && (forall k :: 0 <= k < |rest| ==> Fine(rest[k], clean))
    && (forall k :: 0 <= k < |rest| ==> Follows(rest[k], rest[k + 1..], strict))
  }

  function ListBag(fs: seq<File>): multiset<Item> {
    multiset(Items(fs))
  }

  function ReadersBag(rs: seq<seq<File>>): multiset<Item> {
    if |rs| == 0 then multiset{} else ListBag(rs[0]) + ReadersBag(rs[1..])
  }

  // All that heads and readers hold.
  function PendingBag(nfiles: seq<File>, readers: seq<seq<File>>): multiset<Item>
    requires |nfiles| == |readers|
  {
    if |nfiles| == 0 then multiset{}
    else FileBag(nfiles[0]) + ListBag(readers[0]) + PendingBag(nfiles[1..], readers[1..])
  }

  function Size(readers: seq<seq<File>>): nat {
    if |readers| == 0 then 0 else 1 + |readers[0]| + Size(readers[1..])
  }

  lemma {:induction false} SetHead(nfiles: seq<File>, readers: seq<seq<File>>, i: nat, f: File)
    requires |nfiles| == |readers| && i < |nfiles|
    ensures PendingBag(nfiles[i := f], readers) + FileBag(nfiles[i]) == PendingBag(nfiles, readers) + FileBag(f)
  {
    hide FileBag, ListBag;
    var n := nfiles[i := f];
    if i == 0 {
      assert n[1..] == nfiles[1..];
    } else {
      assert n[1..] == nfiles[1..][i - 1 := f];
      SetHead(nfiles[1..], readers[1..], i - 1, f);
      Beside(FileBag(nfiles[0]) + ListBag(readers[0]), PendingBag(n[1..], readers[1..]), FileBag(nfiles[i]),
             PendingBag(nfiles[1..], readers[1..]), FileBag(f));
    }
  }

  lemma ListBagHead(fs: seq<File>)
    requires |fs| > 0
    ensures ListBag(fs) == FileBag(fs[0]) + ListBag(fs[1..])
  {
  }

  lemma {:induction false} Advance(nfiles: seq<File>, readers: seq<seq<File>>, i: nat)
    requires |nfiles| == |readers| && i < |nfiles| && |readers[i]| > 0
    ensures PendingBag(nfiles[i := readers[i][0]], readers[i := readers[i][1..]]) + FileBag(nfiles[i]) == PendingBag(nfiles, readers)
    ensures Size(readers[i := readers[i][1..]]) == Size(readers) - 1
  {
    hide FileBag, ListBag;
    var n, r := nfiles[i := readers[i][0]], readers[i := readers[i][1..]];
    if i == 0 {
      assert n[1..] == nfiles[1..] && r[1..] == readers[1..];
      ListBagHead(readers[0]);
    } else {
      assert n[1..] == nfiles[1..][i - 1 := readers[i][0]] && r[1..] == readers[1..][i - 1 := readers[i][1..]];
      Advance(nfiles[1..], readers[1..], i - 1);
    }
  }

  lemma {:induction false} Erase(nfiles: seq<File>, readers: seq<seq<File>>, i: nat)
    requires |nfiles| == |readers| && i < |nfiles| && |readers[i]| == 0
    ensures PendingBag(nfiles[..i] + nfiles[i + 1..], readers[..i] + readers[i + 1..]) + FileBag(nfiles[i])
         == PendingBag(nfiles, readers)
    ensures Size(readers[..i] + readers[i + 1..]) == Size(readers) - 1
  {
    hide FileBag;
    var n, r := nfiles[..i] + nfiles[i + 1..], readers[..i] + readers[i + 1..];
    if i == 0 {
      assert n == nfiles[1..] && r == readers[1..];
      assert readers[0] == [] && ListBag([]) == multiset{};
    } else {
      assert n[1..] == nfiles[1..][..i - 1] + nfiles[1..][i..];
      assert r[1..] == readers[1..][..i - 1] + readers[1..][i..];
      Erase(nfiles[1..], readers[1..], i - 1);
    }
  }

  lemma {:induction false} HeadWithin(nfiles: seq<File>, readers: seq<seq<File>>, i: nat)
    requires |nfiles| == |readers| && i < |nfiles|
    ensures FileBag(nfiles[i]) <= PendingBag(nfiles, readers)
  {
    hide FileBag, ListBag;
    if i > 0 { HeadWithin(nfiles[1..], readers[1..], i - 1); }
  }

  // ---------- one round ----------

  // What holds for the whole of a round: the articles there are, the files there were to read, the
  // files already put out.
  datatype Setting = Setting(total: multiset<Item>, size: nat, out: seq<File>, clean: bool, strict: bool)

  ghost predicate HeadsOk(c: Setting, nfiles: seq<File>, readers: seq<seq<File>>)
    requires |nfiles| == |readers|
  {
    forall k :: 0 <= k < |nfiles| ==>
      HaveOk(nfiles[k], c.clean) && ReaderOk(readers[k], c.clean, c.strict) && Follows(nfiles[k], readers[k], c.strict)
  }

  ghost predicate NotBefore(nfiles: seq<File>, key: Key) {
    forall k :: 0 <= k < |nfiles| ==> NotAfter(key, nfiles[k].key)
  }

  ghost predicate NotBehind(key: Key, out: seq<File>) {
    forall a :: 0 <= a < |out| ==> NotAfter(out[a].key, key)
  }

  // What f holds could not be merged into the files already put out.
  ghost predicate Refused(f: File, out: seq<File>) {
    forall a :: 0 <= a < |out| && out[a].key == f.key ==> AllTaken(f, FileBag(out[a]))
  }

  // Head k has been dealt with and is not the file merged into.
  predicate Done(k: int, at: int, i: nat, open: bool) {
    k != at && (k < i || (open && k == i))
  }

  ghost predicate Bags(c: Setting, nfiles: seq<File>, readers: seq<seq<File>>, at: int, merged: File)
    requires |nfiles| == |readers|
  {
    && PendingBag(nfiles, readers) + (if at >= 0 then multiset{} else FileBag(merged)) == c.total
    && Size(readers) + (if at >= 0 then 0 else 1) <= c.size
  }

  ghost predicate Refusals(c: Setting, nfiles: seq<File>, at: int, merged: File, i: nat, open: bool) {
    && (forall k :: 0 <= k < |nfiles| ==> Refused(nfiles[k], c.out))
    && Refused(merged, c.out)
    && (forall k :: 0 <= k < |nfiles| && Done(k, at, i, open) && nfiles[k].key == merged.key ==> AllTaken(nfiles[k], FileBag(merged)))
  }

  // Heads before i have been dealt with; when open, head i has been merged but may be used up.
  // The file merged into is head at, or -1 once its reader has gone on.
  ghost predicate Round(c: Setting, nfiles: seq<File>, readers: seq<seq<File>>, at: int, merged: File, i: nat, open: bool) {
    && |nfiles| == |readers| && i <= |nfiles| && (open ==> i < |nfiles|)
    && (at >= 0 ==> i <= at < |nfiles| && nfiles[at] == merged)
    && HeadsOk(c, nfiles, readers) && NotBefore(nfiles, merged.key) && NotBehind(merged.key, c.out)
    && Fine(merged, c.clean)
    && (forall k :: 0 <= k < |nfiles| ==> (open && k == i) || |nfiles[k].parts| > 0)
    && (c.strict ==> Refusals(c, nfiles, at, merged, i, open))
    && Bags(c, nfiles, readers, at, merged)
    && (c.clean ==> Clean(c.total))
  }

  lemma SkipHead(c: Setting, nfiles: seq<File>, readers: seq<seq<File>>, at: int, merged: File, i: nat)
    requires Round(c, nfiles, readers, at, merged, i, false) && i < |nfiles| && i != at && nfiles[i].key != merged.key
    ensures Round(c, nfiles, readers, at, merged, i + 1, false)
  {
    hide FileBag, Fine, HaveOk, ReaderOk, Follows, AllTaken, Refused, Bags;
  }

  lemma OpenMerged(c: Setting, nfiles: seq<File>, readers: seq<seq<File>>, at: int, merged: File, i: nat)
    requires Round(c, nfiles, readers, at, merged, i, false) && i == at
    ensures Round(c, nfiles, readers, at, merged, i, true)
  {
    hide FileBag, Fine, HaveOk, ReaderOk, Follows, AllTaken, Refused, Bags;
  }

  lemma KeepHead(c: Setting, nfiles: seq<File>, readers: seq<seq<File>>, at: int, merged: File, i: nat)
    requires Round(c, nfiles, readers, at, merged, i, true) && i != at && |nfiles[i].parts| > 0
    ensures Round(c, nfiles, readers, at, merged, i + 1, false)
  {
    hide FileBag, Fine, HaveOk, ReaderOk, Follows, AllTaken, Refused, Bags;
  }

  // Merging two files: what the round needs to know of it.
  ghost predicate MergeOf(m: File, f: File, m': File, f': File) {
    && m'.key == m.key && f'.key == f.key == m.key
    && PartsOk(m'.parts) && PartsOk(f'.parts) && |m'.parts| >= |m.parts|
    && FileBag(m') + FileBag(f') == FileBag(m) + FileBag(f)
    && FileBag(m) <= FileBag(m')
    && AllTaken(f', FileBag(m))
    && m'.have - Counted(m'.parts, m'.key.req) == m.have - Counted(m.parts, m.key.req)
    && f'.have - Counted(f'.parts, f'.key.req) >= f.have - Counted(f.parts, f.key.req)
    && f'.have == f.have
  }

  lemma MergeIsMergeOf(m: File, f: File, m': File, f': File)
    requires m.key == f.key == m'.key == f'.key && PartsOk(m.parts) && PartsOk(f.parts)
    requires PartsOk(m'.parts) && PartsOk(f'.parts) && |m'.parts| >= |m.parts|
    requires Bag(m.key, m'.parts) + Bag(f.key, f'.parts) == Bag(m.key, m.parts) + Bag(f.key, f.parts)
    requires Bag(m.key, m.parts) <= Bag(m.key, m'.parts)
    requires f'.parts == Leftover(f.parts, m.parts)
    requires m'.have - Counted(m'.parts, m.key.req) == m.have - Counted(m.parts, m.key.req)
    requires f'.have == f.have
    ensures MergeOf(m, f, m', f')
  {
    hide PartsItems, PartsOk, Counted;
    LeftoverTaken(f.key, f.parts, m.parts);
    LeftoverCountIff(f.parts, m.parts, f.key.req);
  }

  lemma TakenByMore(f: File, b: multiset<Item>, b': multiset<Item>)
    requires AllTaken(f, b) && b <= b'
    ensures AllTaken(f, b')
  {
    hide FileBag;
  }

  lemma CleanNothingTaken(f: File, b: multiset<Item>, total: multiset<Item>)
    requires Clean(total) && AllTaken(f, b) && b <= total && FileBag(f) <= total && PartsOk(f.parts)
    ensures |f.parts| == 0
  {
    hide PartsOk;
    TakenByMore(f, b, total);
    assert FileBag(f) == multiset{};
    NoItemsNoParts(f);
  }

  // What two files with the same key were refused, their merged file is.
  lemma MergedRefused(m: File, f: File, m': File, f': File, out: seq<File>)
    requires MergeOf(m, f, m', f') && Refused(m, out) && Refused(f, out)
    ensures Refused(m', out) && Refused(f', out)
  {
    hide FileBag, Taken, PartsOk;
    forall a | 0 <= a < |out| && out[a].key == m.key
      ensures AllTaken(m', FileBag(out[a])) && AllTaken(f', FileBag(out[a]))
    {
      forall x
        ensures x in FileBag(m') || x in FileBag(f') ==> x in FileBag(m) || x in FileBag(f)
      {
        assert (FileBag(m') + FileBag(f'))[x] == (FileBag(m) + FileBag(f))[x];
      }
    }
  }

  // ---------- merging head i ----------

  function Put(nfiles: seq<File>, at: int, m: File): (r: seq<File>)
    requires at < |nfiles|
    ensures |r| == |nfiles|
    ensures forall k :: 0 <= k < |r| && k != at ==> r[k] == nfiles[k]
    ensures at >= 0 ==> r[at] == m
  {
    if at >= 0 then nfiles[at := m] else nfiles
  }

  lemma SwapTwo<T>(p: multiset<T>, q: multiset<T>, r: multiset<T>, m: multiset<T>, f: multiset<T>, m': multiset<T>, f': multiset<T>)
    requires q + m == p + m' && r + f == q + f' && m' + f' == m + f
    ensures r == p
  {
    forall x
      ensures r[x] == p[x]
    {
      assert (q + m)[x] == (p + m')[x] && (r + f)[x] == (q + f')[x] && (m' + f')[x] == (m + f)[x];
    }
  }

  lemma SwapOne<T>(p: multiset<T>, r: multiset<T>, m: multiset<T>, f: multiset<T>, m': multiset<T>, f': multiset<T>)
    requires r + f == p + f' && m' + f' == m + f
    ensures r + m' == p + m
  {
    forall x
      ensures (r + m')[x] == (p + m)[x]
    {
      assert (r + f)[x] == (p + f')[x] && (m' + f')[x] == (m + f)[x];
    }
  }

  lemma MergeBags(c: Setting, nfiles: seq<File>, readers: seq<seq<File>>, at: int, m: File, i: nat, m': File, f': File)
    requires |nfiles| == |readers| && i < |nfiles| && i != at && at < |nfiles| && (at >= 0 ==> nfiles[at] == m)
    requires Bags(c, nfiles, readers, at, m)
    requires FileBag(m') + FileBag(f') == FileBag(m) + FileBag(nfiles[i])
    ensures Bags(c, Put(nfiles, at, m')[i := f'], readers, at, m')
  {
    hide FileBag, PendingBag;
    var n := Put(nfiles, at, m');
    var f := nfiles[i];
    assert n[i] == f;
    SetHead(n, readers, i, f');
    var p, q, r := PendingBag(nfiles, readers), PendingBag(n, readers), PendingBag(n[i := f'], readers);
    if at >= 0 {
      SetHead(nfiles, readers, at, m');
      SwapTwo(p, q, r, FileBag(m), FileBag(f), FileBag(m'), FileBag(f'));
    } else {
      SwapOne(p, r, FileBag(m), FileBag(f), FileBag(m'), FileBag(f'));
    }
  }

  // Both the file merged into and the head are among the articles there are.
  lemma WithinTotal(c: Setting, nfiles: seq<File>, readers: seq<seq<File>>, at: int, m: File, i: nat)
    requires |nfiles| == |readers| && i < |nfiles| && at < |nfiles| && (at >= 0 ==> nfiles[at] == m)
    requires Bags(c, nfiles, readers, at, m)
    ensures FileBag(m) <= c.total && FileBag(nfiles[i]) <= c.total
  {
    hide FileBag, PendingBag;
    HeadWithin(nfiles, readers, i);
    if at >= 0 { HeadWithin(nfiles, readers, at); }
  }

  lemma LessThanBoth<T>(m': multiset<T>, f': multiset<T>, m: multiset<T>, f: multiset<T>, t: multiset<T>)
    requires m' + f' == m + f && m <= m' && f <= t
    ensures f' <= t
  {
    forall x
      ensures f'[x] <= f[x]
    {
      assert (m' + f')[x] == (m + f)[x];
    }
  }

  lemma MergeHead(c: Setting, nfiles: seq<File>, readers: seq<seq<File>>, at: int, m: File, i: nat, m': File, f': File)
    requires Round(c, nfiles, readers, at, m, i, false) && i < |nfiles| && i != at
    requires MergeOf(m, nfiles[i], m', f')
    ensures Round(c, Put(nfiles, at, m')[i := f'], readers, at, m', i, true)
  {
    hide FileBag, PendingBag, Size, Less, ReaderOk;
    var n := Put(nfiles, at, m')[i := f'];
    MergeBags(c, nfiles, readers, at, m, i, m', f');
    WithinTotal(c, nfiles, readers, at, m, i);
    assert c.clean ==> |f'.parts| == 0 by {
      if c.clean {
        LessThanBoth(FileBag(m'), FileBag(f'), FileBag(m), FileBag(nfiles[i]), c.total);
        CleanNothingTaken(f', FileBag(m), c.total);
      }
    }
    if c.strict { MergeRefusals(c, nfiles, at, m, i, m', f'); }
  }

  lemma MergeRefusals(c: Setting, nfiles: seq<File>, at: int, m: File, i: nat, m': File, f': File)
    requires i < |nfiles| && i != at < |nfiles| && (at >= 0 ==> i <= at && nfiles[at] == m)
    requires Refusals(c, nfiles, at, m, i, false) && MergeOf(m, nfiles[i], m', f')
    ensures Refusals(c, Put(nfiles, at, m')[i := f'], at, m', i, true)
  {
    hide FileBag, AllTaken, Refused;
    var n := Put(nfiles, at, m')[i := f'];
    MergedRefused(m, nfiles[i], m', f', c.out);
    forall k | 0 <= k < |n| && Done(k, at, i, true) && n[k].key == m'.key
      ensures AllTaken(n[k], FileBag(m'))
    {
      TakenByMore(if k == i then f' else nfiles[k], FileBag(m), FileBag(m'));
    }
  }

  // ---------- reading on ----------

  function AtAfter(at: int, i: nat, erased: bool): int {
    if at == i then -1 else if erased && at > i then at - 1 else at
  }

  lemma ReadHead(c: Setting, nfiles: seq<File>, readers: seq<seq<File>>, at: int, m: File, i: nat)
    requires Round(c, nfiles, readers, at, m, i, true) && (i == at || |nfiles[i].parts| == 0)
    requires |readers[i]| > 0
    ensures Round(c, nfiles[i := readers[i][0]], readers[i := readers[i][1..]], AtAfter(at, i, false), m, i + 1, false)
  {
    hide FileBag, PendingBag, Size, AllTaken, Counted, PartsOk, HaveOk;
    var n, r := nfiles[i := readers[i][0]], readers[i := readers[i][1..]];
    Advance(nfiles, readers, i);
    ReadOn(readers[i], c.clean, c.strict);
    NotAfterTransitive(m.key, nfiles[i].key, readers[i][0].key);
    EmptyBag(nfiles[i]);
    if c.strict { NextNotRefused(c, m.key, nfiles[i], readers[i][0]); }
  }

  lemma EmptyBag(f: File)
    ensures |f.parts| == 0 ==> FileBag(f) == multiset{}
  {
  }

  lemma ReadOn(rest: seq<File>, clean: bool, strict: bool)
    requires ReaderOk(rest, clean, strict) && |rest| > 0
    ensures Fine(rest[0], clean) && ReaderOk(rest[1..], clean, strict) && Follows(rest[0], rest[1..], strict)
  {
    hide Fine, Follows;
    var next := rest[1..];
    forall k | 0 <= k < |next|
      ensures Fine(next[k], clean) && Follows(next[k], next[k + 1..], strict)
    {
      assert next[k] == rest[k + 1] && next[k + 1..] == rest[k + 1 + 1..];
    }
  }

  // A strictly later file has a key nothing put out so far has.
  lemma NextNotRefused(c: Setting, key: Key, f: File, next: File)
    requires NotBehind(key, c.out) && NotAfter(key, f.key) && NotAfter(f.key, next.key) && f.key != next.key
    ensures Refused(next, c.out) && next.key != key
  {
    hide AllTaken, Less;
    if next.key == key { LessTotal(key, f.key); }
    forall a | 0 <= a < |c.out|
      ensures c.out[a].key != next.key
    {
      NotAfterTransitive(c.out[a].key, key, f.key);
      LessTotal(f.key, next.key);
    }
  }

  lemma EraseHead(c: Setting, nfiles: seq<File>, readers: seq<seq<File>>, at: int, m: File, i: nat)
    requires Round(c, nfiles, readers, at, m, i, true) && (i == at || |nfiles[i].parts| == 0)
    requires |readers[i]| == 0
    ensures Round(c, nfiles[..i] + nfiles[i + 1..], readers[..i] + readers[i + 1..], AtAfter(at, i, true), m, i, false)
  {
    hide FileBag, PendingBag, Size, AllTaken, Fine, HaveOk, ReaderOk, Follows, Refused, Less;
    var n, r := nfiles[..i] + nfiles[i + 1..], readers[..i] + readers[i + 1..];
    Erase(nfiles, readers, i);
    EmptyBag(nfiles[i]);
    forall k | 0 <= k < |n|
      ensures n[k] == nfiles[if k < i then k else k + 1] && r[k] == readers[if k < i then k else k + 1]
    {
    }
  }

  // ---------- all rounds ----------

  // No part of a file put out could have been merged into an earlier one with its key.
  ghost predicate OutRefused(out: seq<File>) {
    forall a, b :: 0 <= a < b < |out| && out[a].key == out[b].key ==> AllTaken(out[b], FileBag(out[a]))
  }

  // Between rounds: out has been put out.
  ghost predicate Between(total: multiset<Item>, nfiles: seq<File>, readers: seq<seq<File>>, c: Setting) {
    && |nfiles| == |readers| && HeadsOk(c, nfiles, readers) && c.total == PendingBag(nfiles, readers) && c.size == Size(readers)
    && (forall k :: 0 <= k < |nfiles| ==> |nfiles[k].parts| > 0 && NotBehind(nfiles[k].key, c.out))
    && FilesSorted(c.out) && (forall k :: 0 <= k < |c.out| ==> Fine(c.out[k], c.clean))
    && (c.strict ==> OutRefused(c.out) && forall k :: 0 <= k < |nfiles| ==> Refused(nfiles[k], c.out))
    && c.total + ListBag(c.out) == total
    && (c.clean ==> Clean(total))
  }

  lemma CleanPart(b: multiset<Item>, total: multiset<Item>)
    requires Clean(total) && b <= total
    ensures Clean(b)
  {
    forall x | x in b
      ensures !Taken(x, b)
    {
      assert Taken(x, b) ==> Taken(x, total);
    }
  }

  lemma RoundStart(total: multiset<Item>, nfiles: seq<File>, readers: seq<seq<File>>, c: Setting, m: nat)
    requires Between(total, nfiles, readers, c) && m < |nfiles| && NotBefore(nfiles, nfiles[m].key)
    ensures Round(c, nfiles, readers, m, nfiles[m], 0, false)
  {
    hide FileBag, ListBag, PendingBag, Size, Refused, Clean, ReaderOk, Follows, Less;
    if c.clean { CleanPart(c.total, total); }
  }

  lemma RoundEnd(total: multiset<Item>, c: Setting, nfiles0: seq<File>, readers0: seq<seq<File>>,
                 nfiles: seq<File>, readers: seq<seq<File>>, at: int, m: File)
    requires Between(total, nfiles0, readers0, c) && Round(c, nfiles, readers, at, m, |nfiles|, false)
    ensures Size(readers) < Size(readers0)
    ensures Between(total, nfiles, readers, Setting(PendingBag(nfiles, readers), Size(readers), c.out + [m], c.clean, c.strict))
  {
    hide FileBag, ListBag, PendingBag, Size, AllTaken, Fine, HaveOk, ReaderOk, Follows, Less, Refused, OutRefused, NotBehind, NotBefore, Clean;
    hide FilesSorted, Refusals;
    var out := c.out + [m];
    AppendBag(c.out, m);
    StillBehind(c.out, m, nfiles);
    if c.strict { RefusedMore(c, nfiles, at, m); }
    MovedOut(PendingBag(nfiles, readers), FileBag(m), c.total, ListBag(c.out), total);
    SortedMore(c.out, m);
  }

  lemma MovedOut<T>(p: multiset<T>, f: multiset<T>, all: multiset<T>, out: multiset<T>, total: multiset<T>)
    requires p + f == all && all + out == total
    ensures p + (out + f) == total
  {
  }

  lemma SortedMore(out: seq<File>, m: File)
    requires FilesSorted(out) && NotBehind(m.key, out)
    ensures FilesSorted(out + [m])
  {
    hide Less;
  }

  lemma AppendBag(out: seq<File>, f: File)
    ensures ListBag(out + [f]) == ListBag(out) + FileBag(f)
  {
    ItemsAppend(out, [f]);
    OneFile(f);
  }

  lemma StillBehind(out: seq<File>, m: File, nfiles: seq<File>)
    requires NotBehind(m.key, out) && NotBefore(nfiles, m.key)
    ensures forall k :: 0 <= k < |nfiles| ==> NotBehind(nfiles[k].key, out + [m])
  {
    hide Less;
    forall k, a | 0 <= k < |nfiles| && 0 <= a < |out + [m]|
      ensures NotAfter((out + [m])[a].key, nfiles[k].key)
    {
      if a < |out| { NotAfterTransitive(out[a].key, m.key, nfiles[k].key); }
    }
  }

  lemma RefusedMore(c: Setting, nfiles: seq<File>, at: int, m: File)
    requires Refusals(c, nfiles, at, m, |nfiles|, false) && OutRefused(c.out) && at < 0
    ensures OutRefused(c.out + [m]) && forall k :: 0 <= k < |nfiles| ==> Refused(nfiles[k], c.out + [m])
  {
    hide FileBag, AllTaken;
    forall k | 0 <= k < |nfiles|
      ensures Refused(nfiles[k], c.out + [m])
    {
      assert Done(k, at, |nfiles|, false);
    }
  }

  function Least(nfiles: seq<File>): (m: nat)
    requires |nfiles| > 0
    ensures m < |nfiles|
  {
    var n := |nfiles| - 1;
    if n == 0 then 0 else if Less(nfiles[n].key, nfiles[Least(nfiles[..n])].key) then n else Least(nfiles[..n])
  }

  // The first of the least heads.
  method MinElement(nfiles: seq<File>) returns (m: nat)
    requires |nfiles| > 0
    ensures m == Least(nfiles)
    ensures m < |nfiles| && NotBefore(nfiles, nfiles[m].key)
    ensures forall k :: 0 <= k < m ==> Less(nfiles[m].key, nfiles[k].key)
  {
    hide Less;
    m := 0;
    LessTotal(nfiles[0].key, nfiles[0].key);
    for k := 1 to |nfiles|
      invariant m < k && m == Least(nfiles[..k])
      invariant forall j :: 0 <= j < k ==> NotAfter(nfiles[m].key, nfiles[j].key)
      invariant forall j :: 0 <= j < m ==> Less(nfiles[m].key, nfiles[j].key)
    {
      assert nfiles[..k + 1][..k] == nfiles[..k];
      if Less(nfiles[k].key, nfiles[m].key) {
        forall j | 0 <= j <= k
          ensures NotAfter(nfiles[k].key, nfiles[j].key) && (j < k ==> Less(nfiles[k].key, nfiles[j].key))
        {
          LeastSoFar(nfiles[k].key, nfiles[m].key, nfiles[j].key);
        }
        m := k;
      }
    }
    assert nfiles[..|nfiles|] == nfiles;
  }

  lemma LeastSoFar(k: Key, m: Key, j: Key)
    requires Less(k, m) && (j == k || NotAfter(m, j))
    ensures NotAfter(k, j) && (j != k ==> Less(k, j))
  {
    hide Less;
    LessTotal(k, j);
    LessTotal(m, j);
    if j != k && m != j { LessTransitive(k, m, j); }
  }

  // The rest of a round from head i on: heads and readers behind it, and the file merged into.
  function RoundFrom(nfiles: seq<File>, readers: seq<seq<File>>, at: int, m: File, i: nat): (r: (seq<File>, seq<seq<File>>, File))
    requires |nfiles| == |readers| && at < |nfiles| && (at >= 0 ==> i <= at)
    ensures |r.0| == |r.1|
    decreases |nfiles| - i
  {
    if i >= |nfiles| then (nfiles, readers, m)
    else if i == at then ReadFrom(nfiles, readers, at, m, i)
    else if nfiles[i].key == m.key then
      var (m', f') := MergedPair(m, nfiles[i]);
      var n := Put(nfiles, at, m')[i := f'];
      if |f'.parts| == 0 then ReadFrom(n, readers, at, m', i) else RoundFrom(n, readers, at, m', i + 1)
    else RoundFrom(nfiles, readers, at, m, i + 1)
  }

  // The same once head i has been used up.
  function ReadFrom(nfiles: seq<File>, readers: seq<seq<File>>, at: int, m: File, i: nat): (r: (seq<File>, seq<seq<File>>, File))
    requires |nfiles| == |readers| && at < |nfiles| && (at >= 0 ==> i <= at) && i < |nfiles|
    ensures |r.0| == |r.1|
    decreases |nfiles| - i, 0
  {
    if |readers[i]| > 0 then
      RoundFrom(nfiles[i := readers[i][0]], readers[i := readers[i][1..]], AtAfter(at, i, false), m, i + 1)
    else
      RoundFrom(nfiles[..i] + nfiles[i + 1..], readers[..i] + readers[i + 1..], AtAfter(at, i, true), m, i)
  }

  lemma MergedStep(nfiles: seq<File>, readers: seq<seq<File>>, at: int, m: File, i: nat, m': File, f': File)
    requires |nfiles| == |readers| && at < |nfiles| && (at >= 0 ==> i <= at) && i < |nfiles|
    requires i != at && nfiles[i].key == m.key && (m', f') == MergedPair(m, nfiles[i])
    ensures RoundFrom(nfiles, readers, at, m, i)
         == var n := Put(nfiles, at, m')[i := f'];
            if |f'.parts| == 0 then ReadFrom(n, readers, at, m', i) else RoundFrom(n, readers, at, m', i + 1)
  {
    hide MergedPair;
  }

  lemma OtherStep(nfiles: seq<File>, readers: seq<seq<File>>, at: int, m: File, i: nat)
    requires |nfiles| == |readers| && at < |nfiles| && (at >= 0 ==> i <= at) && i < |nfiles|
    requires i == at || nfiles[i].key != m.key
    ensures RoundFrom(nfiles, readers, at, m, i)
         == if i == at then ReadFrom(nfiles, readers, at, m, i) else RoundFrom(nfiles, readers, at, m, i + 1)
  {
  }

  lemma ReadStep(nfiles: seq<File>, readers: seq<seq<File>>, at: int, m: File, i: nat)
    requires |nfiles| == |readers| && at < |nfiles| && (at >= 0 ==> i <= at) && i < |nfiles|
    ensures ReadFrom(nfiles, readers, at, m, i)
         == if |readers[i]| > 0
            then RoundFrom(nfiles[i := readers[i][0]], readers[i := readers[i][1..]], AtAfter(at, i, false), m, i + 1)
            else RoundFrom(nfiles[..i] + nfiles[i + 1..], readers[..i] + readers[i + 1..], AtAfter(at, i, true), m, i)
    ensures AtAfter(at, i, false) < |nfiles| && (AtAfter(at, i, false) >= 0 ==> i + 1 <= AtAfter(at, i, false))
    ensures AtAfter(at, i, true) < |nfiles| - 1 && (AtAfter(at, i, true) >= 0 ==> i <= AtAfter(at, i, true))
  {
  }

  // One round: the least head takes the parts of all heads with its key.
  method MergeRound(nfiles0: seq<File>, readers0: seq<seq<File>>, m: nat, ghost c: Setting)
    returns (nfiles: seq<File>, readers: seq<seq<File>>, mergef: File, ghost at: int)
    requires |nfiles0| == |readers0| && m < |nfiles0| && Round(c, nfiles0, readers0, m, nfiles0[m], 0, false)
    ensures Round(c, nfiles, readers, at, mergef, |nfiles|, false)
    ensures (nfiles, readers, mergef) == RoundFrom(nfiles0, readers0, m, nfiles0[m], 0)
  {
    hide *;
    nfiles, readers, mergef := nfiles0, readers0, nfiles0[m];
    var place: int := m;
    var i := 0;
    while i < |nfiles|
      invariant i <= |nfiles| == |readers|
      invariant Round(c, nfiles, readers, place, mergef, i, false)
      invariant place < |nfiles| && (place >= 0 ==> i <= place)
      invariant RoundFrom(nfiles, readers, place, mergef, i) == RoundFrom(nfiles0, readers0, m, nfiles0[m], 0)
      decreases |nfiles| - i
    {
      RoundFacts(c, nfiles, readers, place, mergef, i);
      if i == place || nfiles[i].key == mergef.key {
        if i != place {
          var merged, rest := MergeFile(mergef, nfiles[i]);
          MergedStep(nfiles, readers, place, mergef, i, merged, rest);
          MergeIsMergeOf(mergef, nfiles[i], merged, rest);
          MergeHead(c, nfiles, readers, place, mergef, i, merged, rest);
          nfiles := Put(nfiles, place, merged)[i := rest];
          mergef := merged;
        } else {
          OtherStep(nfiles, readers, place, mergef, i);
          OpenMerged(c, nfiles, readers, place, mergef, i);
        }
        if i == place || |nfiles[i].parts| == 0 {
          ReadStep(nfiles, readers, place, mergef, i);
          if |readers[i]| > 0 {
            ReadHead(c, nfiles, readers, place, mergef, i);
            nfiles, readers := nfiles[i := readers[i][0]], readers[i := readers[i][1..]];
            place := AtAfter(place, i, false);
          } else {
            EraseHead(c, nfiles, readers, place, mergef, i);
            nfiles, readers := nfiles[..i] + nfiles[i + 1..], readers[..i] + readers[i + 1..];
            place := AtAfter(place, i, true);
            continue;
          }
        } else {
          KeepHead(c, nfiles, readers, place, mergef, i);
        }
      } else {
        OtherStep(nfiles, readers, place, mergef, i);
        SkipHead(c, nfiles, readers, place, mergef, i);
      }
      i := i + 1;
    }
    RoundIsOver(nfiles, readers, place, mergef, i);
    at := place;
  }

  lemma RoundIsOver(nfiles: seq<File>, readers: seq<seq<File>>, at: int, m: File, i: nat)
    requires |nfiles| == |readers| && at < |nfiles| && (at >= 0 ==> i <= at) && i >= |nfiles|
    ensures RoundFrom(nfiles, readers, at, m, i) == (nfiles, readers, m)
  {
  }

  lemma RoundFacts(c: Setting, nfiles: seq<File>, readers: seq<seq<File>>, at: int, m: File, i: nat)
    requires Round(c, nfiles, readers, at, m, i, false) && i < |nfiles|
    ensures |nfiles| == |readers| && at < |nfiles| && PartsOk(m.parts) && PartsOk(nfiles[i].parts)
  {
  }

  // What the readers hand out: each in order, no count of parts too low.  (A count is too high when the
  // reader has dropped a part without articles.)
  ghost predicate Readers(rs: seq<seq<File>>, strict: bool) {
    forall k :: 0 <= k < |rs| ==> ReaderOk(rs[k], false, strict)
  }

  // All counts are right to begin with.
  ghost predicate AllCounted(rs: seq<seq<File>>) {
    forall k :: 0 <= k < |rs| ==> FilesOk(rs[k])
  }

  // The first file of every reader that has one, and what it has behind it.
  function Firsts(sources: seq<seq<File>>): (r: (seq<File>, seq<seq<File>>))
    ensures |r.0| == |r.1|
  {
    if |sources| == 0 then ([], [])
    else
      var n := |sources| - 1;
      var (nfiles, readers) := Firsts(sources[..n]);
      if |sources[n]| > 0 then (nfiles + [sources[n][0]], readers + [sources[n][1..]]) else (nfiles, readers)
  }

  lemma NoFirsts()
    ensures Firsts([]) == ([], [])
  {
  }

  lemma FirstsSnoc(rs: seq<seq<File>>, fs: seq<File>)
    ensures Firsts(rs + [fs])
         == if |fs| > 0 then (Firsts(rs).0 + [fs[0]], Firsts(rs).1 + [fs[1..]]) else Firsts(rs)
  {
    assert (rs + [fs])[..|rs|] == rs;
  }

  // Files put out, heads and readers.
  datatype Stage = Stage(out: seq<File>, nfiles: seq<File>, readers: seq<seq<File>>)

  // After n rounds.
  function Rounds(sources: seq<seq<File>>, n: nat): (s: Stage)
    ensures |s.nfiles| == |s.readers|
  {
    if n == 0 then Stage([], Firsts(sources).0, Firsts(sources).1)
    else
      var s := Rounds(sources, n - 1);
      if |s.nfiles| == 0 then s
      else
        var m := Least(s.nfiles);
        var (nfiles, readers, mergef) := RoundFrom(s.nfiles, s.readers, m, s.nfiles[m], 0);
        Stage(s.out + [mergef], nfiles, readers)
  }

  lemma RoundsMore(sources: seq<seq<File>>, n: nat, m: nat, nfiles: seq<File>, readers: seq<seq<File>>, mergef: File)
    requires |Rounds(sources, n).nfiles| > 0 && m == Least(Rounds(sources, n).nfiles)
    requires (nfiles, readers, mergef) == RoundFrom(Rounds(sources, n).nfiles, Rounds(sources, n).readers, m, Rounds(sources, n).nfiles[m], 0)
    ensures Rounds(sources, n + 1) == Stage(Rounds(sources, n).out + [mergef], nfiles, readers)
  {
    hide RoundFrom, Least, Firsts;
  }

  // The loop over all groups.  The files put out are in order, and hold together exactly the articles
  // the readers had.  A file's count of parts is never too low; all are right when they were to begin
  // with, and no two messages claim the same part of the same post (CountTooHigh shows what can happen
  // otherwise).  When no reader has a key twice, a key comes out again only with parts whose numbers are
  // taken by other messages in the earlier file: all that could be merged was.
  method MergeGroups(sources: seq<seq<File>>, ghost strict: bool) returns (out: seq<File>, ghost rounds: nat)
    requires Readers(sources, strict)
    ensures FilesSorted(out)
    ensures ListBag(out) == ReadersBag(sources)
    ensures forall k :: 0 <= k < |out| ==> Fine(out[k], false)
    ensures Clean(ReadersBag(sources)) && AllCounted(sources) ==> FilesOk(out)
    ensures strict ==> OutRefused(out)
    ensures Rounds(sources, rounds) == Stage(out, [], [])
  {
    hide Between, Round, Clean, FileBag, ListBag, PendingBag, ReaderOk, AllCounted, Rounds, RoundFrom, Least, Firsts;
    var nfiles, readers := FirstFiles(sources);
    ghost var total := ReadersBag(sources);
    ghost var c := Setting(total, Size(readers), [], Clean(total) && AllCounted(sources), strict);
    BetweenStart(total, sources, nfiles, readers, c);
    out, rounds := [], 0;
    RoundsStart(sources);
    while |nfiles| > 0
      invariant |nfiles| == |readers| && c.out == out && c.strict == strict && c.clean == (Clean(total) && AllCounted(sources))
      invariant Between(total, nfiles, readers, c)
      invariant Rounds(sources, rounds) == Stage(out, nfiles, readers)
      decreases Size(readers)
    {
      var m := MinElement(nfiles);
      RoundStart(total, nfiles, readers, c, m);
      var nfiles', readers', mergef;
      ghost var at;
      nfiles', readers', mergef, at := MergeRound(nfiles, readers, m, c);
      RoundEnd(total, c, nfiles, readers, nfiles', readers', at, mergef);
      RoundsMore(sources, rounds, m, nfiles', readers', mergef);
      nfiles, readers, out, rounds := nfiles', readers', out + [mergef], rounds + 1;
      RoundShape(c, nfiles, readers, at, mergef);
      c := Setting(PendingBag(nfiles, readers), Size(readers), out, c.clean, c.strict);
    }
    BetweenEnd(total, nfiles, readers, c);
    assert nfiles == [] && readers == [];
  }

  lemma RoundsStart(sources: seq<seq<File>>)
    ensures Rounds(sources, 0) == Stage([], Firsts(sources).0, Firsts(sources).1)
  {
  }

  lemma RoundShape(c: Setting, nfiles: seq<File>, readers: seq<seq<File>>, at: int, m: File)
    requires Round(c, nfiles, readers, at, m, |nfiles|, false)
    ensures |nfiles| == |readers|
  {
  }

  // The first file of every reader that has one.
  method FirstFiles(sources: seq<seq<File>>) returns (nfiles: seq<File>, readers: seq<seq<File>>)
    ensures |nfiles| == |readers| && (nfiles, readers) == Firsts(sources)
    ensures PendingBag(nfiles, readers) == ReadersBag(sources)
    ensures forall k :: 0 <= k < |nfiles| ==> [nfiles[k]] + readers[k] in sources
  {
    hide FileBag, ListBag, Firsts;
    nfiles, readers := [], [];
    NoFirsts();
    assert sources[..0] == [];
    for k := 0 to |sources|
      invariant |nfiles| == |readers| && (nfiles, readers) == Firsts(sources[..k])
      invariant PendingBag(nfiles, readers) == ReadersBag(sources[..k])
      invariant forall k :: 0 <= k < |nfiles| ==> [nfiles[k]] + readers[k] in sources
    {
      assert sources[..k + 1] == sources[..k] + [sources[k]];
      ReadersBagSnoc(sources[..k], sources[k]);
      FirstsSnoc(sources[..k], sources[k]);
      if |sources[k]| > 0 {
        PendingBagSnoc(nfiles, readers, sources[k][0], sources[k][1..]);
        ListBagHead(sources[k]);
        assert [sources[k][0]] + sources[k][1..] == sources[k];
        nfiles, readers := nfiles + [sources[k][0]], readers + [sources[k][1..]];
      } else {
        NoFiles();
      }
    }
    assert sources[..|sources|] == sources;
  }

  lemma NoFiles()
    ensures ListBag([]) == multiset{}
  {
  }

  lemma {:induction false} ReadersBagSnoc(rs: seq<seq<File>>, fs: seq<File>)
    ensures ReadersBag(rs + [fs]) == ReadersBag(rs) + ListBag(fs)
  {
    hide ListBag;
    if |rs| == 0 {
      assert rs + [fs] == [fs] && [fs][1..] == [];
    } else {
      assert (rs + [fs])[1..] == rs[1..] + [fs];
      ReadersBagSnoc(rs[1..], fs);
    }
  }

  lemma {:induction false} PendingBagSnoc(nfiles: seq<File>, readers: seq<seq<File>>, f: File, rest: seq<File>)
    requires |nfiles| == |readers|
    ensures PendingBag(nfiles + [f], readers + [rest]) == PendingBag(nfiles, readers) + (FileBag(f) + ListBag(rest))
  {
    hide FileBag, ListBag;
    if |nfiles| == 0 {
      assert nfiles + [f] == [f] && readers + [rest] == [rest] && [f][1..] == [] && [rest][1..] == [];
    } else {
      assert (nfiles + [f])[1..] == nfiles[1..] + [f] && (readers + [rest])[1..] == readers[1..] + [rest];
      PendingBagSnoc(nfiles[1..], readers[1..], f, rest);
    }
  }

  lemma BetweenStart(total: multiset<Item>, sources: seq<seq<File>>, nfiles: seq<File>, readers: seq<seq<File>>, c: Setting)
    requires |nfiles| == |readers| && PendingBag(nfiles, readers) == total && Readers(sources, c.strict)
    requires c == Setting(total, Size(readers), [], Clean(total) && AllCounted(sources), c.strict)
    requires forall k :: 0 <= k < |nfiles| ==> [nfiles[k]] + readers[k] in sources
    ensures Between(total, nfiles, readers, c)
  {
    hide PendingBag, Size, ReaderOk, Clean, FilesOk;
    forall k | 0 <= k < |nfiles|
      ensures Fine(nfiles[k], c.clean) && ReaderOk(readers[k], c.clean, c.strict) && Follows(nfiles[k], readers[k], c.strict)
    {
      var whole := [nfiles[k]] + readers[k];
      assert whole[0] == nfiles[k] && whole[1..] == readers[k];
      if c.clean { RightlyCounted(whole, c.strict); }
      ReadOn(whole, c.clean, c.strict);
    }
    NoFiles();
  }

  lemma RightlyCounted(rest: seq<File>, strict: bool)
    requires ReaderOk(rest, false, strict) && FilesOk(rest)
    ensures ReaderOk(rest, true, strict)
  {
    hide Follows, Counted, PartsOk;
    forall k | 0 <= k < |rest|
      ensures Fine(rest[k], true)
    {
      assert FileOk(rest[k]);
    }
  }

  lemma BetweenEnd(total: multiset<Item>, nfiles: seq<File>, readers: seq<seq<File>>, c: Setting)
    requires Between(total, nfiles, readers, c) && |nfiles| == 0
    ensures FilesSorted(c.out) && ListBag(c.out) == total
    ensures forall k :: 0 <= k < |c.out| ==> Fine(c.out[k], false)
    ensures c.clean ==> FilesOk(c.out)
    ensures c.strict ==> OutRefused(c.out)
  {
    hide ListBag, OutRefused, FilesSorted, Counted, PartsOk;
  }

  // ---------- a count that is too high ----------

  const POST: Key := Key(2, 0, "a", "s", [])

  function OnePartOf(partnum: int, mid: string): Part {
    Part(partnum, [Article(0, "g", 1, 0, 0)], 0, mid)
  }

  function PostFile(parts: seq<Part>, have: int): File {
    File(POST, parts, have, 0, 0, 0)
  }

  // The first group has part 1 of a post, the second another part 1, and part 2.  Part 2 goes to the
  // first file; the second one still counts it.
  function ClashingGroups(): seq<seq<File>> {
    [[PostFile([OnePartOf(1, "x")], 1)], [PostFile([OnePartOf(1, "y"), OnePartOf(2, "z")], 2)]]
  }

  lemma ClashingGroupsOk()
    ensures Readers(ClashingGroups(), true) && AllCounted(ClashingGroups())
  {
    var a, b := ClashingGroups()[0][0], ClashingGroups()[1][0];
    assert ClashingGroups()[0] == [a] && ClashingGroups()[1] == [b];
    assert a.parts[1..] == [] && b.parts[1..] == [OnePartOf(2, "z")] && b.parts[1..][1..] == [];
    assert Counted(a.parts, 2) == 1 && Counted(b.parts, 2) == 2;
    assert FileOk(a) && FileOk(b);
  }

  lemma ClashingMerge()
    ensures MergedPair(ClashingGroups()[0][0], ClashingGroups()[1][0])
         == (PostFile([OnePartOf(1, "x"), OnePartOf(2, "z")], 2), PostFile([OnePartOf(1, "y")], 2))
  {
    var a, b := ClashingGroups()[0][0], ClashingGroups()[1][0];
    var x, y, z := OnePartOf(1, "x"), OnePartOf(2, "z"), OnePartOf(1, "y");
    assert b.parts[..1] == [z] && b.parts[..1][..0] == [];
    assert PlaceOf([x], 1) == 0 && PlaceOf([x], 2) == 1 by { assert [x][1..] == []; }
    assert MovePart(a, z).None?;
    assert MoveParts(a, [z]) == (a, [z]) by { assert [z][..0] == [] && [] + [z] == [z]; }
    assert [x][..1] + [y] + [x][1..] == [x, y];
    assert MovePart(a, y) == Some(PostFile([x, y], 2));
    assert MoveParts(a, b.parts) == (PostFile([x, y], 2), [z]);
  }

  // However often it goes round, what MergeGroups puts out for these groups has a wrong count.
  lemma CountTooHigh(out: seq<File>, n: nat)
    requires Rounds(ClashingGroups(), n) == Stage(out, [], [])
    ensures |out| == 2 && !FileOk(out[1]) && out[1].have == 2 && |out[1].parts| == 1
    ensures !FilesOk(out) && Readers(ClashingGroups(), true) && AllCounted(ClashingGroups())
  {
    ClashingGroupsOk();
    hide Readers, AllCounted;
    var g := ClashingGroups();
    var a, b := g[0][0], g[1][0];
    var a', b' := PostFile([OnePartOf(1, "x"), OnePartOf(2, "z")], 2), PostFile([OnePartOf(1, "y")], 2);
    assert Rounds(g, 0) == Stage([], [a, b], [[], []]) by { ClashingFirsts(); }
    ClashingMerge();
    LessTotal(POST, POST);
    assert Least([a, b]) == 0 by { assert [a, b][..1] == [a]; }
    assert Rounds(g, 1) == Stage([a'], [b'], [[]]) by { FirstClashingRound(); }
    assert Rounds(g, 2) == Stage([a', b'], [], []) by { SecondClashingRound(); }
    if n > 2 { NoMoreRounds(g, 2, n); }
    assert out == [a', b'];
    assert b'.parts[1..] == [];
    assert Counted(b'.parts, 2) == 1;
  }

  lemma ClashingFirsts()
    ensures Firsts(ClashingGroups()) == ([ClashingGroups()[0][0], ClashingGroups()[1][0]], [[], []])
  {
    var g := ClashingGroups();
    TwoFirsts(g[0][0], g[1][0]);
    assert g == [[g[0][0]], [g[1][0]]];
  }

  lemma TwoFirsts(a: File, b: File)
    ensures Firsts([[a], [b]]) == ([a, b], [[], []])
  {
    hide Firsts;
    var none: seq<File> := [];
    NoFirsts();
    FirstsSnoc([], [a]);
    assert [] + [[a]] == [[a]] && [a][1..] == none && [] + [a] == [a] && [] + [none] == [none];
    assert Firsts([[a]]) == ([a], [none]);
    FirstsSnoc([[a]], [b]);
    assert [[a]] + [[b]] == [[a], [b]] && [b][1..] == none && [a] + [b] == [a, b] && [none] + [none] == [none, none];
  }

  lemma FirstClashingRound()
    ensures var a, b := ClashingGroups()[0][0], ClashingGroups()[1][0];
      RoundFrom([a, b], [[], []], 0, a, 0)
      == ([PostFile([OnePartOf(1, "y")], 2)], [[]], PostFile([OnePartOf(1, "x"), OnePartOf(2, "z")], 2))
  {
    var a, b := ClashingGroups()[0][0], ClashingGroups()[1][0];
    var a', b' := PostFile([OnePartOf(1, "x"), OnePartOf(2, "z")], 2), PostFile([OnePartOf(1, "y")], 2);
    ClashingMerge();
    hide MergedPair;
    OtherStep([a, b], [[], []], 0, a, 0);
    ReadStep([a, b], [[], []], 0, a, 0);
    var none: seq<File> := [];
    assert [a, b][..0] + [a, b][1..] == [b] && [none, none][..0] + [none, none][1..] == [none];
    MergedStep([b], [[]], -1, a, 0, a', b');
    assert [b][0 := b'] == [b'];
    RoundIsOver([b'], [[]], -1, a', 1);
  }

  lemma SecondClashingRound()
    ensures var b' := PostFile([OnePartOf(1, "y")], 2); RoundFrom([b'], [[]], 0, b', 0) == ([], [], b')
  {
    var b' := PostFile([OnePartOf(1, "y")], 2);
    OtherStep([b'], [[]], 0, b', 0);
    ReadStep([b'], [[]], 0, b', 0);
    RoundIsOver([], [], -1, b', 0);
  }

  lemma {:induction false} NoMoreRounds(sources: seq<seq<File>>, n: nat, m: nat)
    requires n <= m && |Rounds(sources, n).nfiles| == 0
    ensures Rounds(sources, m) == Rounds(sources, n)
  {
    if n < m { NoMoreRounds(sources, n, m - 1); }
  }
}
