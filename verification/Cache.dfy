// The header cache of one group: adding headers, flushing ranges of article numbers, and working out
// which numbers are held.  Counters are kept beside the lists they count.
module Cache {
  import opened Common
  import opened FileOrder
  import opened CacheFiles
  import R = NRange

  // Article numbers are unsigned longs, from 1 (section 6 of RFC 3977); the last one is not used.
  const MAX_ARTICLE: nat := R.MAX - 1

  datatype ServerInfo = ServerInfo(high: nat, low: nat, num: int)

  const RESET: ServerInfo := ServerInfo(0, R.MAX, 0)

  datatype Header = Header(key: Key, serverid: nat, group: string, partnum: int, tailoff: int,
                           articlenum: nat, date: int, bytes: nat, lines: nat, mid: string)

  function HeaderArticle(h: Header): Article {
    Article(h.serverid, h.group, h.articlenum, h.bytes, h.lines)
  }

  function HeaderItem(h: Header): Item {
    Item(h.key, h.partnum, h.mid, HeaderArticle(h))
  }

  // ---------- counting and filtering articles ----------

  function CountServer(items: seq<Item>, sid: nat): nat {
    if |items| == 0 then 0 else CountServer(items[1..], sid) + (if items[0].article.serverid == sid then 1 else 0)
  }

  lemma {:induction false} CountServerAppend(a: seq<Item>, b: seq<Item>, sid: nat)
    ensures CountServer(a + b, sid) == CountServer(a, sid) + CountServer(b, sid)
  {
    if |a| == 0 {
      assert a + b == b;
    } else {
      assert (a + b)[1..] == a[1..] + b;
      CountServerAppend(a[1..], b, sid);
    }
  }

  // b is a with one item more, at place pos.
  ghost predicate InsertedAt(a: seq<Item>, b: seq<Item>, pos: nat, item: Item) {
    pos <= |a| && b == a[..pos] + [item] + a[pos..]
  }

  lemma CountInserted(a: seq<Item>, b: seq<Item>, pos: nat, item: Item, sid: nat)
    requires InsertedAt(a, b, pos, item)
    ensures CountServer(b, sid) == CountServer(a, sid) + (if item.article.serverid == sid then 1 else 0)
  {
    assert a == a[..pos] + a[pos..];
    CountServerAppend(a[..pos], a[pos..], sid);
    CountServerAppend(a[..pos] + [item], a[pos..], sid);
    CountServerAppend(a[..pos], [item], sid);
    assert [item][1..] == [];
  }

  // The article is on the server and in the range.
  predicate Goes(a: Article, sid: nat, r: R.RList) {
    a.serverid == sid && var i := R.LowerBound(r, a.articlenum); i.Some? && r[i.value] <= a.articlenum
  }

  function KeepArticles(arts: seq<Article>, sid: nat, r: R.RList): seq<Article> {
    if |arts| == 0 then []
    else (if Goes(arts[0], sid, r) then [] else [arts[0]]) + KeepArticles(arts[1..], sid, r)
  }

  function KeepPart(p: Part, sid: nat, r: R.RList): seq<Part> {
    var arts := KeepArticles(p.articles, sid, r);
    if |arts| == 0 then [] else [p.(articles := arts)]
  }

  function KeepParts(ps: seq<Part>, sid: nat, r: R.RList): seq<Part> {
    if |ps| == 0 then [] else KeepPart(ps[0], sid, r) + KeepParts(ps[1..], sid, r)
  }

  function KeepFile(f: File, sid: nat, r: R.RList): seq<File> {
    var ps := KeepParts(f.parts, sid, r);
    if |ps| == 0 then []
    else [f.(parts := ps, have := f.have - Counted(f.parts, f.key.req) + Counted(ps, f.key.req))]
  }

  function KeepFiles(fs: seq<File>, sid: nat, r: R.RList): seq<File> {
    if |fs| == 0 then [] else KeepFile(fs[0], sid, r) + KeepFiles(fs[1..], sid, r)
  }

  function KeepItem(item: Item, sid: nat, r: R.RList): seq<Item> {
    if Goes(item.article, sid, r) then [] else [item]
  }

  function KeepItems(items: seq<Item>, sid: nat, r: R.RList): seq<Item> {
    if |items| == 0 then [] else KeepItem(items[0], sid, r) + KeepItems(items[1..], sid, r)
  }

  lemma {:induction false} KeepItemsAppend(a: seq<Item>, b: seq<Item>, sid: nat, r: R.RList)
    ensures KeepItems(a + b, sid, r) == KeepItems(a, sid, r) + KeepItems(b, sid, r)
  {
    hide KeepItem;
    if |a| == 0 {
      assert a + b == b;
    } else {
      assert (a + b)[1..] == a[1..] + b;
      KeepItemsAppend(a[1..], b, sid, r);
      Assoc(KeepItem(a[0], sid, r), KeepItems(a[1..], sid, r), KeepItems(b, sid, r));
    }
  }

  lemma {:induction false} KeepPartsAppend(a: seq<Part>, b: seq<Part>, sid: nat, r: R.RList)
    ensures KeepParts(a + b, sid, r) == KeepParts(a, sid, r) + KeepParts(b, sid, r)
  {
    hide KeepPart;
    if |a| == 0 {
      assert a + b == b;
    } else {
      assert (a + b)[1..] == a[1..] + b;
      KeepPartsAppend(a[1..], b, sid, r);
      Assoc(KeepPart(a[0], sid, r), KeepParts(a[1..], sid, r), KeepParts(b, sid, r));
    }
  }

  lemma {:induction false} KeepFilesAppend(a: seq<File>, b: seq<File>, sid: nat, r: R.RList)
    ensures KeepFiles(a + b, sid, r) == KeepFiles(a, sid, r) + KeepFiles(b, sid, r)
  {
    hide KeepFile;
    if |a| == 0 {
      assert a + b == b;
    } else {
      assert (a + b)[1..] == a[1..] + b;
      KeepFilesAppend(a[1..], b, sid, r);
      Assoc(KeepFile(a[0], sid, r), KeepFiles(a[1..], sid, r), KeepFiles(b, sid, r));
    }
  }

  lemma PartItemsCons(key: Key, p: Part, a: Article)
    ensures PartItems(key, p.(articles := [a] + p.articles)) == [Item(key, p.partnum, p.mid, a)] + PartItems(key, p)
  {
  }

  // Dropping articles from parts and files drops exactly the items of those articles.
  lemma {:induction false} PartItemsKept(key: Key, p: Part, sid: nat, r: R.RList)
    ensures PartItems(key, p.(articles := KeepArticles(p.articles, sid, r))) == KeepItems(PartItems(key, p), sid, r)
    decreases |p.articles|
  {
    if |p.articles| > 0 {
      var q := p.(articles := p.articles[1..]);
      PartItemsKept(key, q, sid, r);
      var item := Item(key, p.partnum, p.mid, p.articles[0]);
      PartItemsCons(key, q, p.articles[0]);
      assert [p.articles[0]] + q.articles == p.articles;
      PartItemsCons(key, q.(articles := KeepArticles(q.articles, sid, r)), p.articles[0]);
      hide PartItems, Goes;
      assert ([item] + PartItems(key, q))[1..] == PartItems(key, q);
      assert [] + KeepArticles(q.articles, sid, r) == KeepArticles(q.articles, sid, r);
    }
  }

  lemma {:induction false} PartsItemsKept(key: Key, ps: seq<Part>, sid: nat, r: R.RList)
    ensures PartsItems(key, KeepParts(ps, sid, r)) == KeepItems(PartsItems(key, ps), sid, r)
  {
    if |ps| > 0 {
      PartItemsKept(key, ps[0], sid, r);
      PartsItemsKept(key, ps[1..], sid, r);
      KeepItemsAppend(PartItems(key, ps[0]), PartsItems(key, ps[1..]), sid, r);
      var kept := ps[0].(articles := KeepArticles(ps[0].articles, sid, r));
      PartsItemsAppend(key, KeepPart(ps[0], sid, r), KeepParts(ps[1..], sid, r));
      OnePart(key, kept);
    }
  }

  lemma {:induction false} ItemsKept(fs: seq<File>, sid: nat, r: R.RList)
    ensures Items(KeepFiles(fs, sid, r)) == KeepItems(Items(fs), sid, r)
  {
    if |fs| > 0 {
      PartsItemsKept(fs[0].key, fs[0].parts, sid, r);
      ItemsKept(fs[1..], sid, r);
      KeepItemsAppend(FileItems(fs[0]), Items(fs[1..]), sid, r);
      ItemsAppend(KeepFile(fs[0], sid, r), KeepFiles(fs[1..], sid, r));
      var ps := KeepParts(fs[0].parts, sid, r);
      if |ps| > 0 { OneFile(KeepFile(fs[0], sid, r)[0]); }
    }
  }

  // What is kept is what was there and does not go.
  lemma {:induction false} KeepItemsExact(items: seq<Item>, sid: nat, r: R.RList, item: Item)
    ensures item in KeepItems(items, sid, r) <==> item in items && !Goes(item.article, sid, r)
  {
    if |items| > 0 { KeepItemsExact(items[1..], sid, r, item); }
  }

  // Only articles of the server go.
  lemma {:induction false} KeepItemsCount(items: seq<Item>, sid: nat, r: R.RList, other: nat)
    ensures |KeepItems(items, sid, r)| <= |items|
    ensures CountServer(KeepItems(items, sid, r), other)
            == CountServer(items, other) - (if other == sid then |items| - |KeepItems(items, sid, r)| else 0)
  {
    if |items| > 0 {
      KeepItemsCount(items[1..], sid, r, other);
      CountServerAppend(KeepItem(items[0], sid, r), KeepItems(items[1..], sid, r), other);
    }
  }

  // The message-ids of the parts that lose all their articles, in the order they are dropped: file by
  // file, the last part of a file first.
  function GonePart(p: Part, sid: nat, r: R.RList): seq<string> {
    if |KeepArticles(p.articles, sid, r)| == 0 then [p.mid] else []
  }

  function GoneParts(ps: seq<Part>, sid: nat, r: R.RList): seq<string> {
    if |ps| == 0 then [] else GoneParts(ps[1..], sid, r) + GonePart(ps[0], sid, r)
  }

  function GoneFiles(fs: seq<File>, sid: nat, r: R.RList): seq<string> {
    if |fs| == 0 then [] else GoneParts(fs[0].parts, sid, r) + GoneFiles(fs[1..], sid, r)
  }

  lemma {:induction false} GoneAppend(a: seq<File>, b: seq<File>, sid: nat, r: R.RList)
    ensures GoneFiles(a + b, sid, r) == GoneFiles(a, sid, r) + GoneFiles(b, sid, r)
  {
    if |a| == 0 {
      assert a + b == b && [] + GoneFiles(b, sid, r) == GoneFiles(b, sid, r);
    } else {
      hide GoneParts, GoneFiles;
      assert (a + b)[1..] == a[1..] + b && (a + b)[0] == a[0];
      GoneFirst(a, sid, r);
      GoneFirst(a + b, sid, r);
      GoneAppend(a[1..], b, sid, r);
      Assoc(GoneParts(a[0].parts, sid, r), GoneFiles(a[1..], sid, r), GoneFiles(b, sid, r));
    }
  }

  lemma GoneFirst(fs: seq<File>, sid: nat, r: R.RList)
    requires |fs| > 0
    ensures GoneFiles(fs, sid, r) == GoneParts(fs[0].parts, sid, r) + GoneFiles(fs[1..], sid, r)
  {
    hide GoneParts;
  }

  lemma GoneSnoc(fs: seq<File>, done: nat, sid: nat, r: R.RList)
    requires done < |fs|
    ensures GoneFiles(fs[..done + 1], sid, r) == GoneFiles(fs[..done], sid, r) + GoneParts(fs[done].parts, sid, r)
  {
    var g := GoneParts(fs[done].parts, sid, r);
    assert fs[..done + 1] == fs[..done] + [fs[done]];
    GoneAppend(fs[..done], [fs[done]], sid, r);
    assert GoneFiles([fs[done]], sid, r) == g by { assert [fs[done]][1..] == []; assert g + [] == g; }
  }

  // Every article of the part goes.
  ghost predicate AllGo(p: Part, sid: nat, r: R.RList) {
    forall j :: 0 <= j < |p.articles| ==> Goes(p.articles[j], sid, r)
  }

  lemma {:induction false} KeepsNothing(arts: seq<Article>, sid: nat, r: R.RList)
    ensures |KeepArticles(arts, sid, r)| == 0 <==> forall j :: 0 <= j < |arts| ==> Goes(arts[j], sid, r)
  {
    hide Goes;
    if |arts| > 0 {
      KeepsNothing(arts[1..], sid, r);
      assert forall j :: 0 <= j < |arts[1..]| ==> arts[1..][j] == arts[j + 1];
    }
  }

  ghost predicate GoneFrom(ps: seq<Part>, sid: nat, r: R.RList, mid: string) {
    exists k :: 0 <= k < |ps| && ps[k].mid == mid && AllGo(ps[k], sid, r)
  }

  lemma {:induction false} GonePartsMean(ps: seq<Part>, sid: nat, r: R.RList, mid: string)
    ensures mid in GoneParts(ps, sid, r) <==> GoneFrom(ps, sid, r, mid)
  {
    hide Goes, AllGo;
    if |ps| > 0 {
      var rest := ps[1..];
      GonePartsMean(rest, sid, r, mid);
      assert AllGo(ps[0], sid, r) <==> |KeepArticles(ps[0].articles, sid, r)| == 0 by { AllGoIs(ps[0], sid, r); }
      if k :| 0 <= k < |rest| && rest[k].mid == mid && AllGo(rest[k], sid, r) { assert rest[k] == ps[k + 1]; }
      if k :| 0 < k < |ps| && ps[k].mid == mid && AllGo(ps[k], sid, r) { assert rest[k - 1] == ps[k]; }
    }
  }

  lemma AllGoIs(p: Part, sid: nat, r: R.RList)
    ensures AllGo(p, sid, r) <==> |KeepArticles(p.articles, sid, r)| == 0
  {
    KeepsNothing(p.articles, sid, r);
  }

  // They are the message-ids of exactly the parts all of whose articles go.
  lemma {:induction false} GoneMeans(fs: seq<File>, sid: nat, r: R.RList, mid: string)
    ensures mid in GoneFiles(fs, sid, r) <==> exists i :: 0 <= i < |fs| && GoneFrom(fs[i].parts, sid, r, mid)
  {
    hide GoneFrom;
    if |fs| > 0 {
      var rest := fs[1..];
      GoneMeans(rest, sid, r, mid);
      GonePartsMean(fs[0].parts, sid, r, mid);
      if i :| 0 <= i < |rest| && GoneFrom(rest[i].parts, sid, r, mid) { assert rest[i] == fs[i + 1]; }
      if i :| 0 < i < |fs| && GoneFrom(fs[i].parts, sid, r, mid) { assert rest[i - 1] == fs[i]; }
    }
  }

  // Ranges that agree on the articles there are make the same parts go.
  ghost predicate GoAlike(items: seq<Item>, sid: nat, m: R.RList, r: R.RList) {
    forall item :: item in items ==> (Goes(item.article, sid, m) <==> Goes(item.article, sid, r))
  }

  lemma {:induction false} KeepAlike(arts: seq<Article>, sid: nat, m: R.RList, r: R.RList)
    requires forall j :: 0 <= j < |arts| ==> (Goes(arts[j], sid, m) <==> Goes(arts[j], sid, r))
    ensures KeepArticles(arts, sid, m) == KeepArticles(arts, sid, r)
  {
    hide Goes;
    if |arts| > 0 {
      assert forall j :: 0 <= j < |arts[1..]| ==> arts[1..][j] == arts[j + 1];
      KeepAlike(arts[1..], sid, m, r);
    }
  }

  lemma GoneAlikePart(key: Key, p: Part, sid: nat, m: R.RList, r: R.RList)
    requires GoAlike(PartItems(key, p), sid, m, r)
    ensures GonePart(p, sid, m) == GonePart(p, sid, r)
  {
    hide Goes;
    forall j | 0 <= j < |p.articles|
      ensures Goes(p.articles[j], sid, m) <==> Goes(p.articles[j], sid, r)
    {
      assert PartItems(key, p)[j].article == p.articles[j];
    }
    KeepAlike(p.articles, sid, m, r);
  }

  lemma {:induction false} GoneAlikeParts(key: Key, ps: seq<Part>, sid: nat, m: R.RList, r: R.RList)
    requires GoAlike(PartsItems(key, ps), sid, m, r)
    ensures GoneParts(ps, sid, m) == GoneParts(ps, sid, r)
  {
    hide Goes, GonePart;
    if |ps| > 0 {
      GoneAlikePart(key, ps[0], sid, m, r);
      GoneAlikeParts(key, ps[1..], sid, m, r);
    }
  }

  lemma {:induction false} GoneAlike(fs: seq<File>, sid: nat, m: R.RList, r: R.RList)
    requires GoAlike(Items(fs), sid, m, r)
    ensures GoneFiles(fs, sid, m) == GoneFiles(fs, sid, r)
  {
    hide Goes, GoneParts;
    if |fs| > 0 {
      GoneAlikeParts(fs[0].key, fs[0].parts, sid, m, r);
      GoneAlike(fs[1..], sid, m, r);
    }
  }

  // A file left over: all it had but for articles, parts left without any, and its count.
  ghost predicate StemsFrom(g: File, f: File) {
    && g == f.(parts := g.parts, have := g.have)
    && forall i :: 0 <= i < |g.parts| ==> OldPart(g.parts[i], f.parts)
  }

  ghost predicate OldPart(p: Part, ps: seq<Part>) {
    exists q :: q in ps && p == q.(articles := p.articles)
  }

  ghost predicate OldFile(g: File, fs: seq<File>) {
    exists f :: f in fs && StemsFrom(g, f)
  }

  // Every file comes from one there was.
  ghost predicate Stem(gs: seq<File>, fs: seq<File>) {
    forall k :: 0 <= k < |gs| ==> OldFile(gs[k], fs)
  }

  lemma {:induction false} PartsStem(ps: seq<Part>, sid: nat, r: R.RList)
    ensures forall i :: 0 <= i < |KeepParts(ps, sid, r)| ==> OldPart(KeepParts(ps, sid, r)[i], ps)
  {
    hide KeepArticles;
    if |ps| > 0 {
      PartsStem(ps[1..], sid, r);
      forall i | 0 <= i < |KeepParts(ps, sid, r)|
        ensures OldPart(KeepParts(ps, sid, r)[i], ps)
      {
        var first := KeepPart(ps[0], sid, r);
        if i < |first| {
          assert KeepParts(ps, sid, r)[i] == first[0] && ps[0] in ps;
        } else {
          assert OldPart(KeepParts(ps[1..], sid, r)[i - |first|], ps[1..]);
          var q :| q in ps[1..] && KeepParts(ps, sid, r)[i] == q.(articles := KeepParts(ps, sid, r)[i].articles);
          assert q in ps;
        }
      }
    }
  }

  lemma KeptStems(f: File, sid: nat, r: R.RList)
    ensures forall k :: 0 <= k < |KeepFile(f, sid, r)| ==> StemsFrom(KeepFile(f, sid, r)[k], f)
  {
    hide KeepParts, Counted, OldPart;
    PartsStem(f.parts, sid, r);
  }

  lemma SameStem(fs: seq<File>)
    ensures Stem(fs, fs)
  {
    forall k | 0 <= k < |fs|
      ensures OldFile(fs[k], fs)
    {
      forall i | 0 <= i < |fs[k].parts|
        ensures OldPart(fs[k].parts[i], fs[k].parts)
      {
        assert fs[k].parts[i] in fs[k].parts;
      }
      assert StemsFrom(fs[k], fs[k]);
    }
  }

  // A flush leaves the dates, message-ids, offsets and flags of what it keeps alone.
  lemma {:induction false} FilesStem(fs: seq<File>, sid: nat, r: R.RList)
    ensures Stem(KeepFiles(fs, sid, r), fs)
  {
    hide KeepFile, StemsFrom;
    if |fs| > 0 {
      FilesStem(fs[1..], sid, r);
      KeptStems(fs[0], sid, r);
      var gs, first := KeepFiles(fs, sid, r), KeepFile(fs[0], sid, r);
      forall k | 0 <= k < |gs|
        ensures OldFile(gs[k], fs)
      {
        if k < |first| {
          assert gs[k] == first[k] && fs[0] in fs;
        } else {
          assert gs[k] == KeepFiles(fs[1..], sid, r)[k - |first|];
          var f :| f in fs[1..] && StemsFrom(gs[k], f);
          assert f in fs;
        }
      }
    }
  }

  // ---------- what stays well-formed ----------

  ghost predicate Above(ps: seq<Part>, n: int) {
    forall i :: 0 <= i < |ps| ==> n < ps[i].partnum
  }

  ghost predicate NoneBefore(fs: seq<File>, key: Key) {
    forall i :: 0 <= i < |fs| ==> NotAfter(key, fs[i].key)
  }

  lemma PartsOkCons(p: Part, ps: seq<Part>)
    ensures PartsOk([p] + ps) <==> |p.articles| > 0 && Above(ps, p.partnum) && PartsOk(ps)
  {
    var all := [p] + ps;
    assert all[0] == p && all[1..] == ps;
    if PartsOk(all) {
      assert forall i :: 0 <= i < |ps| ==> all[i + 1] == ps[i];
    }
  }

  lemma FilesOkCons(f: File, fs: seq<File>)
    ensures FilesOk([f] + fs) && FilesSorted([f] + fs) <==> FileOk(f) && NoneBefore(fs, f.key) && FilesOk(fs) && FilesSorted(fs)
  {
    hide FileOk, NotAfter;
    var all := [f] + fs;
    assert all[0] == f && all[1..] == fs;
    assert forall i :: 0 <= i < |fs| ==> all[i + 1] == fs[i];
  }

  lemma {:induction false} KeptAbove(ps: seq<Part>, n: int, sid: nat, r: R.RList)
    requires Above(ps, n)
    ensures Above(KeepParts(ps, sid, r), n)
  {
    if |ps| > 0 { KeptAbove(ps[1..], n, sid, r); }
  }

  // The parts kept are in order and not empty.
  lemma {:induction false} KeptPartsOk(ps: seq<Part>, sid: nat, r: R.RList)
    requires PartsOk(ps)
    ensures PartsOk(KeepParts(ps, sid, r)) && |KeepParts(ps, sid, r)| <= |ps|
  {
    if |ps| > 0 {
      hide PartsOk, Above, KeepPart;
      assert ps == [ps[0]] + ps[1..];
      PartsOkCons(ps[0], ps[1..]);
      KeptPartsOk(ps[1..], sid, r);
      KeptAbove(ps[1..], ps[0].partnum, sid, r);
      var rest := KeepParts(ps[1..], sid, r);
      var first := KeepPart(ps[0], sid, r);
      KeptPartIs(ps[0], sid, r);
      if |first| > 0 { PartsOkCons(first[0], rest); } else { assert first + rest == rest; }
    }
  }

  lemma KeptPartIs(p: Part, sid: nat, r: R.RList)
    ensures var k := KeepPart(p, sid, r);
      |k| == 0 || (k == [k[0]] && k[0].partnum == p.partnum && |k[0].articles| > 0)
  {
  }

  lemma {:induction false} KeptNoneBefore(fs: seq<File>, key: Key, sid: nat, r: R.RList)
    requires NoneBefore(fs, key)
    ensures NoneBefore(KeepFiles(fs, sid, r), key)
  {
    if |fs| > 0 { KeptNoneBefore(fs[1..], key, sid, r); }
  }

  lemma KeptFileOk(f: File, sid: nat, r: R.RList)
    requires FileOk(f)
    ensures |KeepFile(f, sid, r)| <= 1 && TotalParts(KeepFile(f, sid, r)) <= |f.parts|
    ensures |KeepFile(f, sid, r)| == 1 ==> FileOk(KeepFile(f, sid, r)[0]) && KeepFile(f, sid, r)[0].key == f.key
  {
    KeptPartsOk(f.parts, sid, r);
    var k := KeepFile(f, sid, r);
    if |k| == 1 { assert k[1..] == []; }
  }

  // The files kept are in order, with right counts.
  lemma {:induction false} KeptFilesOk(fs: seq<File>, sid: nat, r: R.RList)
    requires FilesOk(fs) && FilesSorted(fs)
    ensures FilesOk(KeepFiles(fs, sid, r)) && FilesSorted(KeepFiles(fs, sid, r))
    ensures TotalParts(KeepFiles(fs, sid, r)) <= TotalParts(fs)
  {
    if |fs| > 0 {
      assert fs == [fs[0]] + fs[1..];
      FilesOkCons(fs[0], fs[1..]);
      KeptFilesOk(fs[1..], sid, r);
      KeptNoneBefore(fs[1..], fs[0].key, sid, r);
      KeptFileOk(fs[0], sid, r);
      hide FilesOk, FilesSorted, FileOk, NoneBefore, KeepFile;
      var rest := KeepFiles(fs[1..], sid, r);
      var first := KeepFile(fs[0], sid, r);
      TotalPartsAppend(first, rest);
      if |first| > 0 {
        assert first == [first[0]];
        FilesOkCons(first[0], rest);
      } else {
        assert first + rest == rest;
      }
    }
  }

  // ---------- the cache ----------

  ghost predicate InfoOk(info: ServerInfo, items: seq<Item>, sid: nat) {
    && info.num == CountServer(items, sid)
    && 1 <= info.low <= R.MAX && info.high < R.MAX
  }

  // The article lies between the lowest and the highest number known for its server.
  ghost predicate Within(infos: map<nat, ServerInfo>, a: Article) {
    && a.serverid in infos
    && 1 <= a.articlenum && infos[a.serverid].low <= a.articlenum <= infos[a.serverid].high
  }

  ghost predicate InfosOk(infos: map<nat, ServerInfo>, items: seq<Item>) {
    && (forall sid :: sid in infos ==> InfoOk(infos[sid], items, sid))
    && (forall item :: item in items ==> Within(infos, item.article))
  }

  class NntpCache {
    var files: seq<File>          // a multimap in key order
    var totalnum: int
    var serverInfo: map<nat, ServerInfo>
    var saveit: bool

    ghost predicate Valid()
      reads this
    {
      && FilesSorted(files) && FilesOk(files)
      && totalnum == TotalParts(files)
      && InfosOk(serverInfo, Items(files))
    }

    constructor ()
      ensures Valid() && files == [] && serverInfo == map[] && !saveit
    {
      files, totalnum, serverInfo, saveit := [], 0, map[], false;
    }

    // Information about a server, created if there is none.
    method GetServerInfo(sid: nat)
      requires Valid()
      modifies this`serverInfo
      ensures Valid() && sid in serverInfo
      ensures serverInfo == if sid in old(serverInfo) then old(serverInfo) else old(serverInfo)[sid := RESET]
    {
      if sid !in serverInfo {
        NoArticles(serverInfo, Items(files), sid);
        serverInfo := serverInfo[sid := RESET];
      }
    }

    // The files with this key.
    method EqualRange(key: Key) returns (lo: nat, hi: nat)
      requires FilesSorted(files)
      ensures lo <= hi <= |files|
      ensures forall i :: 0 <= i < lo ==> Less(files[i].key, key)
      ensures forall i :: lo <= i < hi ==> files[i].key == key
      ensures forall i :: hi <= i < |files| ==> Less(key, files[i].key)
    {
      hide Less;
      lo := 0;
      while lo < |files| && Less(files[lo].key, key)
        invariant lo <= |files| && forall i :: 0 <= i < lo ==> Less(files[i].key, key)
      {
        lo := lo + 1;
      }
      hi := lo;
      while hi < |files| && !Less(key, files[hi].key)
        invariant lo <= hi <= |files| && forall i :: lo <= i < hi ==> files[i].key == key
      {
        NotBelow(files, lo, hi, key);
        hi := hi + 1;
      }
      forall i | hi <= i < |files|
        ensures Less(key, files[i].key)
      {
        if i > hi { AfterStrict(key, files[hi].key, files[i].key); }
      }
    }

    // What is known of the header's server takes in its article.
    method NoteArticle(h: Header)
      requires Valid() && 1 <= h.articlenum <= MAX_ARTICLE
      modifies this`serverInfo
      ensures serverInfo == WithArticle(old(serverInfo), h)
      ensures h.serverid in serverInfo && serverInfo == old(serverInfo)[h.serverid := serverInfo[h.serverid]]
      ensures var was, info := if h.serverid in old(serverInfo) then old(serverInfo)[h.serverid] else RESET, serverInfo[h.serverid];
        && info.num == was.num + 1
        && info.high >= was.high && info.high >= h.articlenum && info.high in {was.high, h.articlenum}
        && info.low <= was.low && info.low <= h.articlenum && info.low in {was.low, h.articlenum}
        && (h.serverid !in old(serverInfo) ==> info == ServerInfo(h.articlenum, h.articlenum, 1))
    {
      hide Valid;
      GetServerInfo(h.serverid);
      var info := serverInfo[h.serverid];
      if h.articlenum > info.high { info := info.(high := h.articlenum); }
      if h.articlenum < info.low { info := info.(low := h.articlenum); }
      serverInfo := serverInfo[h.serverid := info.(num := info.num + 1)];
    }

    // Add a header.  Its article goes to the part with its number and message-id in a file with its
    // key; to a new part of the first such file that lacks the number; or else to a new file.
    method AddItem(h: Header, now: int) returns (r: int)
      requires Valid()
      requires 1 <= h.articlenum <= MAX_ARTICLE
      modifies this
      ensures Valid() && saveit
      ensures serverInfo == WithArticle(old(serverInfo), h)
      ensures exists pos :: InsertedAt(Items(old(files)), Items(files), pos, HeaderItem(h))
      ensures r == 0 || r == 1
      ensures |files| == |old(files)| + r
      ensures r == 1 <==> forall i :: 0 <= i < |old(files)| && old(files)[i].key == h.key ==> TakenByOther(old(files)[i].parts, h)
      ensures AddedTo(old(files), files, h, now, r)
      ensures h.serverid in serverInfo && serverInfo == old(serverInfo)[h.serverid := serverInfo[h.serverid]]
      ensures var was, info := if h.serverid in old(serverInfo) then old(serverInfo)[h.serverid] else RESET, serverInfo[h.serverid];
        && info.num == was.num + 1
        && info.high >= was.high && info.high >= h.articlenum && info.high in {was.high, h.articlenum}
        && info.low <= was.low && info.low <= h.articlenum && info.low in {was.low, h.articlenum}
        && (h.serverid !in old(serverInfo) ==> info == ServerInfo(h.articlenum, h.articlenum, 1))
    {
      hide FilesSorted, FilesOk, InfosOk, FileOk, Less, Items, TotalParts, PartsOk, Sorted, Counted, PartsItems, Placed, AddedTo, WithArticle;
      ghost var fs, infos := files, serverInfo;
      assert InfosOk(infos, Items(fs));
      var lo, hi := EqualRange(h.key);
      NoteArticle(h);
      saveit := true;
      var i := lo;
      while i < hi
        invariant lo <= i <= hi && files == fs
        invariant serverInfo == WithArticle(infos, h) && saveit && totalnum == TotalParts(fs)
        invariant forall k :: lo <= k < i ==> TakenByOther(fs[k].parts, h)
      {
        var f := files[i];
        OneOfFiles(files, i);
        var placed := TryFile(f, h, now);
        if placed.Some? {
          files := files[i := placed.value];
          totalnum := totalnum + |placed.value.parts| - |f.parts|;
          ItemAddedToFile(fs, files, i, placed.value, h);
          AddedInfos(infos, serverInfo, Items(fs), Items(files), h);
          ToOldFile(fs, files, h, now, i, lo);
          return 0;
        }
        i := i + 1;
      }
      var p := Part(h.partnum, [HeaderArticle(h)], h.date, h.mid);
      var f := File(h.key, [p], if CountPartnum(h.partnum, h.key.req) then 1 else 0, 0, h.tailoff, now);
      files := files[..hi] + [f] + files[hi..];
      totalnum := totalnum + 1;
      FileAdded(fs, files, hi, f, p, h);
      LessTotal(h.key, h.key);
      assert forall k :: 0 <= k < |fs| && fs[k].key == h.key ==> lo <= k < hi;
      AddedInfos(infos, serverInfo, Items(fs), Items(files), h);
      ToNewFile(fs, files, h, now, hi);
      return 1;
    }

    // Flush the articles of a server in a range of numbers, with the parts and files they leave empty.
    // The range is first cut down to the numbers known for the server (cut); both removals are exact
    // when the range reaches up to the last number, or is a single one.  Also returned are the message-ids
    // of the parts dropped (GoneMeans).
    method Flush(sid: nat, flushrange: R.RList) returns (count: nat, gone: seq<string>, ghost cut: R.RList)
      requires Valid() && sid in serverInfo && R.Canonical(flushrange)
      modifies this
      ensures Valid()
      ensures Items(files) == KeepItems(Items(old(files)), sid, flushrange)
      ensures serverInfo == old(serverInfo)[sid := old(serverInfo)[sid].(num := old(serverInfo)[sid].num - count)]
      ensures count == |Items(old(files))| - |Items(files)|
      ensures saveit == (old(saveit) || count > 0)
      ensures gone == GoneFiles(old(files), sid, flushrange)
      ensures R.Reaching(flushrange) ==> ExactCut(flushrange, cut, old(serverInfo)[sid])
      ensures Stem(files, old(files))
    {
      hide FilesSorted, FilesOk, Items, TotalParts, R.Mem, R.Canonical, KeepFiles, KeepItems, Within, R.RemoveTop, R.Reaching, GoneFiles, ExactCut, Stem,
        InfosOk, InfoOk, CountServer;
      ghost var fs := files;
      var fr := new R.Ranges();
      fr.rlist := flushrange;
      var info := serverInfo[sid];
      InfosAre(serverInfo, Items(fs), sid);
      fr.Remove(0, info.low - 1);
      ghost var r1 := fr.rlist;
      fr.Remove(info.high + 1, R.MAX);
      ghost var r := fr.rlist;
      cut := r;
      CutDown(flushrange, r1, r, info);
      if R.Reaching(flushrange) { CutExactly(flushrange, r1, r, info); }
      SameKept(serverInfo, Items(fs), sid, flushrange, r);
      SameGone(serverInfo, fs, sid, flushrange, r);
      gone := [];
      if fr.Empty() {
        NothingGoes(Items(fs), sid, r);
        NothingGone(fs, sid, r);
        SameStem(fs);
        return 0, [], r;
      }
      ItemsKept(fs, sid, r);
      KeptFilesOk(fs, sid, r);
      KeepItemsCount(Items(fs), sid, r, sid);
      FilesStem(fs, sid, r);
      var countp;
      count, countp, gone := FlushFiles(sid, fr.rlist);
      serverInfo := serverInfo[sid := info.(num := info.num - count)];
      totalnum := totalnum - countp;
      FlushedInfos(old(serverInfo), Items(fs), sid, r, count);
      if count > 0 { saveit := true; }
    }

    // Flush everything below a number.
    method FlushLow(sid: nat, newlow: nat) returns (count: nat, ghost cut: R.RList)
      requires Valid() && sid in serverInfo && 0 < newlow <= R.MAX
      modifies this
      ensures Valid()
      ensures forall item :: item in Items(files) <==>
        item in Items(old(files)) && !(item.article.serverid == sid && item.article.articlenum < newlow)
      ensures serverInfo == old(serverInfo)[sid := old(serverInfo)[sid].(num := old(serverInfo)[sid].num - count, low := newlow)]
      ensures forall x: nat :: R.Mem(cut, x) <==> old(serverInfo)[sid].low <= x <= old(serverInfo)[sid].high && x < newlow
    {
      hide FilesSorted, FilesOk, Items, TotalParts, R.Canonical, KeepItems, Goes, GoneFiles;
      ghost var items := Items(files);
      var flushrange := new R.Ranges();
      NothingYet();
      flushrange.Insert(0, newlow - 1);
      ghost var r := flushrange.rlist;
      FromZero(r, newlow - 1);
      var gone;
      count, gone, cut := Flush(sid, flushrange.rlist);
      forall item | true
        ensures item in Items(files) <==> item in items && !(item.article.serverid == sid && R.Mem(r, item.article.articlenum))
      {
        KeepItemsExact(items, sid, r, item);
        GoesIsMem(item.article, sid, r);
      }
      serverInfo := serverInfo[sid := serverInfo[sid].(low := newlow)];
    }

    // The loop over the files.
    method FlushFiles(sid: nat, r: R.RList) returns (count: nat, countp: nat, gone: seq<string>)
      modifies this`files
      ensures files == KeepFiles(old(files), sid, r)
      ensures count == |Items(old(files))| - |Items(files)|
      ensures countp == TotalParts(old(files)) - TotalParts(files)
      ensures gone == GoneFiles(old(files), sid, r)
    {
      hide Items, TotalParts, KeepFiles, KeepFile, KeepParts, FileItems, PartsItems, GoneFiles, GoneParts;
      ghost var fs := files;
      count, countp, gone := 0, 0, [];
      var i := 0;
      ghost var done := 0;
      FlushStart(fs, sid, r);
      while i < |files|
        invariant done <= |fs| && i <= |files|
        invariant files == KeepFiles(fs[..done], sid, r) + fs[done..]
        invariant i == |KeepFiles(fs[..done], sid, r)|
        invariant count == |Items(fs)| - |Items(files)|
        invariant countp == TotalParts(fs) - TotalParts(files)
        invariant gone == GoneFiles(fs[..done], sid, r)
        decreases |fs| - done
      {
        ghost var a, b := KeepFiles(fs[..done], sid, r), fs[done..];
        assert b[0] == fs[done] && b[1..] == fs[done + 1..];
        Splice(files, a, b, []);
        var kept, c, cp, g := FlushFile(files[i], sid, r);
        count, countp, gone := count + c, countp + cp, gone + g;
        Splice(files, a, b, kept);
        files := files[..i] + kept + files[i + 1..];   // erased if nothing is kept
        i := i + |kept|;
        OneFileFlushed(fs, done, sid, r);
        GoneSnoc(fs, done, sid, r);
        done := done + 1;
      }
      assert fs[..done] == fs && fs[done..] == [];
      assert KeepFiles(fs, sid, r) + [] == KeepFiles(fs, sid, r);
    }

    // Take the numbers held for a server out of a range.
    method GetXRange(sid: nat, range: R.Ranges)
      requires Removable(range.rlist, Items(files), sid) && forall item :: item in Items(files) ==> item.article.articlenum <= R.MAX
      modifies range
      ensures TakenOut(old(range.rlist), range.rlist, Items(files), sid)
    {
      hide R.Mem, R.Canonical, Items, FileItems, R.AllEndBelow;
      ghost var m := range.rlist;
      NoItems();
      assert files[..0] == [];
      for i := 0 to |files|
        invariant TakenOut(m, range.rlist, Items(files[..i]), sid)
      {
        ghost var m1 := range.rlist;
        assert files[..i + 1] == files[..i] + [files[i]];
        ItemsAppend(files[..i], [files[i]]);
        OneFile(files[i]);
        ItemsAppend(files[..i + 1], files[i + 1..]);
        assert files == files[..i + 1] + files[i + 1..];
        assert forall item :: item in FileItems(files[i]) ==> item in Items(files);
        TakeOutParts(files[i], sid, range);
        TakenOutMore(m, m1, range.rlist, Items(files[..i]), FileItems(files[i]), sid);
      }
      assert files[..|files|] == files;
    }

    // The same, starting from all numbers between a low end and newhigh.  When the low end lies one above
    // newhigh the range that is left is improper.
    method GetXRangeFrom(sid: nat, newlow: nat, newhigh: nat, range: R.Ranges)
      requires Valid() && sid in serverInfo
      requires newlow <= newhigh + 1 <= R.MAX
      modifies range
      ensures var low := if newlow < serverInfo[sid].low then newlow else serverInfo[sid].low;
        && (low <= newhigh ==> R.Canonical(range.rlist))
        && (low > newhigh ==> range.rlist == map[newhigh := newhigh + 1])
        && forall x: nat :: R.Mem(range.rlist, x) <==> low <= x <= newhigh && !Holds(Items(files), sid, x)
    {
      hide R.Canonical, Items, FilesSorted, FilesOk, TotalParts, InfoOk, R.LowerBound, Holds;
      NothingYet();
      range.rlist := map[];
      ghost var low := if newlow < serverInfo[sid].low then newlow else serverInfo[sid].low;
      assert low <= newhigh + 1;
      range.Insert(if newlow < serverInfo[sid].low then newlow else serverInfo[sid].low, newhigh);
      NumbersFit(serverInfo, Items(files));
      ghost var m := range.rlist;
      if low > newhigh {
        assert R.LowerBound(map[], newhigh).None?;
        assert m == map[newhigh := newhigh + 1];
        NotProper(m, newhigh);
        NumbersAbove(serverInfo, Items(files), sid, newhigh);
      }
      GetXRange(sid, range);
    }
  }

  // ---------- flushing ----------

  lemma GoesIsMem(a: Article, sid: nat, r: R.RList)
    requires R.Canonical(r)
    ensures Goes(a, sid, r) <==> a.serverid == sid && R.Mem(r, a.articlenum)
  {
    R.CheckIsMem(r, a.articlenum);
  }

  // Cutting the range down leaves the numbers known for the server as they were.
  lemma CutDown(m: R.RList, r1: R.RList, r: R.RList, info: ServerInfo)
    requires 1 <= info.low && info.high < R.MAX
    requires forall x: nat :: R.Mem(r1, x) <==> R.Mem(m, x) && !(0 <= x <= info.low - 1 && x <= R.RemoveTop(m, 0, info.low - 1))
    requires forall x: nat :: R.Mem(r, x) <==> R.Mem(r1, x) && !(info.high + 1 <= x <= R.MAX && x <= R.RemoveTop(r1, info.high + 1, R.MAX))
    ensures forall x: nat :: info.low <= x <= info.high ==> (R.Mem(r, x) <==> R.Mem(m, x))
  {
  }

  // Exactly the numbers known for the server are left of the range.
  ghost predicate ExactCut(m: R.RList, cut: R.RList, info: ServerInfo) {
    forall x: nat :: R.Mem(cut, x) <==> R.Mem(m, x) && info.low <= x <= info.high
  }

  lemma CutExactly(m: R.RList, r1: R.RList, r: R.RList, info: ServerInfo)
    requires R.Canonical(m) && R.Canonical(r1) && R.Reaching(m) && 1 <= info.low <= R.MAX && info.high < R.MAX
    requires forall x: nat :: R.Mem(r1, x) <==> R.Mem(m, x) && !(0 <= x <= info.low - 1 && x <= R.RemoveTop(m, 0, info.low - 1))
    requires forall x: nat :: R.Mem(r, x) <==> R.Mem(r1, x) && !(info.high + 1 <= x <= R.MAX && x <= R.RemoveTop(r1, info.high + 1, R.MAX))
    ensures ExactCut(m, r, info)
  {
    R.ReachingExact(m, 0, info.low - 1);
    assert forall x: nat :: R.Mem(r1, x) ==> x <= R.MAX;
    hide R.Mem, R.Canonical, R.RemoveTop, R.Reaching;
    R.StillReaching(m, r1, info.low - 1);
    R.ReachingExact(r1, info.high + 1, R.MAX);
  }

  lemma FromZero(r: R.RList, h: nat)
    requires R.Canonical(r) && forall x: nat :: R.Mem(r, x) <==> x <= h
    ensures R.Reaching(r)
  {
    forall a | a in r
      ensures a == h
    {
      assert R.Mem(r, a);
      R.OutsideRange(r, a);
    }
  }

  lemma SameGone(infos: map<nat, ServerInfo>, fs: seq<File>, sid: nat, m: R.RList, r: R.RList)
    requires R.Canonical(m) && R.Canonical(r) && sid in infos
    requires forall item :: item in Items(fs) ==> Within(infos, item.article)
    requires forall x: nat :: infos[sid].low <= x <= infos[sid].high ==> (R.Mem(r, x) <==> R.Mem(m, x))
    ensures GoneFiles(fs, sid, m) == GoneFiles(fs, sid, r)
  {
    hide Goes, R.Mem, R.Canonical, Items, GoneFiles;
    forall item | item in Items(fs)
      ensures Goes(item.article, sid, m) <==> Goes(item.article, sid, r)
    {
      GoesIsMem(item.article, sid, m);
      GoesIsMem(item.article, sid, r);
    }
    GoneAlike(fs, sid, m, r);
  }

  // No part is empty, so no part goes when no article does.
  lemma {:induction false} NothingGone(fs: seq<File>, sid: nat, r: R.RList)
    requires FilesOk(fs) && r == map[]
    ensures GoneFiles(fs, sid, r) == []
  {
    hide GoneParts;
    if |fs| > 0 {
      assert FileOk(fs[0]);
      NothingGoneParts(fs[0].parts, sid, r);
      assert forall i :: 0 <= i < |fs[1..]| ==> fs[1..][i] == fs[i + 1];
      NothingGone(fs[1..], sid, r);
    }
  }

  lemma {:induction false} NothingGoneParts(ps: seq<Part>, sid: nat, r: R.RList)
    requires r == map[] && forall i :: 0 <= i < |ps| ==> |ps[i].articles| > 0
    ensures GoneParts(ps, sid, r) == []
  {
    if |ps| > 0 {
      NothingGoneParts(ps[1..], sid, r);
      KeepsNothing(ps[0].articles, sid, r);
      assert !Goes(ps[0].articles[0], sid, r);
    }
  }

  lemma {:induction false} SameKept(infos: map<nat, ServerInfo>, items: seq<Item>, sid: nat, m: R.RList, r: R.RList)
    requires R.Canonical(m) && R.Canonical(r) && sid in infos
    requires forall item :: item in items ==> Within(infos, item.article)
    requires forall x: nat :: infos[sid].low <= x <= infos[sid].high ==> (R.Mem(r, x) <==> R.Mem(m, x))
    ensures KeepItems(items, sid, m) == KeepItems(items, sid, r)
  {
    hide Goes, R.Mem, R.Canonical;
    if |items| > 0 {
      var a := items[0].article;
      assert items[0] in items && Within(infos, a);
      GoesIsMem(a, sid, m);
      GoesIsMem(a, sid, r);
      SameKept(infos, items[1..], sid, m, r);
    }
  }

  lemma {:induction false} NothingGoes(items: seq<Item>, sid: nat, r: R.RList)
    requires r == map[]
    ensures KeepItems(items, sid, r) == items
  {
    if |items| > 0 {
      NothingGoes(items[1..], sid, r);
      assert items == [items[0]] + items[1..];
    }
  }

  lemma InfosAre(infos: map<nat, ServerInfo>, items: seq<Item>, sid: nat)
    requires InfosOk(infos, items) && sid in infos
    ensures 1 <= infos[sid].low <= R.MAX && infos[sid].high < R.MAX
    ensures forall item :: item in items ==> Within(infos, item.article)
  {
    hide Within;
    assert InfoOk(infos[sid], items, sid);
  }

  lemma FlushedInfos(infos: map<nat, ServerInfo>, items: seq<Item>, sid: nat, r: R.RList, count: nat)
    requires InfosOk(infos, items) && sid in infos
    requires count == |items| - |KeepItems(items, sid, r)|
    ensures InfosOk(infos[sid := infos[sid].(num := infos[sid].num - count)], KeepItems(items, sid, r))
  {
    var infos' := infos[sid := infos[sid].(num := infos[sid].num - count)];
    forall s | s in infos'
      ensures InfoOk(infos'[s], KeepItems(items, sid, r), s)
    {
      KeepItemsCount(items, sid, r, s);
      assert InfoOk(infos[s], items, s);
    }
    forall item | item in KeepItems(items, sid, r)
      ensures Within(infos', item.article)
    {
      KeepItemsExact(items, sid, r, item);
      assert Within(infos, item.article);
    }
  }

  lemma NothingYet()
    ensures R.Canonical(map[]) && forall x: nat :: !R.Mem(map[], x)
  {
  }

  lemma FlushStart(fs: seq<File>, sid: nat, r: R.RList)
    ensures fs[..0] == [] && KeepFiles(fs[..0], sid, r) == [] && KeepFiles(fs[..0], sid, r) + fs[0..] == fs
    ensures GoneFiles(fs[..0], sid, r) == []
  {
  }

  lemma OneFileFlushed(fs: seq<File>, done: nat, sid: nat, r: R.RList)
    requires done < |fs|
    ensures var a, f, b, k := KeepFiles(fs[..done], sid, r), fs[done], fs[done + 1..], KeepFile(fs[done], sid, r);
      && KeepFiles(fs[..done + 1], sid, r) == a + k
      && |k| <= 1
      && |Items(a + fs[done..])| - |Items(a + k + b)| == |FileItems(f)| - |PartsItems(f.key, KeepParts(f.parts, sid, r))|
      && TotalParts(a + fs[done..]) - TotalParts(a + k + b) == |f.parts| - |KeepParts(f.parts, sid, r)|
  {
    var a, f, b := KeepFiles(fs[..done], sid, r), fs[done], fs[done + 1..];
    var k := KeepFile(f, sid, r);
    KeptPrefix(fs, done, sid, r);
    assert fs[done..] == [f] + b;
    hide KeepFiles, KeepFile, KeepParts;
    Assoc(a, [f], b);
    FilesBetween(a, [f], b);
    FilesBetween(a, k, b);
    OneFile(f);
    KeptOne(f, k, sid, r);
    if |k| > 0 { OneFile(k[0]); }
  }

  lemma KeptPrefix(fs: seq<File>, done: nat, sid: nat, r: R.RList)
    requires done < |fs|
    ensures KeepFiles(fs[..done + 1], sid, r) == KeepFiles(fs[..done], sid, r) + KeepFile(fs[done], sid, r)
  {
    var k := KeepFile(fs[done], sid, r);
    assert fs[..done + 1] == fs[..done] + [fs[done]];
    KeepFilesAppend(fs[..done], [fs[done]], sid, r);
    assert KeepFiles([fs[done]], sid, r) == k by { assert [fs[done]][1..] == []; assert k + [] == k; }
  }

  lemma FilesBetween(a: seq<File>, k: seq<File>, b: seq<File>)
    ensures |Items(a + k + b)| == |Items(a)| + |Items(k)| + |Items(b)|
    ensures TotalParts(a + k + b) == TotalParts(a) + TotalParts(k) + TotalParts(b)
  {
    ItemsAppend(a, k);
    ItemsAppend(a + k, b);
    TotalPartsAppend(a, k);
    TotalPartsAppend(a + k, b);
  }

  lemma KeptOne(f: File, k: seq<File>, sid: nat, r: R.RList)
    requires k == KeepFile(f, sid, r)
    ensures |k| <= 1
    ensures TotalParts([f]) == |f.parts| && TotalParts(k) == |KeepParts(f.parts, sid, r)|
    ensures |k| > 0 ==> FileItems(k[0]) == PartsItems(f.key, KeepParts(f.parts, sid, r))
    ensures |k| == 0 ==> PartsItems(f.key, KeepParts(f.parts, sid, r)) == []
    ensures |k| == 0 ==> Items(k) == []
    ensures |k| > 0 ==> k == [k[0]]
  {
    assert [f][1..] == [];
    if |k| > 0 { assert k[1..] == []; }
  }

  // One file: what is left of it, if anything.
  method FlushFile(f: File, sid: nat, r: R.RList) returns (kept: seq<File>, count: nat, countp: nat, gone: seq<string>)
    ensures kept == KeepFile(f, sid, r)
    ensures count == |FileItems(f)| - |PartsItems(f.key, KeepParts(f.parts, sid, r))|
    ensures countp == |f.parts| - |KeepParts(f.parts, sid, r)|
    ensures gone == GoneParts(f.parts, sid, r)
  {
    hide KeepParts, Counted, PartsItems, GoneParts;
    var ps, have;
    ps, have, count, countp, gone := FlushParts(f.key, f.parts, f.have, sid, r);
    kept := if |ps| == 0 then [] else [f.(parts := ps, have := have)];
  }

  // The loop over the parts of a file, from the last to the first.
  method FlushParts(key: Key, parts: seq<Part>, have0: int, sid: nat, r: R.RList)
    returns (ps: seq<Part>, have: int, count: nat, countp: nat, gone: seq<string>)
    ensures ps == KeepParts(parts, sid, r)
    ensures have == have0 - Counted(parts, key.req) + Counted(ps, key.req)
    ensures count == |PartsItems(key, parts)| - |PartsItems(key, ps)|
    ensures countp == |parts| - |ps|
    ensures gone == GoneParts(parts, sid, r)
  {
    hide PartItems, Goes, CountPartnum, KeepParts, PartsItems, Counted, GoneParts;
    ps, have, count, countp, gone := parts, have0, 0, 0, [];
    var pi := |parts|;
    PartsFlushStart(key, parts, sid, r);
    while pi > 0
      invariant 0 <= pi <= |parts|
      invariant ps == parts[..pi] + KeepParts(parts[pi..], sid, r)
      invariant have == have0 - Counted(parts[pi..], key.req) + Counted(KeepParts(parts[pi..], sid, r), key.req)
      invariant count == |PartsItems(key, parts[pi..])| - |PartsItems(key, KeepParts(parts[pi..], sid, r))|
      invariant countp == |parts[pi..]| - |KeepParts(parts[pi..], sid, r)|
      invariant gone == GoneParts(parts[pi..], sid, r)
    {
      pi := pi - 1;
      var np := ps[pi];
      assert np == parts[pi];
      var arts, c := FlushArticles(np.articles, sid, r);
      count := count + c;
      PartFlushed(key, parts, pi, sid, r);
      ghost var before, rest := ps, KeepParts(parts[pi + 1..], sid, r);
      if |arts| == 0 {
        if CountPartnum(np.partnum, key.req) { have := have - 1; }
        gone := gone + [np.mid];
        ps := ps[..pi] + ps[pi + 1..];
        countp := countp + 1;
      } else {
        ps := ps[pi := np.(articles := arts)];
      }
      assert ps == parts[..pi] + (KeepPart(np, sid, r) + rest);
    }
    assert parts[0..] == parts;
    assert [] + KeepParts(parts, sid, r) == KeepParts(parts, sid, r);
  }

  lemma PartsFlushStart(key: Key, parts: seq<Part>, sid: nat, r: R.RList)
    ensures parts[|parts|..] == [] && KeepParts([], sid, r) == [] && PartsItems(key, []) == [] && Counted([], key.req) == 0
    ensures parts == parts[..|parts|] + [] && GoneParts([], sid, r) == []
  {
  }

  // What one more part at the front adds.
  lemma PartFlushed(key: Key, parts: seq<Part>, pi: nat, sid: nat, r: R.RList)
    requires pi < |parts|
    ensures var np, rest := parts[pi], KeepParts(parts[pi + 1..], sid, r);
      && KeepParts(parts[pi..], sid, r) == KeepPart(np, sid, r) + rest
      && GoneParts(parts[pi..], sid, r) == GoneParts(parts[pi + 1..], sid, r) + GonePart(np, sid, r)
      && |KeepPart(np, sid, r)| == (if |KeepArticles(np.articles, sid, r)| > 0 then 1 else 0)
      && |PartsItems(key, parts[pi..])| == |np.articles| + |PartsItems(key, parts[pi + 1..])|
      && |PartsItems(key, KeepParts(parts[pi..], sid, r))| == |KeepArticles(np.articles, sid, r)| + |PartsItems(key, rest)|
      && Counted(parts[pi..], key.req) == Counted(parts[pi + 1..], key.req) + (if CountPartnum(np.partnum, key.req) then 1 else 0)
      && Counted(KeepParts(parts[pi..], sid, r), key.req)
         == Counted(rest, key.req) + (if |KeepArticles(np.articles, sid, r)| > 0 && CountPartnum(np.partnum, key.req) then 1 else 0)
  {
    assert parts[pi..] == [parts[pi]] + parts[pi + 1..];
    PartLengths(key, parts[pi], sid, r, KeepParts(parts[pi + 1..], sid, r));
  }

  lemma PartLengths(key: Key, p: Part, sid: nat, r: R.RList, rest: seq<Part>)
    ensures |PartItems(key, p)| == |p.articles|
    ensures |PartsItems(key, KeepPart(p, sid, r) + rest)| == |KeepArticles(p.articles, sid, r)| + |PartsItems(key, rest)|
    ensures Counted(KeepPart(p, sid, r) + rest, key.req)
            == Counted(rest, key.req) + (if |KeepArticles(p.articles, sid, r)| > 0 && CountPartnum(p.partnum, key.req) then 1 else 0)
  {
    var k := KeepPart(p, sid, r);
    PartsItemsAppend(key, k, rest);
    CountedAppend(k, rest, key.req);
    if |k| > 0 {
      OnePart(key, k[0]);
      assert k == [k[0]] && k[1..] == [];
    }
  }

  // The loop over the articles of a part, from the last to the first.
  method FlushArticles(articles: seq<Article>, sid: nat, r: R.RList) returns (arts: seq<Article>, count: nat)
    ensures arts == KeepArticles(articles, sid, r)
    ensures count == |articles| - |arts|
  {
    hide Goes;
    arts, count := articles, 0;
    var sai := |articles|;
    assert articles[..sai] + KeepArticles(articles[sai..], sid, r) == articles;
    while sai > 0
      invariant 0 <= sai <= |articles|
      invariant arts == articles[..sai] + KeepArticles(articles[sai..], sid, r)
      invariant count == |articles| - |arts|
    {
      sai := sai - 1;
      assert arts[sai] == articles[sai];
      assert articles[sai..] == [articles[sai]] + articles[sai + 1..];
      if Goes(arts[sai], sid, r) {
        arts := arts[..sai] + arts[sai + 1..];
        count := count + 1;
      }
      assert arts == articles[..sai] + KeepArticles(articles[sai..], sid, r);
    }
    assert articles[0..] == articles;
    assert [] + KeepArticles(articles, sid, r) == KeepArticles(articles, sid, r);
  }

  // After a flush no article of the server in the range is left, and everything else is.
  lemma FlushComplete(items: seq<Item>, sid: nat, m: R.RList, item: Item)
    requires R.Canonical(m)
    ensures item in KeepItems(items, sid, m)
            <==> item in items && !(item.article.serverid == sid && R.Mem(m, item.article.articlenum))
  {
    KeepItemsExact(items, sid, m, item);
    GoesIsMem(item.article, sid, m);
  }

  // ---------- numbers held ----------

  // The server's number x is held by some item.
  ghost predicate Holds(items: seq<Item>, sid: nat, x: nat) {
    exists item :: item in items && item.article.serverid == sid && item.article.articlenum == x
  }

  // r is m without the numbers of the server that the items hold.
  ghost predicate Without(m: R.RList, r: R.RList, items: seq<Item>, sid: nat) {
    forall x: nat :: R.Mem(r, x) <==> R.Mem(m, x) && !Holds(items, sid, x)
  }

  lemma NoItems()
    ensures Items([]) == []
    ensures forall m, sid :: Without(m, m, [], sid)
  {
  }

  lemma WithoutMore(m: R.RList, m1: R.RList, m2: R.RList, a: seq<Item>, b: seq<Item>, sid: nat)
    requires Without(m, m1, a, sid) && Without(m1, m2, b, sid)
    ensures Without(m, m2, a + b, sid)
  {
    hide R.Mem;
    forall x: nat
      ensures Holds(a + b, sid, x) <==> Holds(a, sid, x) || Holds(b, sid, x)
    {
      if item :| item in a && item.article.serverid == sid && item.article.articlenum == x { assert item in a + b; }
      if item :| item in b && item.article.serverid == sid && item.article.articlenum == x { assert item in a + b; }
    }
  }

  // Numbers can be taken out: the ranges are proper, or all end below the numbers.
  ghost predicate Removable(m: R.RList, items: seq<Item>, sid: nat) {
    R.Canonical(m) || forall item :: item in items && item.article.serverid == sid ==> R.AllEndBelow(m, item.article.articlenum)
  }

  // They have been; improper ranges stay as they are.
  ghost predicate TakenOut(m: R.RList, r: R.RList, items: seq<Item>, sid: nat) {
    if R.Canonical(m) then R.Canonical(r) && Without(m, r, items, sid) else r == m
  }

  lemma TakenOutMore(m: R.RList, m1: R.RList, m2: R.RList, a: seq<Item>, b: seq<Item>, sid: nat)
    requires TakenOut(m, m1, a, sid) && TakenOut(m1, m2, b, sid)
    ensures TakenOut(m, m2, a + b, sid)
  {
    hide R.Canonical, Without;
    if R.Canonical(m) { WithoutMore(m, m1, m2, a, b, sid); }
  }

  lemma NotProper(m: R.RList, h: nat)
    requires m == map[h := h + 1]
    ensures !R.Canonical(m) && forall x: nat :: !R.Mem(m, x)
  {
    assert h in m && m[h] == h + 1;
  }

  // No number known for a server lies below its low end.
  lemma NumbersAbove(infos: map<nat, ServerInfo>, items: seq<Item>, sid: nat, h: nat)
    requires InfosOk(infos, items) && sid in infos && h < infos[sid].low
    ensures Removable(map[h := h + 1], items, sid)
  {
    forall item | item in items && item.article.serverid == sid
      ensures R.AllEndBelow(map[h := h + 1], item.article.articlenum)
    {
      assert Within(infos, item.article);
    }
  }

  lemma NumbersFit(infos: map<nat, ServerInfo>, items: seq<Item>)
    requires InfosOk(infos, items)
    ensures forall item :: item in items ==> item.article.articlenum <= R.MAX
  {
    forall item | item in items
      ensures item.article.articlenum <= R.MAX
    {
      assert Within(infos, item.article);
      assert InfoOk(infos[item.article.serverid], items, item.article.serverid);
    }
  }

  method TakeOutParts(f: File, sid: nat, range: R.Ranges)
    requires Removable(range.rlist, FileItems(f), sid) && forall item :: item in FileItems(f) ==> item.article.articlenum <= R.MAX
    modifies range
    ensures TakenOut(old(range.rlist), range.rlist, FileItems(f), sid)
  {
    hide R.Mem, R.Canonical, R.AllEndBelow, PartItems;
    ghost var m := range.rlist;
    NoItems();
    assert f.parts[..0] == [] && PartsItems(f.key, []) == [];
    for j := 0 to |f.parts|
      invariant TakenOut(m, range.rlist, PartsItems(f.key, f.parts[..j]), sid)
    {
      ghost var m1 := range.rlist;
      var p := f.parts[j];
      assert f.parts[..j + 1] == f.parts[..j] + [p];
      PartsItemsAppend(f.key, f.parts[..j], [p]);
      OnePart(f.key, p);
      PartsItemsAppend(f.key, f.parts[..j + 1], f.parts[j + 1..]);
      assert f.parts == f.parts[..j + 1] + f.parts[j + 1..];
      assert forall item :: item in PartItems(f.key, p) ==> item in FileItems(f);
      TakeOutArticles(f.key, p, sid, range);
      TakenOutMore(m, m1, range.rlist, PartsItems(f.key, f.parts[..j]), PartItems(f.key, p), sid);
    }
    assert f.parts[..|f.parts|] == f.parts;
  }

  method TakeOutArticles(key: Key, p: Part, sid: nat, range: R.Ranges)
    requires Removable(range.rlist, PartItems(key, p), sid) && forall item :: item in PartItems(key, p) ==> item.article.articlenum <= R.MAX
    modifies range
    ensures TakenOut(old(range.rlist), range.rlist, PartItems(key, p), sid)
  {
    hide R.Mem, R.Canonical, R.AllEndBelow;
    ghost var m, items := range.rlist, PartItems(key, p);
    NoItems();
    assert items[..0] == [];
    for k := 0 to |p.articles|
      invariant TakenOut(m, range.rlist, items[..k], sid)
    {
      ghost var m1 := range.rlist;
      var a := p.articles[k];
      assert items[k] in items && items[k].article == a;
      if a.serverid == sid {
        range.RemoveOne(a.articlenum);
      }
      if R.Canonical(m1) { OneItem(m1, range.rlist, items[k], sid); }
      TakenOutMore(m, m1, range.rlist, items[..k], [items[k]], sid);
      assert items[..k + 1] == items[..k] + [items[k]];
    }
    assert items[..|items|] == items;
  }

  lemma OneItem(m: R.RList, r: R.RList, item: Item, sid: nat)
    requires item.article.serverid == sid ==> forall x: nat :: R.Mem(r, x) <==> R.Mem(m, x) && x != item.article.articlenum
    requires item.article.serverid != sid ==> r == m
    ensures Without(m, r, [item], sid)
  {
    assert item in [item];
  }

  // Put the header's article into a file with its key: into the part with its number, if that carries the
  // same message, or into a new part; a number taken by another message leaves the file alone.
  method TryFile(f: File, h: Header, now: int) returns (placed: Option<File>)
    requires FileOk(f) && f.key == h.key
    ensures placed.None? <==> TakenByOther(f.parts, h)
    ensures placed.Some? ==> FileOk(placed.value) && placed.value.key == f.key
    ensures placed.Some? ==> |f.parts| <= |placed.value.parts| <= |f.parts| + 1
    ensures placed.Some? ==> exists pos :: InsertedAt(FileItems(f), FileItems(placed.value), pos, HeaderItem(h))
    ensures placed.Some? ==> Placed(f, placed.value, h, now)
  {
    hide Counted, PartsItems;
    var k := FindPart(f.parts, h.partnum);
    if k.Some? {
      if f.parts[k.value].mid == h.mid {
        NotTaken(f.parts, k.value, h);
        var p := f.parts[k.value];
        var f' := f.(parts := f.parts[k.value := p.(articles := p.articles + [HeaderArticle(h)])]);
        ArticleAdded(f, f', k.value, h);
        assert PlacedAt(f, f', h, now, k.value);
        return Some(f');
      }
      return None;
    }
    var p := Part(h.partnum, [HeaderArticle(h)], h.date, h.mid);
    var f', place := FileAddPart(f.(update := now), p);
    PartAdded(f, f', place, p, h);
    assert PlacedAt(f, f', h, now, place);
    return Some(f');
  }

  // The article goes to part k, or is a part of its own there; nothing else of the file changes but its
  // count and, when there is a new part, the time of the change.
  ghost predicate PlacedAt(f: File, g: File, h: Header, now: int, k: nat) {
    var a := Article(h.serverid, h.group, h.articlenum, h.bytes, h.lines);
    if k < |f.parts| && f.parts[k].partnum == h.partnum then
      && f.parts[k].mid == h.mid
      && g == f.(parts := f.parts[k := f.parts[k].(articles := f.parts[k].articles + [a])])
    else
      && IsPlace(f.parts, h.partnum, k)
      && g == f.(parts := f.parts[..k] + [Part(h.partnum, [a], h.date, h.mid)] + f.parts[k..], have := g.have, update := now)
  }

  ghost predicate Placed(f: File, g: File, h: Header, now: int) {
    exists k: nat :: PlacedAt(f, g, h, now, k)
  }

  // File i is the first with the key whose part of that number, if any, is the same message; or a new file
  // comes at i, behind all that are not after it.
  ghost predicate AddedAt(fs: seq<File>, fs': seq<File>, h: Header, now: int, r: int, i: nat) {
    if r == 0 then
      && i < |fs| == |fs'| && fs[i].key == h.key && fs' == fs[i := fs'[i]] && Placed(fs[i], fs'[i], h, now)
      && forall j :: 0 <= j < i && fs[j].key == h.key ==> TakenByOther(fs[j].parts, h)
    else
      && i <= |fs| && |fs'| == |fs| + 1
      && fs' == fs[..i] + [File(h.key, fs'[i].parts, fs'[i].have, 0, h.tailoff, now)] + fs[i..]
      && fs'[i].parts == [Part(h.partnum, [Article(h.serverid, h.group, h.articlenum, h.bytes, h.lines)], h.date, h.mid)]
      && (forall j :: 0 <= j < i ==> !Less(h.key, fs[j].key)) && forall j :: i <= j < |fs| ==> Less(h.key, fs[j].key)
  }

  ghost predicate AddedTo(fs: seq<File>, fs': seq<File>, h: Header, now: int, r: int) {
    exists i: nat :: AddedAt(fs, fs', h, now, r, i)
  }

  lemma ToOldFile(fs: seq<File>, fs': seq<File>, h: Header, now: int, i: nat, lo: nat)
    requires lo <= i < |fs| == |fs'| && fs[i].key == h.key && fs' == fs[i := fs'[i]] && Placed(fs[i], fs'[i], h, now)
    requires forall j :: 0 <= j < lo ==> Less(fs[j].key, h.key)
    requires forall j :: lo <= j < i ==> TakenByOther(fs[j].parts, h)
    ensures AddedTo(fs, fs', h, now, 0)
  {
    hide Less, Placed, TakenByOther;
    LessTotal(h.key, h.key);
    assert AddedAt(fs, fs', h, now, 0, i);
  }

  lemma ToNewFile(fs: seq<File>, fs': seq<File>, h: Header, now: int, i: nat)
    requires i <= |fs| && |fs'| == |fs| + 1 && fs' == fs[..i] + [fs'[i]] + fs[i..]
    requires fs'[i] == File(h.key, [Part(h.partnum, [HeaderArticle(h)], h.date, h.mid)], fs'[i].have, 0, h.tailoff, now)
    requires forall j :: 0 <= j < i ==> Less(fs[j].key, h.key) || fs[j].key == h.key
    requires forall j :: i <= j < |fs| ==> Less(h.key, fs[j].key)
    ensures AddedTo(fs, fs', h, now, 1)
  {
    hide Less;
    forall j | 0 <= j < i
      ensures !Less(h.key, fs[j].key)
    {
      LessTotal(fs[j].key, h.key);
    }
    assert AddedAt(fs, fs', h, now, 1, i);
  }

  // The number of the header is taken by another message.
  ghost predicate TakenByOther(ps: seq<Part>, h: Header) {
    exists k :: 0 <= k < |ps| && ps[k].partnum == h.partnum && ps[k].mid != h.mid
  }

  // What adding an article does to the information about servers.
  function WithArticle(infos: map<nat, ServerInfo>, h: Header): map<nat, ServerInfo> {
    var info := if h.serverid in infos then infos[h.serverid] else RESET;
    infos[h.serverid := ServerInfo(if h.articlenum > info.high then h.articlenum else info.high,
                                   if h.articlenum < info.low then h.articlenum else info.low,
                                   info.num + 1)]
  }

  lemma AddedInfos(infos: map<nat, ServerInfo>, infos': map<nat, ServerInfo>, items: seq<Item>, items': seq<Item>, h: Header)
    requires InfosOk(infos, items) && infos' == WithArticle(infos, h)
    requires 1 <= h.articlenum <= MAX_ARTICLE
    requires exists pos :: InsertedAt(items, items', pos, HeaderItem(h))
    ensures InfosOk(infos', items')
  {
    var pos :| InsertedAt(items, items', pos, HeaderItem(h));
    forall sid | sid in infos'
      ensures InfoOk(infos'[sid], items', sid)
    {
      CountInserted(items, items', pos, HeaderItem(h), sid);
      if sid !in infos { NoArticles(infos, items, sid); }
    }
    forall item | item in items'
      ensures Within(infos', item.article)
    {
      if item in items { assert Within(infos, item.article); }
    }
  }

  lemma OneOfFiles(fs: seq<File>, i: nat)
    requires FilesOk(fs) && i < |fs|
    ensures FileOk(fs[i]) && PartsOk(fs[i].parts) && Sorted(fs[i].parts) && fs[i].have == Counted(fs[i].parts, fs[i].key.req)
  {
  }

  lemma NotTaken(ps: seq<Part>, k: nat, h: Header)
    requires Sorted(ps) && k < |ps| && ps[k].partnum == h.partnum && ps[k].mid == h.mid
    ensures !TakenByOther(ps, h)
  {
  }

  // An article added to part k.
  lemma ArticleAdded(f: File, f': File, k: nat, h: Header)
    requires FileOk(f) && k < |f.parts|
    requires f.parts[k].partnum == h.partnum && f.parts[k].mid == h.mid && f.key == h.key
    requires f' == f.(parts := f.parts[k := f.parts[k].(articles := f.parts[k].articles + [HeaderArticle(h)])])
    ensures FileOk(f') && |f'.parts| == |f.parts|
    ensures exists pos :: InsertedAt(FileItems(f), FileItems(f'), pos, HeaderItem(h))
  {
    ArticleAddedItems(f.key, f.parts, f'.parts, k, h);
    assert PartsOk(f'.parts);
    var pos :| InsertedAt(PartsItems(f.key, f.parts), PartsItems(f.key, f'.parts), pos, HeaderItem(h));
    assert InsertedAt(FileItems(f), FileItems(f'), pos, HeaderItem(h));
  }

  lemma ArticleAddedItems(key: Key, ps: seq<Part>, ps': seq<Part>, k: nat, h: Header)
    requires k < |ps| && ps[k].partnum == h.partnum && ps[k].mid == h.mid && key == h.key
    requires ps' == ps[k := ps[k].(articles := ps[k].articles + [HeaderArticle(h)])]
    ensures Counted(ps', key.req) == Counted(ps, key.req)
    ensures exists pos :: InsertedAt(PartsItems(key, ps), PartsItems(key, ps'), pos, HeaderItem(h))
  {
    hide PartsItems, Counted, CountPartnum;
    var p, p' := ps[k], ps'[k];
    var a, b := ps[..k], ps[k + 1..];
    assert ps == a + [p] + b && ps' == a + [p'] + b;
    OnePartBetween(key, a, p, b, key.req);
    OnePartBetween(key, a, p', b, key.req);
    assert PartItems(key, p') == PartItems(key, p) + [HeaderItem(h)];
    hide PartItems;
    var x, y, z := PartsItems(key, a), PartItems(key, p), PartsItems(key, b);
    assert InsertedAt(y, y + [HeaderItem(h)], |y|, HeaderItem(h));
    InsertedInside(x, y, y + [HeaderItem(h)], z, |y|, HeaderItem(h));
  }

  lemma OnePartBetween(key: Key, a: seq<Part>, p: Part, b: seq<Part>, req: int)
    ensures PartsItems(key, a + [p] + b) == PartsItems(key, a) + PartItems(key, p) + PartsItems(key, b)
    ensures Counted(a + [p] + b, req) == Counted(a, req) + (if CountPartnum(p.partnum, req) then 1 else 0) + Counted(b, req)
  {
    PartsItemsAppend(key, a, [p]);
    PartsItemsAppend(key, a + [p], b);
    OnePart(key, p);
    CountedAppend(a, [p], req);
    CountedAppend(a + [p], b, req);
    assert [p][1..] == [];
  }

  // A part added at its place.
  lemma PartAdded(f: File, f': File, k: nat, p: Part, h: Header)
    requires FileOk(f) && f.key == h.key && p == Part(h.partnum, [HeaderArticle(h)], h.date, h.mid)
    requires IsPlace(f.parts, h.partnum, k)
    requires f' == f.(parts := f.parts[..k] + [p] + f.parts[k..], have := f'.have, update := f'.update)
    requires f'.have == f.have + if CountPartnum(p.partnum, f.key.req) then 1 else 0
    ensures FileOk(f') && |f'.parts| == |f.parts| + 1
    ensures exists pos :: InsertedAt(FileItems(f), FileItems(f'), pos, HeaderItem(h))
  {
    AddedPart(f.key, f.parts, p, k, f.key.req);
    assert PartItems(f.key, p) == [HeaderItem(h)];
    InsertedPartOk(f.parts, p, k);
    hide PartsItems, PartItems, Counted, CountPartnum, PartsOk, IsPlace;
    var x, z := PartsItems(f.key, f.parts[..k]), PartsItems(f.key, f.parts[k..]);
    assert (x + z)[..|x|] == x && (x + z)[|x|..] == z;
    assert InsertedAt(FileItems(f), FileItems(f'), |PartsItems(f.key, f.parts[..k])|, HeaderItem(h));
  }

  lemma InsertedPartOk(ps: seq<Part>, p: Part, k: nat)
    requires PartsOk(ps) && IsPlace(ps, p.partnum, k) && |p.articles| > 0
    ensures PartsOk(ps[..k] + [p] + ps[k..])
  {
    var r := ps[..k] + [p] + ps[k..];
    forall i | 0 <= i < |r|
      ensures i < k ==> r[i] == ps[i]
      ensures i > k ==> r[i] == ps[i - 1]
    {
    }
  }

  lemma ItemAddedToFile(fs: seq<File>, fs': seq<File>, i: nat, f: File, h: Header)
    requires FilesSorted(fs) && FilesOk(fs) && i < |fs| && fs' == fs[i := f]
    requires FileOk(f) && f.key == fs[i].key
    requires exists pos :: InsertedAt(FileItems(fs[i]), FileItems(f), pos, HeaderItem(h))
    ensures FilesSorted(fs') && FilesOk(fs')
    ensures TotalParts(fs') == TotalParts(fs) - |fs[i].parts| + |f.parts|
    ensures exists pos :: InsertedAt(Items(fs), Items(fs'), pos, HeaderItem(h))
  {
    hide FileItems, Less, FileOk, Items, TotalParts;
    Replace(fs, i, f);
    var pos :| InsertedAt(FileItems(fs[i]), FileItems(f), pos, HeaderItem(h));
    InsertedInside(Items(fs[..i]), FileItems(fs[i]), FileItems(f), Items(fs[i + 1..]), pos, HeaderItem(h));
    assert InsertedAt(Items(fs), Items(fs'), |Items(fs[..i])| + pos, HeaderItem(h));
  }

  lemma InsertedInside(a: seq<Item>, b: seq<Item>, b': seq<Item>, c: seq<Item>, pos: nat, item: Item)
    requires InsertedAt(b, b', pos, item)
    ensures InsertedAt(a + b + c, a + b' + c, |a| + pos, item)
  {
    assert (a + b + c)[..|a| + pos] == a + b[..pos];
    assert (a + b + c)[|a| + pos..] == b[pos..] + c;
  }

  lemma FileAdded(fs: seq<File>, fs': seq<File>, i: nat, f: File, p: Part, h: Header)
    requires FilesSorted(fs) && FilesOk(fs) && i <= |fs| && fs' == fs[..i] + [f] + fs[i..]
    requires p == Part(h.partnum, [HeaderArticle(h)], h.date, h.mid) && f.parts == [p] && f.key == h.key
    requires f.have == if CountPartnum(h.partnum, h.key.req) then 1 else 0
    requires forall k :: 0 <= k < i ==> Less(fs[k].key, h.key) || fs[k].key == h.key
    requires forall k :: i <= k < |fs| ==> Less(h.key, fs[k].key)
    ensures FilesSorted(fs') && FilesOk(fs')
    ensures TotalParts(fs') == TotalParts(fs) + 1
    ensures exists pos :: InsertedAt(Items(fs), Items(fs'), pos, HeaderItem(h))
  {
    NewFile(f, p, h);
    hide Less, FileItems, FileOk, Items, TotalParts, PartsItems, PartItems, Counted;
    InsertFile(fs, i, f);
    var a, c := Items(fs[..i]), Items(fs[i..]);
    assert (a + c)[..|a|] == a && (a + c)[|a|..] == c;
    assert InsertedAt(Items(fs), Items(fs'), |a|, HeaderItem(h));
    FileAddedInOrder(fs, fs', i, f);
  }

  lemma NewFile(f: File, p: Part, h: Header)
    requires p == Part(h.partnum, [HeaderArticle(h)], h.date, h.mid) && f.parts == [p] && f.key == h.key
    requires f.have == if CountPartnum(h.partnum, h.key.req) then 1 else 0
    ensures FileOk(f) && FileItems(f) == [HeaderItem(h)]
  {
    OnePart(f.key, p);
    assert PartItems(f.key, p) == [HeaderItem(h)];
    assert [p][1..] == [];
  }

  lemma FileAddedInOrder(fs: seq<File>, fs': seq<File>, i: nat, f: File)
    requires FilesSorted(fs) && FilesOk(fs) && i <= |fs| && fs' == fs[..i] + [f] + fs[i..] && FileOk(f)
    requires forall k :: 0 <= k < i ==> Less(fs[k].key, f.key) || fs[k].key == f.key
    requires forall k :: i <= k < |fs| ==> Less(f.key, fs[k].key)
    ensures FilesSorted(fs') && FilesOk(fs')
  {
    hide Less, FileOk;
    forall k | 0 <= k < |fs|
      ensures k < i ==> NotAfter(fs[k].key, f.key)
      ensures k >= i ==> NotAfter(f.key, fs[k].key)
    {
      LessTotal(fs[k].key, f.key);
    }
    hide NotAfter;
  }

  lemma NotBelow(fs: seq<File>, lo: nat, i: nat, key: Key)
    requires FilesSorted(fs) && lo <= i < |fs| && !Less(fs[lo].key, key) && !Less(key, fs[i].key)
    ensures fs[i].key == key
  {
    hide Less;
    assert NotAfter(fs[lo].key, fs[i].key) by { LessTotal(key, key); if lo == i { LessTotal(fs[i].key, fs[i].key); } }
    NotAfterTransitive(key, fs[lo].key, fs[i].key);
    LessTotal(key, fs[i].key);
  }

  lemma AfterStrict(a: Key, b: Key, c: Key)
    requires Less(a, b) && NotAfter(b, c)
    ensures Less(a, c)
  {
    hide Less;
    LessTotal(a, c);
    LessTotal(b, c);
    if b != c { LessTransitive(a, b, c); }
  }

  // A server without information has no articles.
  lemma {:induction false} NoArticles(infos: map<nat, ServerInfo>, items: seq<Item>, sid: nat)
    requires forall item :: item in items ==> Within(infos, item.article)
    requires sid !in infos
    ensures CountServer(items, sid) == 0
  {
    if |items| > 0 {
      assert items[0] in items;
      NoArticles(infos, items[1..], sid);
    }
  }
}
