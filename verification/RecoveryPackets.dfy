// Choosing which recovery files to fetch for a PAR2 set.
module RecoveryPackets {
  import opened Common
  import opened ServerFiles
  import opened ParLists
  import Knapsack

  // ---------- data blocks from incomplete files ----------

  // How many blocks a file may give, if its subject names a damaged source file.
  type Estimate = ServerFile -> Option<nat>

  function Blocks(f: ServerFile, blocks: Estimate): (r: nat)
    ensures r == 0 <==> blocks(f).None?
    ensures blocks(f).Some? ==> r >= blocks(f).value && r in {1, blocks(f).value}
  {
    match blocks(f)
    case None => 0
    case Some(n) => if n > 1 then n else 1
  }

  function AllBlocks(l: seq<ServerFile>, blocks: Estimate): nat {
    if |l| == 0 then 0 else AllBlocks(l[..|l| - 1], blocks) + Blocks(l[|l| - 1], blocks)
  }

  // The files of l that name a damaged source file.
  function Useful(l: seq<ServerFile>, blocks: Estimate): seq<ServerFile> {
    if |l| == 0 then []
    else Useful(l[..|l| - 1], blocks) + (if blocks(l[|l| - 1]).Some? then [l[|l| - 1]] else [])
  }

  lemma OneMoreUseful(l: seq<ServerFile>, f: ServerFile, blocks: Estimate)
    ensures Useful(l + [f], blocks) == Useful(l, blocks) + (if blocks(f).Some? then [f] else [])
    ensures AllBlocks(l + [f], blocks) == AllBlocks(l, blocks) + Blocks(f, blocks)
  {
    assert (l + [f])[..|l|] == l;
  }

  // Files with blocks, from the front of the list, until num are expected.
  method Gather(num: nat, blocks: Estimate, l: seq<ServerFile>) returns (added: nat, items: seq<ServerFile>, rest: seq<ServerFile>)
    requires num > 0
    ensures multiset(items) + multiset(rest) == multiset(l)
    ensures added == AllBlocks(items, blocks) && (added == 0 <==> |items| == 0)
    ensures |items| > 0 ==> AllBlocks(items[..|items| - 1], blocks) < num
    ensures added < num ==> items == Useful(l, blocks)
    ensures items <= Useful(l, blocks) && added <= AllBlocks(Useful(l, blocks), blocks)
  {
    hide Gathered, Blocks;
    added, items := 0, [];
    var left: seq<ServerFile> := [];
    var k := 0;
    GatherStart(l, num, blocks);
    while added < num && k < |l|
      invariant 0 <= k <= |l|
      invariant Gathered(l, k, items, left, added, num, blocks)
    {
      GatherStep(l, k, items, left, added, num, blocks);
      match blocks(l[k]) {
        case Some(n) =>
          added := added + Blocks(l[k], blocks);
          items := items + [l[k]];
        case None =>
          left := left + [l[k]];
      }
      k := k + 1;
    }
    rest := left + l[k..];
    GatherEnd(l, k, items, left, added, num, blocks);
    UsefulBefore(l, k, blocks);
    FewerBlocks(items, Useful(l, blocks), blocks);
  }

  lemma {:induction false} UsefulBefore(l: seq<ServerFile>, k: nat, blocks: Estimate)
    requires k <= |l|
    ensures Useful(l[..k], blocks) <= Useful(l, blocks)
  {
    if k < |l| {
      UsefulBefore(l[..|l| - 1], k, blocks);
      assert l[..|l| - 1][..k] == l[..k];
    } else {
      assert l[..k] == l;
    }
  }

  lemma {:induction false} FewerBlocks(a: seq<ServerFile>, b: seq<ServerFile>, blocks: Estimate)
    requires a <= b
    ensures AllBlocks(a, blocks) <= AllBlocks(b, blocks)
  {
    if |a| < |b| { FewerBlocks(a, b[..|b| - 1], blocks); } else { assert a == b; }
  }

  // The first k files have been looked at.
  ghost predicate Gathered(l: seq<ServerFile>, k: nat, items: seq<ServerFile>, left: seq<ServerFile>, added: nat, num: nat, blocks: Estimate) {
    && k <= |l|
    && items == Useful(l[..k], blocks)
    && multiset(items) + multiset(left) == multiset(l[..k])
    && added == AllBlocks(items, blocks) && (added == 0 <==> |items| == 0)
    && (|items| > 0 ==> AllBlocks(items[..|items| - 1], blocks) < num)
  }

  lemma GatherStart(l: seq<ServerFile>, num: nat, blocks: Estimate)
    ensures Gathered(l, 0, [], [], 0, num, blocks)
  {
    assert l[..0] == [];
  }

  lemma GatherStep(l: seq<ServerFile>, k: nat, items: seq<ServerFile>, left: seq<ServerFile>, added: nat, num: nat, blocks: Estimate)
    requires Gathered(l, k, items, left, added, num, blocks) && k < |l| && added < num
    ensures if blocks(l[k]).Some? then Gathered(l, k + 1, items + [l[k]], left, added + Blocks(l[k], blocks), num, blocks)
            else Gathered(l, k + 1, items, left + [l[k]], added, num, blocks)
  {
    hide Useful, AllBlocks;
    assert l[..k + 1] == l[..k] + [l[k]];
    OneMoreUseful(l[..k], l[k], blocks);
    OneMoreUseful(items, l[k], blocks);
    assert (items + [l[k]])[..|items|] == items;
  }

  lemma GatherEnd(l: seq<ServerFile>, k: nat, items: seq<ServerFile>, left: seq<ServerFile>, added: nat, num: nat, blocks: Estimate)
    requires Gathered(l, k, items, left, added, num, blocks)
    ensures multiset(items) + multiset(left + l[k..]) == multiset(l)
    ensures added == AllBlocks(items, blocks) && (added == 0 <==> |items| == 0)
    ensures |items| > 0 ==> AllBlocks(items[..|items| - 1], blocks) < num
    ensures k == |l| ==> items == Useful(l, blocks)
    ensures items == Useful(l[..k], blocks)
  {
    hide Useful, AllBlocks;
    assert l == l[..k] + l[k..];
    if k == |l| { assert l[..k] == l; }
  }

  lemma NothingUseful(blocks: Estimate)
    ensures Useful([], blocks) == [] && AllBlocks([], blocks) == 0
  {
  }

  // Queue files with blocks until num are expected.  The optimistic take all or nothing.
  method GetExtradata(num: nat, blocks: Estimate, optimistic: bool, serverextradata: seq<ServerFile>, path: string, fc: FileQueue)
    returns (added: nat, rest: seq<ServerFile>, ghost got: seq<ServerFile>)
    requires ByDate(fc.files) && num > 0
    modifies fc
    ensures ByDate(fc.files) && FilesBag(fc.files) == FilesBag(old(fc.files)) + multiset(got)
    ensures |fc.files| == |old(fc.files)| + |got|
    ensures multiset(rest) + multiset(got) == multiset(serverextradata)
    ensures forall x :: x in fc.files ==> x in old(fc.files) || Ours(x, path)
    ensures added == AllBlocks(got, blocks) && (added == 0 <==> |got| == 0)
    ensures |got| > 0 ==> AllBlocks(got[..|got| - 1], blocks) < num
    ensures optimistic && added < num ==> |got| == 0
    ensures !optimistic && added < num ==> got == Useful(serverextradata, blocks)
    ensures got <= Useful(serverextradata, blocks)
    ensures optimistic ==> (|got| > 0 <==> AllBlocks(Useful(serverextradata, blocks), blocks) >= num)
  {
    hide ByDate, FilesBag, Useful, AllBlocks;
    var items;
    added, items, rest := Gather(num, blocks, serverextradata);
    if optimistic && added < num {
      NothingUseful(blocks);
      return 0, serverextradata, [];
    }
    var n := AddAll(items, path, fc);
    got := items;
  }

  // ---------- what the recovery files on offer would bring ----------

  function Packets(begin: nat, end: nat): set<nat> {
    if begin >= end then {} else Packets(begin, end - 1) + {end - 1}
  }

  lemma {:induction false} PacketsHold(begin: nat, end: nat)
    ensures forall p :: p in Packets(begin, end) <==> begin <= p < end
  {
    if begin < end { PacketsHold(begin, end - 1); }
  }

  function AllPackets(rs: seq<Range>): set<nat> {
    if |rs| == 0 then {} else AllPackets(rs[..|rs| - 1]) + Packets(rs[|rs| - 1].begin, rs[|rs| - 1].end)
  }

  function OnOffer(l: seq<ServerFile>, ranges: Matcher): set<nat> {
    if |l| == 0 then {} else OnOffer(l[..|l| - 1], ranges) + AllPackets(ranges(l[|l| - 1]))
  }

  // Count the packets neither held nor on offer so far, and note them as on offer.
  method CountNew(r: Range, havepackets: set<nat>, avail0: set<nat>) returns (value: nat, avail: set<nat>)
    requires avail0 !! havepackets
    ensures Counted(avail0, avail, value, r.begin, r.end, havepackets)
  {
    hide Counted;
    value, avail := 0, avail0;
    var packet := r.begin;
    CountStart(avail0, r.begin, r.end, havepackets);
    while packet < r.end
      invariant r.begin <= packet && (packet <= r.end || packet == r.begin)
      invariant packet >= r.end ==> Counted(avail0, avail, value, r.begin, r.end, havepackets)
      invariant Counted(avail0, avail, value, r.begin, packet, havepackets)
    {
      CountOne(avail0, avail, value, r.begin, packet, havepackets);
      if packet !in havepackets && packet !in avail {
        avail := avail + {packet};
        value := value + 1;
      }
      packet := packet + 1;
    }
  }

  // avail is avail0 with the packets from begin to end that are not held, `value` more.
  ghost predicate Counted(avail0: set<nat>, avail: set<nat>, value: nat, begin: nat, end: nat, held: set<nat>) {
    && avail == avail0 + (Packets(begin, end) - held)
    && |avail| == |avail0| + value
    && (value == 0 <==> avail == avail0)
    && (value > 0 ==> begin < end)
  }

  lemma CountStart(avail: set<nat>, begin: nat, end: nat, held: set<nat>)
    ensures Counted(avail, avail, 0, begin, begin, held)
    ensures begin >= end ==> Counted(avail, avail, 0, begin, end, held)
  {
  }

  lemma CountOne(avail0: set<nat>, avail: set<nat>, value: nat, begin: nat, p: nat, held: set<nat>)
    requires Counted(avail0, avail, value, begin, p, held) && begin <= p
    ensures if p !in held && p !in avail then Counted(avail0, avail + {p}, value + 1, begin, p + 1, held)
            else Counted(avail0, avail, value, begin, p + 1, held)
  {
    assert Packets(begin, p + 1) == Packets(begin, p) + {p};
    hide Packets;
    var a, b := Packets(begin, p), Packets(begin, p + 1);
    if p in held {
      assert b - held == a - held;
    } else {
      assert avail0 + (b - held) == avail + {p};
      if p in avail { assert avail + {p} == avail; }
    }
  }

  // Incomplete files count for less, but at least one.
  function Weight(value: nat, f: ServerFile): (w: nat)
    requires value > 0
    ensures w > 0
    ensures f.req < 1 || f.have == f.req ==> w == value
    ensures 0 <= f.have <= f.req ==> w <= value
  {
    if f.req >= 1 then
      ShareAtMost(value, f.have, f.req);
      var w := value * f.have / f.req;
      if w > 1 then w else 1
    else value
  }

  lemma ShareAtMost(value: nat, have: int, req: int)
    requires req >= 1
    ensures have == req ==> value * have / req == value
    ensures 0 <= have <= req ==> value * have / req <= value
  {
    if 0 <= have <= req {
      MultipleAtMost(value, have, req);
      QuotientAtMost(value * have, value, req);
      if have == req { QuotientIs(value, req); }
    }
  }

  lemma MultipleAtMost(v: nat, a: int, b: int)
    requires 0 <= a <= b
    ensures 0 <= v * a <= v * b
  {
  }

  lemma QuotientAtMost(a: int, v: nat, d: int)
    requires 0 <= a <= v * d && d >= 1
    ensures a / d <= v
  {
    var q := a / d;
    assert a == q * d + a % d;
    if q > v { MultipleAtMost(d, v + 1, q); }
  }

  lemma {:induction false} QuotientIs(v: nat, d: int)
    requires d >= 1
    ensures v * d / d == v
  {
    if v > 0 {
      QuotientIs(v - 1, d);
      assert v * d == (v - 1) * d + d;
      assert ((v - 1) * d + d) / d == (v - 1) * d / d + 1;
    }
  }

  // ---------- the items to choose from ----------

  // What a file brings: the number of packets in it and how many of them are new.
  datatype News = News(size: nat, value: nat)

  // The packets of range k that are neither seen before nor in an earlier range.
  function Fresh(rs: seq<Range>, k: nat, seen: set<nat>): set<nat>
    requires k < |rs|
  {
    Packets(rs[k].begin, rs[k].end) - seen - AllPackets(rs[..k])
  }

  // The ranges, of the first n, that bring something new.
  function NewsOf(rs: seq<Range>, n: nat, seen: set<nat>): seq<News>
    requires n <= |rs|
  {
    if n == 0 then []
    else
      var value := |Fresh(rs, n - 1, seen)|;
      NewsOf(rs, n - 1, seen) + (if value > 0 then [News(rs[n - 1].end - rs[n - 1].begin, value)] else [])
  }

  function ValueSum(news: seq<News>): nat {
    if |news| == 0 then 0 else ValueSum(news[..|news| - 1]) + news[|news| - 1].value
  }

  // The ranges of one file that bring something new, one for every name that reads some from its subject.
  method NewRanges(rs: seq<Range>, havepackets: set<nat>, avail0: set<nat>) returns (news: seq<News>, avail: set<nat>)
    requires avail0 !! havepackets
    ensures news == NewsOf(rs, |rs|, havepackets + avail0)
    ensures NewsOk(rs, |rs|, havepackets, avail0, news, avail)
  {
    hide *;
    news, avail := [], avail0;
    NewsStart(rs, havepackets, avail0);
    for j := 0 to |rs|
      invariant avail !! havepackets && news == NewsOf(rs, j, havepackets + avail0)
      invariant NewsOk(rs, j, havepackets, avail0, news, avail)
    {
      ghost var before := avail;
      var value;
      value, avail := CountNew(rs[j], havepackets, avail);
      NewsStep(rs, j, havepackets, avail0, news, before, avail, value);
      if value > 0 {
        news := news + [News(rs[j].end - rs[j].begin, value)];
      }
    }
  }

  // The first j ranges have been counted.
  ghost predicate NewsOk(rs: seq<Range>, j: nat, havepackets: set<nat>, avail0: set<nat>, news: seq<News>, avail: set<nat>) {
    && j <= |rs|
    && avail == avail0 + (AllPackets(rs[..j]) - havepackets)
    && |avail| == |avail0| + ValueSum(news)
    && forall k :: 0 <= k < |news| ==> news[k].value > 0 && news[k].size > 0
  }

  lemma NewsStart(rs: seq<Range>, havepackets: set<nat>, avail0: set<nat>)
    requires avail0 !! havepackets
    ensures NewsOk(rs, 0, havepackets, avail0, [], avail0) && NewsOf(rs, 0, havepackets + avail0) == []
  {
    assert rs[..0] == [];
  }

  lemma NewsStep(rs: seq<Range>, j: nat, havepackets: set<nat>, avail0: set<nat>, news: seq<News>, before: set<nat>, avail: set<nat>, value: nat)
    requires before !! havepackets && j < |rs|
    requires NewsOk(rs, j, havepackets, avail0, news, before) && news == NewsOf(rs, j, havepackets + avail0)
    requires Counted(before, avail, value, rs[j].begin, rs[j].end, havepackets)
    ensures avail !! havepackets && (value > 0 ==> rs[j].begin < rs[j].end)
    ensures var more := if value > 0 then news + [News(rs[j].end - rs[j].begin, value)] else news;
      NewsOk(rs, j + 1, havepackets, avail0, more, avail) && more == NewsOf(rs, j + 1, havepackets + avail0)
  {
    hide Packets, Fresh, AllPackets;
    OneMoreRange(rs, j);
    FreshCount(rs, j, havepackets, avail0, before, avail, value);
    assert news + [] == news;
    if value > 0 {
      var more := news + [News(rs[j].end - rs[j].begin, value)];
      assert more[..|news|] == news;
    }
  }

  lemma OneMoreRange(rs: seq<Range>, j: nat)
    requires j < |rs|
    ensures AllPackets(rs[..j + 1]) == AllPackets(rs[..j]) + Packets(rs[j].begin, rs[j].end)
  {
    assert rs[..j + 1][..j] == rs[..j];
  }

  lemma FreshCount(rs: seq<Range>, j: nat, havepackets: set<nat>, avail0: set<nat>, before: set<nat>, avail: set<nat>, value: nat)
    requires j < |rs| && before == avail0 + (AllPackets(rs[..j]) - havepackets)
    requires Counted(before, avail, value, rs[j].begin, rs[j].end, havepackets)
    ensures value == |Fresh(rs, j, havepackets + avail0)|
  {
    hide Packets, AllPackets;
    var new_ := Fresh(rs, j, havepackets + avail0);
    assert avail == before + new_ && before !! new_;
    assert |before + new_| == |before| + |new_|;
  }

  datatype Listing = Listing(sizes: seq<int>, values: seq<int>, items: seq<nat>, avail: set<nat>)

  ghost predicate AllComplete(l: seq<ServerFile>) {
    forall k :: 0 <= k < |l| ==> l[k].req < 1 || l[k].have == l[k].req
  }

  // What is listed: for each file in turn, the ranges that bring packets neither held nor on offer so far.
  datatype Entry = Entry(item: nat, news: News)

  function Named(item: nat, news: seq<News>): seq<Entry> {
    if |news| == 0 then [] else Named(item, news[..|news| - 1]) + [Entry(item, news[|news| - 1])]
  }

  function FileNews(l: seq<ServerFile>, k: nat, ranges: Matcher, havepackets: set<nat>): seq<News>
    requires k < |l|
  {
    NewsOf(ranges(l[k]), |ranges(l[k])|, havepackets + OnOffer(l[..k], ranges))
  }

  function Entries(l: seq<ServerFile>, ranges: Matcher, havepackets: set<nat>): seq<Entry> {
    if |l| == 0 then []
    else
      var n := |l| - 1;
      Entries(l[..n], ranges, havepackets) + Named(n, FileNews(l, n, ranges, havepackets))
  }

  // An item, its size and its value are what the entry says.
  predicate Fits(l: seq<ServerFile>, e: Entry, item: nat, size: int, value: int) {
    && item == e.item < |l| && size == e.news.size > 0
    && e.news.value > 0 && value == Weight(e.news.value, l[e.item])
  }

  ghost predicate Lists(l: seq<ServerFile>, es: seq<Entry>, a: Listing) {
    && |a.sizes| == |a.values| == |a.items| == |es|
    && forall k :: 0 <= k < |es| ==> Fits(l, es[k], a.items[k], a.sizes[k], a.values[k])
  }

  // The listing is that; the values of complete files are the numbers of new packets, none counted twice.
  ghost predicate Listed(l: seq<ServerFile>, ranges: Matcher, havepackets: set<nat>, a: Listing) {
    && Lists(l, Entries(l, ranges, havepackets), a)
    && a.avail == OnOffer(l, ranges) - havepackets
    && (AllComplete(l) ==> Knapsack.Sum(a.values, |a.values|) == |a.avail|)
  }

  method ListItems(l: seq<ServerFile>, ranges: Matcher, havepackets: set<nat>) returns (a: Listing)
    ensures Listed(l, ranges, havepackets, a)
  {
    hide Listed, AllPackets, NewsOf, NewsOk, Named;
    a := Listing([], [], [], {});
    assert l[..0] == [];
    NothingListed(ranges, havepackets);
    for i := 0 to |l|
      invariant Listed(l[..i], ranges, havepackets, a)
    {
      ListedAvail(l[..i], ranges, havepackets, a);
      ghost var before := a;
      var news, avail := NewRanges(ranges(l[i]), havepackets, a.avail);
      assert l[..i + 1] == l[..i] + [l[i]];
      ListingStart(l[..i], l[i], i, a);
      for j := 0 to |news|
        invariant a.avail == before.avail && ListingRun(l[..i], l[i], i, before, news, j, a)
      {
        ListingMore(l[..i], l[i], ranges, havepackets, before, avail, news, j, a);
        var value := Weight(news[j].value, l[i]);
        a := Listing(a.sizes + [news[j].size], a.values + [value], a.items + [i], a.avail);
      }
      a := a.(avail := avail);
      ListedMore(l[..i], l[i], ranges, havepackets, before, avail, news, a);
    }
    assert l[..|l|] == l;
  }

  // The first j of a file's ranges have been listed behind what was before.
  ghost predicate ListingRun(l: seq<ServerFile>, f: ServerFile, i: nat, before: Listing, news: seq<News>, j: nat, a: Listing) {
    && j <= |news| && i == |l|
    && |before.sizes| == |before.values| == |before.items|
    && |a.sizes| == |a.values| == |a.items| == |before.items| + j
    && a.sizes[..|before.items|] == before.sizes && a.values[..|before.items|] == before.values && a.items[..|before.items|] == before.items
    && (forall k :: 0 <= k < j ==> news[k].value > 0)
    && (forall k :: |before.items| <= k < |a.items| ==>
          var x := news[k - |before.items|]; a.items[k] == i && a.sizes[k] == x.size && a.values[k] == Weight(x.value, f))
    && (f.req < 1 || f.have == f.req ==>
          Knapsack.Sum(a.values, |a.values|) == Knapsack.Sum(before.values, |before.values|) + ValueSum(news[..j]))
  }

  lemma ListingStart(l: seq<ServerFile>, f: ServerFile, i: nat, a: Listing)
    requires i == |l| && |a.sizes| == |a.values| == |a.items|
    ensures forall news: seq<News> :: ListingRun(l, f, i, a, news, 0, a)
  {
    forall news: seq<News>
      ensures ListingRun(l, f, i, a, news, 0, a)
    {
      assert news[..0] == [];
      assert a.sizes[..|a.items|] == a.sizes && a.values[..|a.items|] == a.values && a.items[..|a.items|] == a.items;
    }
  }

  lemma ListingMore(l: seq<ServerFile>, f: ServerFile, ranges: Matcher, havepackets: set<nat>, before: Listing, avail: set<nat>,
                    news: seq<News>, j: nat, a: Listing)
    requires ListingRun(l, f, |l|, before, news, j, a) && j < |news|
    requires NewsOk(ranges(f), |ranges(f)|, havepackets, before.avail, news, avail)
    ensures news[j].value > 0
    ensures ListingRun(l, f, |l|, before, news, j + 1,
                     Listing(a.sizes + [news[j].size], a.values + [Weight(news[j].value, f)], a.items + [|l|], a.avail))
  {
    hide Knapsack.Sum, AllPackets, ValueSum, OnOffer;
    var w := Weight(news[j].value, f);
    SumMore(a.values, w);
    hide Weight;
    var r := Listing(a.sizes + [news[j].size], a.values + [w], a.items + [|l|], a.avail);
    var n := |before.items|;
    PrefixStays(a.sizes, news[j].size, n);
    PrefixStays(a.values, w, n);
    PrefixStays(a.items, |l|, n);
    forall k | n <= k < |r.items|
      ensures r.items[k] == |l| && r.sizes[k] == news[k - n].size && r.values[k] == Weight(news[k - n].value, f)
    {
      if k < |a.items| { assert r.items[k] == a.items[k]; }
    }
    ValueMore(news, j);
  }

  lemma PrefixStays<T>(s: seq<T>, x: T, n: nat)
    requires n <= |s|
    ensures (s + [x])[..n] == s[..n]
  {
  }

  lemma ValueMore(news: seq<News>, j: nat)
    requires j < |news|
    ensures ValueSum(news[..j + 1]) == ValueSum(news[..j]) + news[j].value
  {
    assert news[..j + 1][..j] == news[..j];
  }

  lemma NothingListed(ranges: Matcher, havepackets: set<nat>)
    ensures Listed([], ranges, havepackets, Listing([], [], [], {}))
  {
  }

  lemma ListedAvail(l: seq<ServerFile>, ranges: Matcher, havepackets: set<nat>, a: Listing)
    requires Listed(l, ranges, havepackets, a)
    ensures a.avail !! havepackets && |a.sizes| == |a.values| == |a.items|
    ensures havepackets + a.avail == havepackets + OnOffer(l, ranges)
  {
    hide Entries;
  }

  lemma StillComplete(l: seq<ServerFile>, f: ServerFile)
    ensures AllComplete(l + [f]) ==> AllComplete(l) && (f.req < 1 || f.have == f.req)
  {
    if AllComplete(l + [f]) {
      var r := l + [f];
      assert r[|l|] == f;
      forall k | 0 <= k < |l|
        ensures l[k].req < 1 || l[k].have == l[k].req
      {
        assert r[k] == l[k];
      }
    }
  }

  lemma ListedMore(l: seq<ServerFile>, f: ServerFile, ranges: Matcher, havepackets: set<nat>, before: Listing, avail: set<nat>,
                   news: seq<News>, a: Listing)
    requires Listed(l, ranges, havepackets, before) && ListingRun(l, f, |l|, before, news, |news|, a) && a.avail == avail
    requires news == NewsOf(ranges(f), |ranges(f)|, havepackets + before.avail)
    requires NewsOk(ranges(f), |ranges(f)|, havepackets, before.avail, news, avail)
    ensures Listed(l + [f], ranges, havepackets, a)
  {
    hide AllPackets, Weight, NewsOf, Knapsack.Sum, ValueSum, Lists, Entries;
    var r := l + [f];
    assert r[..|l|] == l && r[|l|] == f;
    ListedAvail(l, ranges, havepackets, before);
    StillComplete(l, f);
    assert news[..|news|] == news && ranges(f)[..|ranges(f)|] == ranges(f);
    EntriesMore(l, f, ranges, havepackets);
    ListsMore(l, f, Entries(l, ranges, havepackets), before, news, a);
  }

  lemma EntriesMore(l: seq<ServerFile>, f: ServerFile, ranges: Matcher, havepackets: set<nat>)
    ensures Entries(l + [f], ranges, havepackets)
         == Entries(l, ranges, havepackets) + Named(|l|, NewsOf(ranges(f), |ranges(f)|, havepackets + OnOffer(l, ranges)))
  {
    hide NewsOf, Named, OnOffer;
    assert (l + [f])[..|l|] == l && (l + [f])[|l|] == f;
  }

  lemma ListsMore(l: seq<ServerFile>, f: ServerFile, es: seq<Entry>, before: Listing, news: seq<News>, a: Listing)
    requires Lists(l, es, before) && ListingRun(l, f, |l|, before, news, |news|, a)
    requires forall k :: 0 <= k < |news| ==> news[k].value > 0 && news[k].size > 0
    ensures Lists(l + [f], es + Named(|l|, news), a)
  {
    hide Weight, Named, Knapsack.Sum, ValueSum, Fits;
    NamedAt(|l|, news);
    var r, n := l + [f], |es|;
    var all := es + Named(|l|, news);
    forall k | 0 <= k < |all|
      ensures Fits(r, all[k], a.items[k], a.sizes[k], a.values[k])
    {
      if k < n {
        assert a.items[..n][k] == a.items[k] && a.sizes[..n][k] == a.sizes[k] && a.values[..n][k] == a.values[k];
        FitsStill(l, f, es[k], a.items[k], a.sizes[k], a.values[k]);
      } else {
        FitsNew(l, f, news[k - n], a.sizes[k], a.values[k]);
      }
    }
  }

  lemma FitsStill(l: seq<ServerFile>, f: ServerFile, e: Entry, item: nat, size: int, value: int)
    requires Fits(l, e, item, size, value)
    ensures Fits(l + [f], e, item, size, value)
  {
    hide Weight;
    assert (l + [f])[e.item] == l[e.item];
  }

  lemma FitsNew(l: seq<ServerFile>, f: ServerFile, n: News, size: int, value: int)
    requires n.value > 0 && size == n.size > 0 && value == Weight(n.value, f)
    ensures Fits(l + [f], Entry(|l|, n), |l|, size, value)
  {
    hide Weight;
    assert (l + [f])[|l|] == f;
  }

  lemma {:induction false} NamedAt(item: nat, news: seq<News>)
    ensures |Named(item, news)| == |news|
    ensures forall k :: 0 <= k < |news| ==> Named(item, news)[k] == Entry(item, news[k])
  {
    if |news| > 0 { NamedAt(item, news[..|news| - 1]); }
  }

  // ---------- when a file is listed more than once ----------

  // Range i of file k brings packets neither held nor on offer from the files and ranges before it.
  ghost predicate Brings(l: seq<ServerFile>, ranges: Matcher, havepackets: set<nat>, k: nat, i: nat)
    requires k < |l| && i < |ranges(l[k])|
  {
    Fresh(ranges(l[k]), i, havepackets + OnOffer(l[..k], ranges)) != {}
  }

  // No file has two ranges that both do.
  ghost predicate Once(l: seq<ServerFile>, ranges: Matcher, havepackets: set<nat>) {
    forall k, i, j :: 0 <= k < |l| && 0 <= i < j < |ranges(l[k])| ==>
      !(Brings(l, ranges, havepackets, k, i) && Brings(l, ranges, havepackets, k, j))
  }

  ghost predicate Increasing(items: seq<nat>) {
    forall i, j :: 0 <= i < j < |items| ==> items[i] < items[j]
  }

  ghost predicate InOrder(es: seq<Entry>) {
    forall i, j :: 0 <= i < j < |es| ==> es[i].item < es[j].item
  }

  ghost predicate OneBrings(rs: seq<Range>, n: nat, seen: set<nat>)
    requires n <= |rs|
  {
    exists i :: 0 <= i < n && Fresh(rs, i, seen) != {}
  }

  ghost predicate TwoBring(rs: seq<Range>, n: nat, seen: set<nat>)
    requires n <= |rs|
  {
    exists i, j :: 0 <= i < j < n && Fresh(rs, i, seen) != {} && Fresh(rs, j, seen) != {}
  }

  lemma {:induction false} NewsCount(rs: seq<Range>, n: nat, seen: set<nat>)
    requires n <= |rs|
    ensures |NewsOf(rs, n, seen)| >= 1 <==> OneBrings(rs, n, seen)
    ensures |NewsOf(rs, n, seen)| >= 2 <==> TwoBring(rs, n, seen)
  {
    hide Fresh;
    if n > 0 {
      NewsCount(rs, n - 1, seen);
      var last := Fresh(rs, n - 1, seen);
      assert |last| > 0 <==> last != {};
      if i :| 0 <= i < n - 1 && Fresh(rs, i, seen) != {} && last != {} { assert TwoBring(rs, n, seen); }
    }
  }

  // The listing has each file at most once exactly when no file has two ranges that both bring something.
  lemma ListedOnceIff(l: seq<ServerFile>, ranges: Matcher, havepackets: set<nat>, a: Listing)
    requires Listed(l, ranges, havepackets, a)
    ensures Increasing(a.items) <==> Once(l, ranges, havepackets)
  {
    hide Entries, OnOffer, Brings;
    EntriesOnceIff(l, ranges, havepackets);
    var es := Entries(l, ranges, havepackets);
    if Increasing(a.items) {
      forall i, j | 0 <= i < j < |es|
        ensures es[i].item < es[j].item
      {
        assert a.items[i] < a.items[j];
      }
    }
    if InOrder(es) {
      forall i, j | 0 <= i < j < |a.items|
        ensures a.items[i] < a.items[j]
      {
        assert es[i].item < es[j].item;
      }
    }
  }

  lemma {:induction false} EntriesOnceIff(l: seq<ServerFile>, ranges: Matcher, havepackets: set<nat>)
    ensures InOrder(Entries(l, ranges, havepackets)) <==> Once(l, ranges, havepackets)
    ensures AllBelow(Entries(l, ranges, havepackets), |l|)
  {
    hide OnOffer, Brings, NewsOf, Once, Named, FileNews, InOrder, AllBelow;
    if |l| > 0 {
      var n := |l| - 1;
      EntriesOnceIff(l[..n], ranges, havepackets);
      OnceMore(l, ranges, havepackets);
      InOrderMore(Entries(l[..n], ranges, havepackets), FileNews(l, n, ranges, havepackets), n);
    } else {
      NoEntries(l, ranges, havepackets);
    }
  }

  lemma NoEntries(l: seq<ServerFile>, ranges: Matcher, havepackets: set<nat>)
    requires |l| == 0
    ensures InOrder([]) && AllBelow([], 0) && Once(l, ranges, havepackets)
  {
  }

  ghost predicate AllBelow(es: seq<Entry>, n: nat) {
    forall k :: 0 <= k < |es| ==> es[k].item < n
  }

  lemma InOrderMore(es: seq<Entry>, news: seq<News>, n: nat)
    requires AllBelow(es, n)
    ensures InOrder(es + Named(n, news)) <==> InOrder(es) && |news| <= 1
    ensures AllBelow(es + Named(n, news), n + 1)
  {
    hide Named;
    NamedAt(n, news);
    var more := Named(n, news);
    var all := es + more;
    if InOrder(all) {
      forall i, j | 0 <= i < j < |es|
        ensures es[i].item < es[j].item
      {
        assert all[i] == es[i] && all[j] == es[j];
      }
      assert |more| > 1 ==> all[|es|].item == n && all[|es| + 1].item == n;
    }
  }

  lemma OnceMore(l: seq<ServerFile>, ranges: Matcher, havepackets: set<nat>)
    requires |l| > 0
    ensures Once(l, ranges, havepackets)
        <==> Once(l[..|l| - 1], ranges, havepackets) && |FileNews(l, |l| - 1, ranges, havepackets)| <= 1
  {
    hide Fresh, NewsOf, OnOffer, Brings;
    var n := |l| - 1;
    var front, rs := l[..n], ranges(l[n]);
    NewsCount(rs, |rs|, havepackets + OnOffer(front, ranges));
    SameBrings(l, ranges, havepackets);
    if !Once(front, ranges, havepackets) {
      var k, i, j :| 0 <= k < |front| && 0 <= i < j < |ranges(front[k])|
        && Brings(front, ranges, havepackets, k, i) && Brings(front, ranges, havepackets, k, j);
      assert Brings(l, ranges, havepackets, k, i) && Brings(l, ranges, havepackets, k, j) && l[k] == front[k];
    }
    if TwoBring(rs, |rs|, havepackets + OnOffer(front, ranges)) {
      var i, j :| 0 <= i < j < |rs| && Fresh(rs, i, havepackets + OnOffer(front, ranges)) != {}
        && Fresh(rs, j, havepackets + OnOffer(front, ranges)) != {};
      LastBrings(l, ranges, havepackets, i);
      LastBrings(l, ranges, havepackets, j);
    }
    if !Once(l, ranges, havepackets) {
      var k, i, j :| 0 <= k < |l| && 0 <= i < j < |ranges(l[k])|
        && Brings(l, ranges, havepackets, k, i) && Brings(l, ranges, havepackets, k, j);
      if k < n {
        assert Brings(front, ranges, havepackets, k, i) && Brings(front, ranges, havepackets, k, j) && l[k] == front[k];
      } else {
        LastBrings(l, ranges, havepackets, i);
        LastBrings(l, ranges, havepackets, j);
        assert TwoBring(rs, |rs|, havepackets + OnOffer(front, ranges));
      }
    }
  }

  lemma SameBrings(l: seq<ServerFile>, ranges: Matcher, havepackets: set<nat>)
    requires |l| > 0
    ensures forall k :: 0 <= k < |l| - 1 ==> l[..|l| - 1][k] == l[k]
    ensures forall k, i :: 0 <= k < |l| - 1 && 0 <= i < |ranges(l[k])| ==>
      (Brings(l[..|l| - 1], ranges, havepackets, k, i) <==> Brings(l, ranges, havepackets, k, i))
  {
    hide Fresh, OnOffer;
    var front := l[..|l| - 1];
    assert forall k :: 0 <= k < |front| ==> front[k] == l[k] && front[..k] == l[..k];
  }

  lemma LastBrings(l: seq<ServerFile>, ranges: Matcher, havepackets: set<nat>, i: nat)
    requires |l| > 0 && i < |ranges(l[|l| - 1])|
    ensures Brings(l, ranges, havepackets, |l| - 1, i)
        <==> Fresh(ranges(l[|l| - 1]), i, havepackets + OnOffer(l[..|l| - 1], ranges)) != {}
  {
  }

  // At most one range brings packets not held, whatever else is on offer.
  ghost predicate OneNews(rs: seq<Range>, havepackets: set<nat>) {
    forall i, j :: 0 <= i < j < |rs| ==> Fresh(rs, i, havepackets) == {} || Fresh(rs, j, havepackets) == {}
  }

  // Each file by itself decides about all lists of these files.
  lemma OnceInAllListsIff(files: set<ServerFile>, ranges: Matcher, havepackets: set<nat>)
    ensures (forall l: seq<ServerFile> :: (forall f :: f in l ==> f in files) ==> Once(l, ranges, havepackets))
        <==> forall f :: f in files ==> OneNews(ranges(f), havepackets)
  {
    hide OneNews, Once;
    if forall f :: f in files ==> OneNews(ranges(f), havepackets) {
      forall l: seq<ServerFile> | forall f :: f in l ==> f in files
        ensures Once(l, ranges, havepackets)
      {
        OnceFromEach(l, ranges, havepackets);
      }
    }
    if forall l: seq<ServerFile> :: (forall f :: f in l ==> f in files) ==> Once(l, ranges, havepackets) {
      forall f | f in files
        ensures OneNews(ranges(f), havepackets)
      {
        assert Once([f], ranges, havepackets);
        OnceAlone(f, ranges, havepackets);
      }
    }
  }

  lemma OnceFromEach(l: seq<ServerFile>, ranges: Matcher, havepackets: set<nat>)
    requires forall f :: f in l ==> OneNews(ranges(f), havepackets)
    ensures Once(l, ranges, havepackets)
  {
    hide OnOffer, Packets, AllPackets;
    forall k, i, j | 0 <= k < |l| && 0 <= i < j < |ranges(l[k])|
      ensures !(Brings(l, ranges, havepackets, k, i) && Brings(l, ranges, havepackets, k, j))
    {
      var rs, seen := ranges(l[k]), havepackets + OnOffer(l[..k], ranges);
      assert l[k] in l && OneNews(rs, havepackets);
      assert Fresh(rs, i, seen) <= Fresh(rs, i, havepackets) && Fresh(rs, j, seen) <= Fresh(rs, j, havepackets);
    }
  }

  lemma OnceAlone(f: ServerFile, ranges: Matcher, havepackets: set<nat>)
    requires Once([f], ranges, havepackets)
    ensures OneNews(ranges(f), havepackets)
  {
    hide Fresh;
    var rs := ranges(f);
    assert [f][..0] == [] && havepackets + OnOffer([], ranges) == havepackets;
    forall i, j | 0 <= i < j < |rs|
      ensures Fresh(rs, i, havepackets) == {} || Fresh(rs, j, havepackets) == {}
    {
      assert !(Brings([f], ranges, havepackets, 0, i) && Brings([f], ranges, havepackets, 0, j));
    }
  }

  // A file from which one name reads packet 0 and another packet 5, when both are needed: it is listed
  // twice, and every choice that is enough has it queued twice.
  lemma ListedTwice(f: ServerFile, ranges: Matcher, chosen: set<int>)
    requires f.req < 1 && ranges(f) == [Range(0, 1), Range(5, 6)]
    ensures var a := Listing([1, 1], [1, 1], [0, 0], {0, 5});
      && Listed([f], ranges, {}, a) && !Once([f], ranges, {})
      && (Best(a, 2, chosen) ==> Picked([f], a.items, 2, chosen) == [f, f])
  {
    hide Entries, Once, Listed, OnOffer, Knapsack.Minimal;
    var a := Listing([1, 1], [1, 1], [0, 0], {0, 5});
    TwoRanges(f, ranges);
    ListedOnceIff([f], ranges, {}, a);
    assert !(a.items[0] < a.items[1]);
    if Best(a, 2, chosen) {
      BothNeeded(chosen);
      assert Picked([f], a.items, 1, chosen) == [f] && [f] + [f] == [f, f];
    }
  }

  lemma TwoNews(rs: seq<Range>)
    requires rs == [Range(0, 1), Range(5, 6)]
    ensures NewsOf(rs, 2, {}) == [News(1, 1), News(1, 1)] && AllPackets(rs) == {0, 5}
  {
    SinglePackets(0);
    SinglePackets(5);
    hide Packets;
    assert rs[..0] == [] && rs[..1] == [rs[0]] && [rs[0]][..0] == [] && AllPackets([]) == {};
    assert AllPackets([rs[0]]) == {0};
    assert AllPackets(rs) == AllPackets(rs[..1]) + {5};
    hide AllPackets;
    assert Fresh(rs, 0, {}) == {0} && Fresh(rs, 1, {}) == {5};
    hide Fresh;
    assert NewsOf(rs, 0, {}) == [] && NewsOf(rs, 1, {}) == [News(1, 1)];
  }

  lemma SinglePackets(p: nat)
    ensures Packets(p, p + 1) == {p}
  {
    assert Packets(p, p) == {};
  }

  lemma TwoRanges(f: ServerFile, ranges: Matcher)
    requires ranges(f) == [Range(0, 1), Range(5, 6)] && f.req < 1
    ensures Listed([f], ranges, {}, Listing([1, 1], [1, 1], [0, 0], {0, 5}))
  {
    hide AllPackets, NewsOf, Entries, OnOffer, Named, Lists, Weight, Knapsack.Sum;
    var a := Listing([1, 1], [1, 1], [0, 0], {0, 5});
    TwoNews(ranges(f));
    AloneOffers(f, ranges);
    EntriesMore([], f, ranges, {});
    assert [] + [f] == [f];
    NoEntriesYet(ranges);
    TwoLists(f, a);
    TwoOnes();
    assert {0, 5} - {} == {0, 5};
  }

  lemma AloneOffers(f: ServerFile, ranges: Matcher)
    ensures OnOffer([], ranges) == {} && OnOffer([f], ranges) == AllPackets(ranges(f))
  {
    hide AllPackets;
    assert [f][..0] == [];
  }

  lemma NoEntriesYet(ranges: Matcher)
    ensures Entries([], ranges, {}) == []
  {
  }

  lemma TwoLists(f: ServerFile, a: Listing)
    requires a == Listing([1, 1], [1, 1], [0, 0], {0, 5}) && f.req < 1
    ensures Lists([f], [] + Named(0, [News(1, 1), News(1, 1)]), a)
  {
    hide Named, Weight;
    NamedAt(0, [News(1, 1), News(1, 1)]);
    assert Weight(1, f) == 1;
  }

  lemma TwoOnes()
    ensures Knapsack.Sum([1, 1], 2) == 2 && |{0, 5}| == 2
  {
    assert Knapsack.Sum([1, 1], 1) == 1;
  }

  lemma BothNeeded(chosen: set<int>)
    requires Knapsack.Minimal([1, 1], [1, 1], 2, chosen)
    ensures 0 in chosen && 1 in chosen
  {
    assert Knapsack.Sum([1, 1], 1) == 1 && Knapsack.Sum([1, 1], 2) == 2;
    assert Knapsack.SumIn([1, 1], 0, chosen) == 0;
    assert Knapsack.SumIn([1, 1], 1, chosen) == if 0 in chosen then 1 else 0;
  }

  lemma SumMore(xs: seq<int>, x: int)
    ensures Knapsack.Sum(xs + [x], |xs| + 1) == Knapsack.Sum(xs, |xs|) + x
  {
    SumPrefix(xs, x, |xs|);
  }

  lemma {:induction false} SumPrefix(xs: seq<int>, x: int, n: nat)
    requires n <= |xs|
    ensures Knapsack.Sum(xs + [x], n) == Knapsack.Sum(xs, n)
  {
    if n > 0 { SumPrefix(xs, x, n - 1); }
  }

  // ---------- choosing ----------

  // The files of the chosen items, in order.
  function Picked(l: seq<ServerFile>, items: seq<nat>, n: nat, chosen: set<int>): seq<ServerFile>
    requires n <= |items| && forall k :: 0 <= k < |items| ==> items[k] < |l|
  {
    if n == 0 then []
    else Picked(l, items, n - 1, chosen) + (if n - 1 in chosen then [l[items[n - 1]]] else [])
  }

  // l without the elements at some positions.
  function Without(l: seq<ServerFile>, gone: set<nat>): seq<ServerFile> {
    if |l| == 0 then []
    else Without(l[..|l| - 1], gone) + (if |l| - 1 in gone then [] else [l[|l| - 1]])
  }

  lemma {:induction false} WithoutOne(l: seq<ServerFile>, gone: set<nat>, i: nat)
    requires i < |l| && i !in gone
    ensures multiset(Without(l, gone + {i})) + multiset{l[i]} == multiset(Without(l, gone))
  {
    hide Without;
    var n := |l| - 1;
    var m := gone + {i};
    if i < n {
      var front := l[..n];
      WithoutOne(front, gone, i);
      var x, last := front[i], if n in gone then [] else [l[n]];
      assert x == l[i];
      var a, b := Without(front, m), Without(front, gone);
      WithoutLast(l, gone, last);
      WithoutLast(l, m, last);
      SameTail(a, b, last, x);
    } else {
      WithoutBeyond(l[..n], gone, i);
      WithoutLast(l, gone, [l[n]]);
      WithoutLast(l, m, []);
      NoTail(Without(l[..n], gone), l[i]);
    }
  }

  lemma WithoutLast(l: seq<ServerFile>, gone: set<nat>, last: seq<ServerFile>)
    requires |l| > 0 && last == if |l| - 1 in gone then [] else [l[|l| - 1]]
    ensures Without(l, gone) == Without(l[..|l| - 1], gone) + last
  {
  }

  lemma NoTail(a: seq<ServerFile>, x: ServerFile)
    ensures a + [] == a && multiset(a) + multiset{x} == multiset(a + [x])
  {
  }

  lemma SameTail(a: seq<ServerFile>, b: seq<ServerFile>, tail: seq<ServerFile>, x: ServerFile)
    requires multiset(a) + multiset{x} == multiset(b)
    ensures multiset(a + tail) + multiset{x} == multiset(b + tail)
  {
  }

  lemma {:induction false} WithoutBeyond(l: seq<ServerFile>, gone: set<nat>, i: nat)
    requires i >= |l|
    ensures Without(l, gone + {i}) == Without(l, gone)
  {
    if |l| > 0 { WithoutBeyond(l[..|l| - 1], gone, i); }
  }

  lemma {:induction false} WithoutNone(l: seq<ServerFile>)
    ensures Without(l, {}) == l
  {
    if |l| > 0 {
      WithoutNone(l[..|l| - 1]);
      assert l == l[..|l| - 1] + [l[|l| - 1]];
    }
  }

  // A smallest set of the listed files that brings num new packets, or all when they do not.
  ghost predicate Best(a: Listing, num: nat, chosen: set<int>) {
    && |a.values| == |a.sizes| && Knapsack.Minimal(a.values, a.sizes, num, chosen)
    && (Knapsack.Sum(a.values, |a.values|) < num ==> forall k :: 0 <= k < |a.values| ==> k in chosen)
  }

  // Queue a smallest choice of recovery files.  Each file queued was still needed, and the sizes add
  // up to what the solver said.
  method QueueBest(num: nat, l: seq<ServerFile>, a: Listing, ghost ranges: Matcher, ghost havepackets: set<nat>, path: string, fc: FileQueue)
    returns (cur: nat, rest: seq<ServerFile>, ghost chosen: set<int>)
    requires ByDate(fc.files) && num > 0 && |l| <= Knapsack.INT_MAX && Listed(l, ranges, havepackets, a) && Increasing(a.items)
    modifies fc
    ensures ByDate(fc.files) && Best(a, num, chosen)
    ensures cur == Knapsack.SumIn(a.values, |a.values|, chosen)
    ensures var got := Picked(l, a.items, |a.items|, chosen);
      && FilesBag(fc.files) == FilesBag(old(fc.files)) + multiset(got)
      && |fc.files| == |old(fc.files)| + |got| && (cur == 0 <==> |got| == 0)
      && multiset(rest) + multiset(got) == multiset(l)
    ensures cur == 0 ==> rest == l
    ensures forall x :: x in fc.files ==> x in old(fc.files) || Ours(x, path)
  {
    hide ByDate, FilesBag, Without, Listed, Picked, Queueing, Knapsack.Minimal, Knapsack.Reaches, Knapsack.IsChoice;
    ListedFacts(l, ranges, havepackets, a);
    var n := |a.items|;
    var resultSize, results := Knapsack.MinSize(a.values, a.sizes, num);
    chosen := results;
    MinimalAll(a.values, a.sizes, num, results, resultSize);
    cur := 0;
    var gone: set<nat> := {};
    ghost var start := fc.files;
    QueueingStart(l, a, results, start, path);
    for k := 0 to n
      invariant ByDate(fc.files)
      invariant Queueing(l, a, k, results, cur, resultSize, gone, start, fc.files, path)
    {
      ghost var before := fc.files;
      if k in results {
        QueueingCur(l, a, k, results, cur, resultSize, gone, start, fc.files, path);
        Knapsack.MinimalPrefixShort(a.values, a.sizes, num, results, k);
        assert cur < num;
        fc.AddFile(l[a.items[k]], path, false);
        QueueingMore(l, a, k, results, cur, resultSize, gone, start, before, fc.files, path);
        cur := cur + a.values[k];
        gone := gone + {a.items[k]};
        resultSize := resultSize - a.sizes[k];
      } else {
        QueueingSame(l, a, k, results, cur, resultSize, gone, start, before, path);
      }
    }
    QueueingEnd(l, a, n, results, cur, resultSize, gone, start, fc.files, path);
    assert resultSize == 0;
    rest := Without(l, gone);
    WithoutNone(l);
  }

  // The first k items have been dealt with.
  ghost predicate Queueing(l: seq<ServerFile>, a: Listing, k: nat, chosen: set<int>, cur: int, size: int, gone: set<nat>,
                           start: seq<Queued>, now: seq<Queued>, path: string)
  {
    && k <= |a.items| == |a.values| == |a.sizes| && (forall j :: 0 <= j < |a.items| ==> a.items[j] < |l|)
    && cur == Knapsack.SumIn(a.values, k, chosen) && cur >= 0
    && size == Knapsack.SumIn(a.sizes, |a.sizes|, chosen) - Knapsack.SumIn(a.sizes, k, chosen)
    && (forall g :: g in gone ==> exists j :: 0 <= j < k && a.items[j] == g)
    && (forall x :: x in now ==> x in start || Ours(x, path))
    && var got := Picked(l, a.items, k, chosen);
    && FilesBag(now) == FilesBag(start) + multiset(got)
    && |now| == |start| + |got| && (cur == 0 <==> |got| == 0) && (cur == 0 ==> gone == {})
    && multiset(Without(l, gone)) + multiset(got) == multiset(l)
  }

  lemma QueueingStart(l: seq<ServerFile>, a: Listing, chosen: set<int>, start: seq<Queued>, path: string)
    requires |a.items| == |a.values| == |a.sizes| && forall j :: 0 <= j < |a.items| ==> a.items[j] < |l|
    ensures Queueing(l, a, 0, chosen, 0, Knapsack.SumIn(a.sizes, |a.sizes|, chosen), {}, start, start, path)
  {
    WithoutNone(l);
  }

  lemma QueueingCur(l: seq<ServerFile>, a: Listing, k: nat, chosen: set<int>, cur: int, size: int, gone: set<nat>,
                    start: seq<Queued>, now: seq<Queued>, path: string)
    requires Queueing(l, a, k, chosen, cur, size, gone, start, now, path)
    ensures |a.items| == |a.values| == |a.sizes| && k <= |a.values| && cur == Knapsack.SumIn(a.values, k, chosen) && cur >= 0
  {
  }

  lemma QueueingSame(l: seq<ServerFile>, a: Listing, k: nat, chosen: set<int>, cur: int, size: int, gone: set<nat>,
                     start: seq<Queued>, now: seq<Queued>, path: string)
    requires Queueing(l, a, k, chosen, cur, size, gone, start, now, path) && k < |a.items| && k !in chosen
    ensures Queueing(l, a, k + 1, chosen, cur, size, gone, start, now, path)
  {
    hide FilesBag, Without;
    assert Picked(l, a.items, k + 1, chosen) == Picked(l, a.items, k, chosen);
  }

  lemma QueueingMore(l: seq<ServerFile>, a: Listing, k: nat, chosen: set<int>, cur: int, size: int, gone: set<nat>,
                     start: seq<Queued>, before: seq<Queued>, now: seq<Queued>, path: string)
    requires Queueing(l, a, k, chosen, cur, size, gone, start, before, path) && k < |a.items| && k in chosen
    requires a.values[k] > 0 && forall i, j :: 0 <= i < j < |a.items| ==> a.items[i] < a.items[j]
    requires multiset(now) == multiset(before) + multiset{Queued(path, l[a.items[k]], false)} && |now| == |before| + 1
    requires FilesBag(now) == FilesBag(before) + multiset{l[a.items[k]]}
    ensures Queueing(l, a, k + 1, chosen, cur + a.values[k], size - a.sizes[k], gone + {a.items[k]}, start, now, path)
  {
    hide FilesBag, Without;
    var f := l[a.items[k]];
    AddedIn(before, Queued(path, f, false), now);
    WithoutOne(l, gone, a.items[k]);
    assert Picked(l, a.items, k + 1, chosen) == Picked(l, a.items, k, chosen) + [f];
    var g2 := gone + {a.items[k]};
    forall g | g in g2
      ensures exists j :: 0 <= j < k + 1 && a.items[j] == g
    {
      if g == a.items[k] { assert a.items[k] == g; }
    }
    hide Picked;
    BagMoved(multiset(Without(l, g2)), multiset(Without(l, gone)), multiset(Picked(l, a.items, k, chosen)), f, multiset(l));
  }

  lemma QueueingEnd(l: seq<ServerFile>, a: Listing, k: nat, chosen: set<int>, cur: int, size: int, gone: set<nat>,
                    start: seq<Queued>, now: seq<Queued>, path: string)
    requires Queueing(l, a, k, chosen, cur, size, gone, start, now, path) && k == |a.items|
    ensures size == 0 && cur == Knapsack.SumIn(a.values, |a.values|, chosen) && cur >= 0
    ensures var got := Picked(l, a.items, |a.items|, chosen);
      && FilesBag(now) == FilesBag(start) + multiset(got)
      && |now| == |start| + |got| && (cur == 0 <==> |got| == 0)
      && multiset(Without(l, gone)) + multiset(got) == multiset(l)
    ensures forall x :: x in now ==> x in start || Ours(x, path)
    ensures cur == 0 ==> gone == {}
  {
  }

  lemma ListedFacts(l: seq<ServerFile>, ranges: Matcher, havepackets: set<nat>, a: Listing)
    requires Listed(l, ranges, havepackets, a)
    ensures |a.sizes| == |a.values| == |a.items|
    ensures forall k :: 0 <= k < |a.items| ==> a.items[k] < |l| && a.values[k] > 0 && a.sizes[k] > 0
    ensures Increasing(a.items) ==> |a.items| <= |l|
  {
    hide Entries;
    if Increasing(a.items) { IncreasingShort(a.items, |a.items|, |l|); }
  }

  lemma {:induction false} IncreasingShort(items: seq<nat>, n: nat, bound: nat)
    requires n <= |items| && forall i, j :: 0 <= i < j < n ==> items[i] < items[j]
    requires forall k :: 0 <= k < n ==> items[k] < bound
    ensures n <= bound
  {
    if n > 0 { IncreasingShort(items, n - 1, items[n - 1]); }
  }

  lemma MinimalAll(values: seq<int>, sizes: seq<int>, want: int, result: set<int>, size: int)
    requires |values| == |sizes| && Knapsack.IsChoice(result, |values|) && size == Knapsack.SumIn(sizes, |sizes|, result)
    requires Knapsack.Sum(values, |values|) >= want ==> Knapsack.Reaches(values, result, want)
    requires forall s :: Knapsack.Reaches(values, s, want) ==> size <= Knapsack.SumIn(sizes, |sizes|, s)
    requires Knapsack.Sum(values, |values|) < want ==> result == Knapsack.Complement({}, |values|)
    ensures Knapsack.Minimal(values, sizes, want, result)
    ensures Knapsack.Sum(values, |values|) < want ==> forall k :: 0 <= k < |values| ==> k in result
  {
  }

  // Files with data blocks, from the front of the list, up to num blocks or to the end.
  ghost predicate FromExtra(num: nat, extra: seq<ServerFile>, blocks: Estimate, r: nat, got: seq<ServerFile>) {
    && r == AllBlocks(got, blocks) && r > 0 && |got| > 0 && got <= Useful(extra, blocks)
    && AllBlocks(got[..|got| - 1], blocks) < num && (r < num ==> got == Useful(extra, blocks))
  }

  // What one request for recovery packets queued.  When too few packets are on offer: incomplete files with
  // data blocks, if there are any (and, for the optimistic, enough); for the optimistic otherwise nothing.
  // In all other cases a smallest choice of recovery files.
  ghost predicate Request(num: nat, pxxs: seq<ServerFile>, extra: seq<ServerFile>, ranges: Matcher, havepackets: set<nat>,
                          blocks: Estimate, optimistic: bool, r: nat, got: seq<ServerFile>, a: Listing, chosen: set<int>)
  {
    var avail := |OnOffer(pxxs, ranges) - havepackets|;
    if avail < num && (if optimistic then AllBlocks(Useful(extra, blocks), blocks) >= num - avail else |Useful(extra, blocks)| > 0) then
      FromExtra(num - avail, extra, blocks, r, got) && (optimistic ==> r >= num - avail)
    else if avail < num && optimistic then r == 0 && got == []
    else Recovered(num, pxxs, ranges, havepackets, r, got, a, chosen)
  }

  // When nothing is queued, and not for being optimistic, nothing on offer would bring anything.
  lemma NoPackets(num: nat, pxxs: seq<ServerFile>, extra: seq<ServerFile>, ranges: Matcher, havepackets: set<nat>,
                  blocks: Estimate, got: seq<ServerFile>, a: Listing, chosen: set<int>)
    requires Request(num, pxxs, extra, ranges, havepackets, blocks, false, 0, got, a, chosen) && num > 0
    ensures OnOffer(pxxs, ranges) <= havepackets && Useful(extra, blocks) == []
  {
    hide OnOffer, Useful, AllBlocks, Best, Listed, Picked, Entries;
    var avail := |OnOffer(pxxs, ranges) - havepackets|;
    assert !(avail < num && |Useful(extra, blocks)| > 0);
    NothingChosen(num, pxxs, ranges, havepackets, a, chosen);
    assert OnOffer(pxxs, ranges) - havepackets == {};
  }

  // A choice of no value is no choice, and made only when there is nothing to choose from.
  lemma NothingChosen(num: nat, l: seq<ServerFile>, ranges: Matcher, havepackets: set<nat>, a: Listing, chosen: set<int>)
    requires Listed(l, ranges, havepackets, a) && Best(a, num, chosen) && num > 0
    requires Knapsack.SumIn(a.values, |a.values|, chosen) == 0
    ensures OnOffer(l, ranges) <= havepackets
  {
    hide OnOffer, Entries, Knapsack.SumIn, Knapsack.Sum;
    ListedFacts(l, ranges, havepackets, a);
    if |a.values| > 0 {
      assert Knapsack.Sum(a.values, |a.values|) < num;
      Knapsack.SumInMonotone(a.values, |a.values|, {0}, chosen);
      OnlyFirst(a.values, |a.values|);
      assert false;
    }
    NoEntriesNoOffer(l, ranges, havepackets);
  }

  lemma {:induction false} OnlyFirst(xs: seq<int>, n: nat)
    requires 0 < n <= |xs|
    ensures Knapsack.SumIn(xs, n, {0}) == xs[0]
  {
    if n > 1 { OnlyFirst(xs, n - 1); } else { assert Knapsack.SumIn(xs, 0, {0}) == 0; }
  }

  lemma {:induction false} NoEntriesNoOffer(l: seq<ServerFile>, ranges: Matcher, havepackets: set<nat>)
    requires Entries(l, ranges, havepackets) == []
    ensures OnOffer(l, ranges) <= havepackets
  {
    hide AllPackets, NewsOf;
    if |l| > 0 {
      var n := |l| - 1;
      NamedAt(n, FileNews(l, n, ranges, havepackets));
      NoEntriesNoOffer(l[..n], ranges, havepackets);
      NoNewsNoPackets(ranges(l[n]), |ranges(l[n])|, havepackets + OnOffer(l[..n], ranges));
      assert ranges(l[n])[..|ranges(l[n])|] == ranges(l[n]);
    }
  }

  lemma {:induction false} NoNewsNoPackets(rs: seq<Range>, n: nat, seen: set<nat>)
    requires n <= |rs| && NewsOf(rs, n, seen) == []
    ensures AllPackets(rs[..n]) <= seen
  {
    hide Packets;
    if n > 0 {
      NoNewsNoPackets(rs, n - 1, seen);
      assert rs[..n][..n - 1] == rs[..n - 1];
      assert Fresh(rs, n - 1, seen) == {};
    }
  }

  ghost predicate Recovered(num: nat, pxxs: seq<ServerFile>, ranges: Matcher, havepackets: set<nat>,
                            r: nat, got: seq<ServerFile>, a: Listing, chosen: set<int>)
  {
    && Listed(pxxs, ranges, havepackets, a) && Best(a, num, chosen)
    && (forall k :: 0 <= k < |a.items| ==> a.items[k] < |pxxs|)
    && got == Picked(pxxs, a.items, |a.items|, chosen) && r == Knapsack.SumIn(a.values, |a.values|, chosen)
  }

  // Files only move from the lists to the queue; nothing is queued exactly when 0 is returned.
  method GetRecoveryPackets(num: nat, havepackets: set<nat>, ranges: Matcher, blocks: Estimate, optimistic: bool,
                            serverpxxs: seq<ServerFile>, serverextradata: seq<ServerFile>, path: string, fc: FileQueue)
    returns (r: nat, pxxs: seq<ServerFile>, extra: seq<ServerFile>, ghost got: seq<ServerFile>, ghost a: Listing, ghost chosen: set<int>)
    requires ByDate(fc.files) && num > 0 && |serverpxxs| <= Knapsack.INT_MAX
    requires Once(serverpxxs, ranges, havepackets)
    modifies fc
    ensures ByDate(fc.files) && FilesBag(fc.files) == FilesBag(old(fc.files)) + multiset(got)
    ensures multiset(pxxs) + multiset(extra) + multiset(got) == multiset(serverpxxs) + multiset(serverextradata)
    ensures |pxxs| <= |serverpxxs| && multiset(pxxs) <= multiset(serverpxxs)
    ensures |fc.files| == |old(fc.files)| + |got| && (r == 0 <==> |got| == 0)
    ensures forall x :: x in fc.files ==> x in old(fc.files) || Ours(x, path)
    ensures Request(num, serverpxxs, serverextradata, ranges, havepackets, blocks, optimistic, r, got, a, chosen)
    ensures r == 0 ==> pxxs == serverpxxs && extra == serverextradata
  {
    hide ByDate, FilesBag, Listed, Best, Useful, AllBlocks, OnOffer, Picked, Once, Increasing, Request, Recovered, FromExtra;
    pxxs, extra, chosen := serverpxxs, serverextradata, {};
    var listing := ListItems(serverpxxs, ranges, havepackets);
    a := listing;
    ListedFacts(serverpxxs, ranges, havepackets, a);
    ListedOnceIff(serverpxxs, ranges, havepackets, a);
    AvailIs(serverpxxs, ranges, havepackets, a);
    if |listing.avail| < num {
      var rest;
      r, rest, got := GetExtradata(num - |listing.avail|, blocks, optimistic, serverextradata, path, fc);
      if r > 0 {
        ExtraRequest(num, serverpxxs, serverextradata, ranges, havepackets, blocks, optimistic, r, got, a, chosen);
        extra := rest;
        return;
      }
    }
    if optimistic && |listing.avail| < num {
      r, got := 0, [];
      NoRequest(num, serverpxxs, serverextradata, ranges, havepackets, blocks, a, chosen);
      return;
    }
    r, pxxs, chosen := QueueBest(num, serverpxxs, listing, ranges, havepackets, path, fc);
    FewerLeft(pxxs, Picked(serverpxxs, a.items, |a.items|, chosen), serverpxxs);
    got := Picked(serverpxxs, a.items, |a.items|, chosen);
    BestRequest(num, serverpxxs, serverextradata, ranges, havepackets, blocks, optimistic, r, got, a, chosen);
  }

  lemma ExtraRequest(num: nat, pxxs: seq<ServerFile>, extra: seq<ServerFile>, ranges: Matcher, havepackets: set<nat>,
                     blocks: Estimate, optimistic: bool, r: nat, got: seq<ServerFile>, a: Listing, chosen: set<int>)
    requires |OnOffer(pxxs, ranges) - havepackets| < num && r > 0
    requires var n := num - |OnOffer(pxxs, ranges) - havepackets|;
      && r == AllBlocks(got, blocks) && |got| > 0 && got <= Useful(extra, blocks)
      && AllBlocks(got[..|got| - 1], blocks) < n
      && (optimistic ==> r >= n && AllBlocks(Useful(extra, blocks), blocks) >= n)
      && (!optimistic && r < n ==> got == Useful(extra, blocks))
    ensures Request(num, pxxs, extra, ranges, havepackets, blocks, optimistic, r, got, a, chosen)
  {
    hide OnOffer, Useful, AllBlocks;
  }

  lemma NoRequest(num: nat, pxxs: seq<ServerFile>, extra: seq<ServerFile>, ranges: Matcher, havepackets: set<nat>,
                  blocks: Estimate, a: Listing, chosen: set<int>)
    requires |OnOffer(pxxs, ranges) - havepackets| < num
    requires AllBlocks(Useful(extra, blocks), blocks) < num - |OnOffer(pxxs, ranges) - havepackets|
    ensures Request(num, pxxs, extra, ranges, havepackets, blocks, true, 0, [], a, chosen)
  {
    hide OnOffer, Useful, AllBlocks;
  }

  lemma BestRequest(num: nat, pxxs: seq<ServerFile>, extra: seq<ServerFile>, ranges: Matcher, havepackets: set<nat>,
                    blocks: Estimate, optimistic: bool, r: nat, got: seq<ServerFile>, a: Listing, chosen: set<int>)
    requires |OnOffer(pxxs, ranges) - havepackets| < num ==> !optimistic && |Useful(extra, blocks)| == 0
    requires Listed(pxxs, ranges, havepackets, a) && Best(a, num, chosen)
    requires forall k :: 0 <= k < |a.items| ==> a.items[k] < |pxxs|
    requires got == Picked(pxxs, a.items, |a.items|, chosen) && r == Knapsack.SumIn(a.values, |a.values|, chosen)
    ensures Request(num, pxxs, extra, ranges, havepackets, blocks, optimistic, r, got, a, chosen)
  {
    hide OnOffer, Useful, AllBlocks, Listed, Best, Picked;
  }

  lemma FewerLeft(rest: seq<ServerFile>, got: seq<ServerFile>, l: seq<ServerFile>)
    requires multiset(rest) + multiset(got) == multiset(l)
    ensures |rest| + |got| == |l|
  {
    assert |multiset(rest) + multiset(got)| == |rest| + |got|;
    assert |multiset(l)| == |l|;
  }

  lemma AvailIs(l: seq<ServerFile>, ranges: Matcher, havepackets: set<nat>, a: Listing)
    requires Listed(l, ranges, havepackets, a)
    ensures a.avail == OnOffer(l, ranges) - havepackets
  {
    hide Entries;
  }

  // When enough packets are on offer and no file is incomplete, enough are fetched.
  lemma EnoughFetched(num: nat, l: seq<ServerFile>, ranges: Matcher, havepackets: set<nat>, a: Listing, chosen: set<int>)
    requires Listed(l, ranges, havepackets, a) && Best(a, num, chosen)
    requires AllComplete(l) && |OnOffer(l, ranges) - havepackets| >= num
    ensures Knapsack.SumIn(a.values, |a.values|, chosen) >= num
  {
    hide OnOffer, Knapsack.SumIn, Entries;
  }
}
