// Which article numbers a header update asks the server for, given what the cache already holds.
module UpdatePlan {
  import opened Common
  import opened CacheFiles
  import opened Cache
  import R = NRange

  const INT_MAX: int := 0x7fff_ffff

  // The lowest number wanted when only the newest maxheaders headers are (-1 for no limit).
  function LimitedLow(low: nat, high: nat, maxheaders: int): int {
    if maxheaders != -1 && high >= maxheaders && low < high - maxheaders + 1 then high - maxheaders + 1 else low
  }

  // A limit leaves the newest maxheaders numbers, or all if there are fewer; that is something to ask for
  // exactly when the limit is not zero.  With zero the low end is one above the high end.
  lemma LimitKeepsOrder(low: nat, high: nat, maxheaders: int)
    requires 1 <= low <= high && -1 <= maxheaders
    ensures maxheaders == -1 ==> LimitedLow(low, high, maxheaders) == low
    ensures maxheaders >= 0 ==> LimitedLow(low, high, maxheaders) >= low
    ensures maxheaders >= 0 ==>
      high - LimitedLow(low, high, maxheaders) + 1 == (if maxheaders < high - low + 1 then maxheaders else high - low + 1)
    ensures LimitedLow(low, high, maxheaders) <= high <==> maxheaders != 0
    ensures maxheaders == 0 ==> LimitedLow(low, high, maxheaders) == high + 1
  {
  }

  // An update inserts proper ranges only, unless the limit is zero and it goes neither by the server's list
  // nor by the numbers seen so far.
  predicate AsksProperly(info: ServerInfo, fullxover: int, low: nat, maxheaders: int) {
    UsesList(info, fullxover, low) || maxheaders != 0 || (fullxover == 0 && info.high != 0)
  }

  // The update of one group from one server.  listed is what the server's list of article numbers
  // says.  Returned is the set of numbers asked for.
  //
  // Nothing that is held is asked for.  With the list (fullxover 2, once something is cached), what
  // is asked for is the list, clipped to the limit, less what is held.  With fullxover 1 it is
  // everything from the lower of the two low ends less what is held; with fullxover 0, what lies above and
  // below the numbers seen so far, which may reach beyond `high` when all of these lie above it.
  // What is flushed before is what the clipped list does not have, or what lies below the low end.
  // What is asked for is a proper set exactly when AsksProperly says so; otherwise it is the single
  // range from high + 1 down to high.
  method PlanUpdate(cache: NntpCache, sid: nat, fullxover: int, low0: nat, high: nat, maxheaders: int, listed: seq<nat>)
    returns (asked: R.RList, ghost existing: R.RList)
    requires cache.Valid() && sid in cache.serverInfo
    requires 1 <= low0 <= high <= MAX_ARTICLE
    requires -1 <= maxheaders <= INT_MAX
    requires forall k :: 0 <= k < |listed| ==> 1 <= listed[k] <= MAX_ARTICLE
    modifies cache
    ensures cache.Valid() && sid in cache.serverInfo
    ensures R.Canonical(asked) <==> old(AsksProperly(cache.serverInfo[sid], fullxover, low0, maxheaders))
    ensures !R.Canonical(asked) ==> asked == map[high := high + 1]
    ensures forall x: nat :: R.Mem(asked, x) ==> !Holds(Items(cache.files), sid, x)
    ensures var info := old(cache.serverInfo[sid]);
      var list := fullxover == 2 && info.high != 0 && low0 <= info.high;
      var low := LimitedLow(low0, high, maxheaders);
      && (list ==>
           && (forall x: nat :: R.Mem(asked, x) <==> R.Mem(existing, x) && !Holds(Items(cache.files), sid, x))
           && (forall item :: item in Items(cache.files) <==>
                 item in old(Items(cache.files)) && (item.article.serverid != sid || R.Mem(existing, item.article.articlenum)))
           && NewestOf(listed, existing, maxheaders))
      && (!list ==>
           && cache.serverInfo[sid].low == (if low > info.low then low else info.low)
           && forall item :: item in Items(cache.files) <==>
                item in old(Items(cache.files)) && !(item.article.serverid == sid && item.article.articlenum < low))
      && (!list && fullxover != 0 ==>
           forall x: nat :: R.Mem(asked, x) <==>
             (if low < cache.serverInfo[sid].low then low else cache.serverInfo[sid].low) <= x <= high && !Holds(Items(cache.files), sid, x))
      && (!list && fullxover == 0 ==>
           forall x: nat :: R.Mem(asked, x) <==>
             if info.high == 0 then low <= x <= high else info.high < x <= high || low <= x < cache.serverInfo[sid].low)
  {
    hide R.Canonical, Items, InfosOk, CacheFiles.FilesOk, CacheFiles.FilesSorted, CacheFiles.TotalParts, NewestOf, Holds, KeepItems;
    var info := cache.serverInfo[sid];
    existing := map[];
    if UsesList(info, fullxover, low0) {
      ghost var cut;
      asked, existing, cut := PlanFromList(cache, sid, low0, maxheaders, listed);
    } else {
      LimitKeepsOrder(low0, high, maxheaders);
      var low := LimitedLow(low0, high, maxheaders);
      SaneInfo(cache, sid);
      NoneBelow(Items(cache.files), sid, info.low);
      if low > cache.serverInfo[sid].low {
        var count;
        ghost var cut;
        count, cut := cache.FlushLow(sid, low);
      }
      var r := new R.Ranges();
      if fullxover != 0 {
        SaneInfo(cache, sid);
        cache.GetXRangeFrom(sid, low, high, r);
      } else {
        PlanByEnds(cache, sid, low, high, r);
      }
      asked := r.rlist;
      if asked == map[high := high + 1] { NotProper(asked, high); }
    }
  }

  // The server's list is asked for only when something cached may still exist there.
  predicate UsesList(info: ServerInfo, fullxover: int, low: nat) {
    info.high != 0 && info.high >= low && fullxover == 2
  }

  lemma SaneInfo(cache: NntpCache, sid: nat)
    requires cache.Valid() && sid in cache.serverInfo
    ensures 1 <= cache.serverInfo[sid].low <= R.MAX && cache.serverInfo[sid].high < R.MAX
    ensures forall x: nat :: Holds(Items(cache.files), sid, x) ==>
              1 <= x && cache.serverInfo[sid].low <= x <= cache.serverInfo[sid].high
  {
    hide Items;
    assert InfoOk(cache.serverInfo[sid], Items(cache.files), sid);
    forall x: nat | Holds(Items(cache.files), sid, x)
      ensures 1 <= x && cache.serverInfo[sid].low <= x <= cache.serverInfo[sid].high
    {
      var item :| item in Items(cache.files) && item.article.serverid == sid && item.article.articlenum == x;
      assert Within(cache.serverInfo, item.article);
    }
  }

  lemma NoneBelow(items: seq<Item>, sid: nat, low: nat)
    requires forall x: nat :: Holds(items, sid, x) ==> low <= x
    ensures forall item :: item in items && item.article.serverid == sid ==> low <= item.article.articlenum
  {
    forall item | item in items && item.article.serverid == sid
      ensures low <= item.article.articlenum
    {
      assert Holds(items, sid, item.article.articlenum);
    }
  }

  // Ask for what lies above and below the numbers seen so far.
  method PlanByEnds(cache: NntpCache, sid: nat, low: nat, high: nat, r: R.Ranges)
    requires cache.Valid() && sid in cache.serverInfo && low <= high + 1 <= MAX_ARTICLE + 1
    requires r.rlist == map[]
    modifies r
    ensures if low <= high || cache.serverInfo[sid].high != 0 then R.Canonical(r.rlist) else r.rlist == map[high := high + 1]
    ensures var info := cache.serverInfo[sid];
      forall x: nat :: R.Mem(r.rlist, x) <==>
        (info.high == 0 && low <= x <= high) || (info.high != 0 && (info.high < x <= high || low <= x < info.low))
    ensures forall x: nat :: R.Mem(r.rlist, x) ==> !Holds(Items(cache.files), sid, x)
  {
    hide R.Canonical, R.Mem, Items, Holds;
    SaneInfo(cache, sid);
    NothingYet();
    var info := cache.serverInfo[sid];
    if info.high == 0 {
      r.Insert(low, high);
      NoneAtOrAbove(high);
      if low > high { NotProper(r.rlist, high); }
    } else {
      if info.high < high {
        r.Insert(info.high + 1, high);
      }
      if info.low > low {
        r.Insert(low, info.low - 1);
      }
    }
  }

  lemma NoneAtOrAbove(high: nat)
    ensures R.Backwards(map[], high) == map[high := high + 1]
  {
    assert R.LowerBound(map[], high).None?;
  }

  // existing is the list, or its newest maxheaders numbers if there are more.
  ghost predicate NewestOf(listed: seq<nat>, existing: R.RList, maxheaders: int) {
    exists all: R.RList :: Lists(listed, all) && if maxheaders == -1 then existing == all else maxheaders >= 0 && R.KeepsLargest(all, existing, maxheaders)
  }

  ghost predicate Lists(listed: seq<nat>, all: R.RList) {
    R.Canonical(all) && forall x: nat :: R.Mem(all, x) <==> x in listed
  }

  // dolistgroup
  method ReadList(listed: seq<nat>, existing: R.Ranges)
    requires existing.rlist == map[]
    requires forall k :: 0 <= k < |listed| ==> 1 <= listed[k] <= MAX_ARTICLE
    modifies existing
    ensures Lists(listed, existing.rlist)
  {
    NothingYet();
    for k := 0 to |listed|
      invariant Lists(listed[..k], existing.rlist)
    {
      existing.InsertOne(listed[k]);
      assert listed[..k + 1] == listed[..k] + [listed[k]];
    }
    assert listed[..|listed|] == listed;
  }

  // The path that goes by the server's list.
  method PlanFromList(cache: NntpCache, sid: nat, low: nat, maxheaders: int, listed: seq<nat>)
    returns (asked: R.RList, ghost list: R.RList, ghost cut: R.RList)
    requires cache.Valid() && sid in cache.serverInfo && 1 <= low <= MAX_ARTICLE
    requires -1 <= maxheaders <= INT_MAX
    requires forall k :: 0 <= k < |listed| ==> 1 <= listed[k] <= MAX_ARTICLE
    modifies cache
    ensures cache.Valid() && sid in cache.serverInfo && R.Canonical(asked)
    ensures NewestOf(listed, list, maxheaders)
    ensures forall x: nat :: R.Mem(asked, x) <==> R.Mem(list, x) && !Holds(Items(cache.files), sid, x)
    ensures forall item :: item in Items(cache.files) <==>
      item in old(Items(cache.files)) && (item.article.serverid != sid || R.Mem(list, item.article.articlenum))
    ensures var info := old(cache.serverInfo[sid]); forall x: nat :: R.Mem(cut, x) <==> info.low <= x <= info.high && !R.Mem(list, x)
    ensures var lowest := cache.serverInfo[sid].low;
      (R.Mem(list, lowest) && forall x: nat :: R.Mem(list, x) ==> lowest <= x) || (lowest == low && forall x: nat :: !R.Mem(list, x))
  {
    hide R.Canonical, R.Mem, Items, InfosOk, CacheFiles.FilesOk, CacheFiles.FilesSorted, CacheFiles.TotalParts, Holds, KeepItems, Lists, NewestOf, ExactCut, R.Reaching;
    ghost var items, infos := Items(cache.files), cache.serverInfo;
    var existing := new R.Ranges();
    ReadList(listed, existing);
    ghost var all := existing.rlist;
    ListFits(listed, all, maxheaders);
    if maxheaders != -1 {
      existing.ClipToMaxTotal(maxheaders);
    }
    ListClipped(listed, all, existing.rlist, maxheaders);
    list := existing.rlist;
    var nonexistant := new R.Ranges();
    NothingYet();
    nonexistant.Invert(existing);
    RestReaches(list, nonexistant.rlist);
    SaneInfo(cache, sid);
    var count, gone;
    count, gone, cut := cache.Flush(sid, nonexistant.rlist);
    CutIs(nonexistant.rlist, cut, list, infos[sid]);
    var lowest := existing.Low();
    var info := cache.serverInfo[sid];
    LeftInList(items, infos, sid, list, nonexistant.rlist, lowest, low, info);
    cache.serverInfo := cache.serverInfo[sid := info.(low := if lowest.None? then low else lowest.value)];
    assert cache.serverInfo == infos[sid := info.(low := if lowest.None? then low else lowest.value)];
    var r := new R.Ranges.Copy(existing);
    NumbersFit(cache.serverInfo, Items(cache.files));
    cache.GetXRange(sid, r);
    asked := r.rlist;
    NumbersFit(infos, items);
    OnlyListed(items, sid, list, nonexistant.rlist);
  }

  lemma ListFits(listed: seq<nat>, all: R.RList, maxheaders: int)
    requires Lists(listed, all) && forall k :: 0 <= k < |listed| ==> 1 <= listed[k] <= MAX_ARTICLE
    requires maxheaders >= -1
    ensures R.Canonical(all) && (maxheaders >= 0 ==> R.Clippable(all, maxheaders))
  {
    assert !R.Mem(all, 0);
  }

  lemma ListClipped(listed: seq<nat>, all: R.RList, list: R.RList, maxheaders: int)
    requires Lists(listed, all) && forall k :: 0 <= k < |listed| ==> 1 <= listed[k] <= MAX_ARTICLE
    requires if maxheaders == -1 then list == all else maxheaders >= 0 && R.KeepsLargest(all, list, maxheaders)
    ensures NewestOf(listed, list, maxheaders)
    ensures forall x: nat :: R.Mem(list, x) ==> 1 <= x <= MAX_ARTICLE
  {
    hide R.Mem, R.CountFrom;
    if maxheaders != -1 {
      var cut: nat :| R.KeepsFrom(all, list, cut) && R.CountFrom(all, cut) == if maxheaders < R.CountFrom(all, 0) then maxheaders else R.CountFrom(all, 0);
    }
  }

  // After flushing what the list does not hold, the lowest number listed is a lower end.
  lemma LeftInList(items: seq<Item>, infos: map<nat, ServerInfo>, sid: nat, list: R.RList, rest: R.RList,
                   lowest: Option<nat>, low: nat, info: ServerInfo)
    requires sid in infos && InfosOk(infos, items) && R.Canonical(rest) && R.Canonical(list)
    requires forall x: nat :: R.Mem(rest, x) <==> x <= R.MAX && !R.Mem(list, x)
    requires forall x: nat :: R.Mem(list, x) ==> 1 <= x <= MAX_ARTICLE
    requires lowest.None? ==> forall x: nat :: !R.Mem(list, x)
    requires lowest.Some? ==> R.Mem(list, lowest.value) && forall x: nat :: R.Mem(list, x) ==> lowest.value <= x
    requires 1 <= low <= MAX_ARTICLE
    requires info == infos[sid].(num := info.num)
    requires InfosOk(infos[sid := info], KeepItems(items, sid, rest))
    ensures InfosOk(infos[sid := info.(low := if lowest.None? then low else lowest.value)], KeepItems(items, sid, rest))
  {
    hide R.Mem, R.Canonical, KeepItems;
    var kept := KeepItems(items, sid, rest);
    var infos1, infos2 := infos[sid := info], infos[sid := info.(low := if lowest.None? then low else lowest.value)];
    forall s | s in infos2
      ensures InfoOk(infos2[s], kept, s)
    {
      assert InfoOk(infos1[s], kept, s);
    }
    forall item | item in kept
      ensures Within(infos2, item.article)
    {
      assert Within(infos1, item.article);
      assert InfoOk(infos1[item.article.serverid], kept, item.article.serverid);
      FlushComplete(items, sid, rest, item);
    }
  }

  // Of the server's articles, exactly those on the list are not flushed.
  lemma OnlyListed(items: seq<Item>, sid: nat, list: R.RList, rest: R.RList)
    requires R.Canonical(rest) && forall item :: item in items ==> item.article.articlenum <= R.MAX
    requires forall x: nat :: R.Mem(rest, x) <==> x <= R.MAX && !R.Mem(list, x)
    ensures forall item :: item in KeepItems(items, sid, rest) <==>
      item in items && (item.article.serverid != sid || R.Mem(list, item.article.articlenum))
  {
    hide R.Mem, R.Canonical, KeepItems;
    forall item
      ensures item in KeepItems(items, sid, rest) <==>
        item in items && (item.article.serverid != sid || R.Mem(list, item.article.articlenum))
    {
      FlushComplete(items, sid, rest, item);
    }
  }

  // What the list does not hold reaches up to the last number, so a flush cuts it down exactly.
  lemma RestReaches(list: R.RList, rest: R.RList)
    requires forall x: nat :: R.Mem(rest, x) <==> x <= R.MAX && !R.Mem(list, x)
    requires forall x: nat :: R.Mem(list, x) ==> 1 <= x <= MAX_ARTICLE
    ensures R.Reaching(rest)
  {
    hide R.Mem;
  }

  lemma CutIs(rest: R.RList, cut: R.RList, list: R.RList, info: ServerInfo)
    requires ExactCut(rest, cut, info) && info.high < R.MAX
    requires forall x: nat :: R.Mem(rest, x) <==> x <= R.MAX && !R.Mem(list, x)
    ensures forall x: nat :: R.Mem(cut, x) <==> info.low <= x <= info.high && !R.Mem(list, x)
  {
    hide R.Mem;
  }
}
