// A set of unsigned longs kept as ranges: a map from the high end of each range to its low end.
module NRange {
  import opened Common

  const MAX: nat := 0xffff_ffff_ffff_ffff   // ULONG_MAX
  const WRAP: nat := MAX + 1

  type Ulong = n: nat | n <= MAX

  type RList = map<nat, nat>

  // ---------- what a list of ranges means ----------

  // n lies in one of the ranges.
  ghost predicate Mem(m: RList, n: int) {
    exists k :: k in m && m[k] <= n <= k
  }

  // The ranges are proper, disjoint, and do not touch.
  ghost predicate Canonical(m: RList) {
    && (forall k :: k in m ==> m[k] <= k <= MAX)
    && (forall a, b :: a in m && b in m && a < b ==> a + 1 < m[b])
  }

  // Equal sets have equal lists, so comparing lists compares sets.
  lemma EqualSetsEqualLists(a: RList, b: RList)
    requires Canonical(a) && Canonical(b)
    ensures a == b <==> forall n: nat :: Mem(a, n) <==> Mem(b, n)
  {
    if forall n: nat :: Mem(a, n) <==> Mem(b, n) {
      forall k | k in a
        ensures k in b && b[k] == a[k]
      {
        SameRange(a, b, k);
      }
      forall k | k in b
        ensures k in a
      {
        SameRange(b, a, k);
      }
      assert a.Keys == b.Keys;
    }
  }

  lemma SameRange(a: RList, b: RList, k: nat)
    requires Canonical(a) && Canonical(b) && k in a
    requires forall n: nat :: Mem(a, n) <==> Mem(b, n)
    ensures k in b && b[k] == a[k]
  {
    assert Mem(a, k) && Mem(a, a[k]);
    OutsideRange(a, k);
    assert Mem(b, k) && !Mem(b, k + 1);
    var k' :| k' in b && b[k'] <= k <= k';
    OutsideRange(b, k);
  }

  // The numbers next to a range are not in the set.
  lemma OutsideRange(m: RList, k: nat)
    requires Canonical(m) && k in m
    ensures !Mem(m, k + 1) && !Mem(m, m[k] as int - 1)
  {
  }

  // ---------- the ordered map ----------

  ghost predicate IsLeast(ks: set<nat>, k: nat) {
    k in ks && forall j :: j in ks ==> k <= j
  }

  ghost predicate IsGreatest(ks: set<nat>, k: nat) {
    k in ks && forall j :: j in ks ==> j <= k
  }

  lemma {:induction false} LeastExists(ks: set<nat>)
    requires ks != {}
    ensures exists k :: IsLeast(ks, k)
  {
    var k :| k in ks;
    assert forall x :: x in ks ==> x == k || x in ks - {k};
    if ks - {k} != {} {
      LeastExists(ks - {k});
      var j :| IsLeast(ks - {k}, j);
      assert IsLeast(ks, if j < k then j else k);
    } else {
      assert IsLeast(ks, k);
    }
  }

  lemma {:induction false} GreatestExists(ks: set<nat>)
    requires ks != {}
    ensures exists k :: IsGreatest(ks, k)
  {
    var k :| k in ks;
    assert forall x :: x in ks ==> x == k || x in ks - {k};
    if ks - {k} != {} {
      GreatestExists(ks - {k});
      var j :| IsGreatest(ks - {k}, j);
      assert IsGreatest(ks, if j > k then j else k);
    } else {
      assert IsGreatest(ks, k);
    }
  }

  function KeysFrom(m: RList, n: int): set<nat> {
    set k | k in m && k >= n
  }

  function KeysBelow(m: RList, n: int): set<nat> {
    set k | k in m && k < n
  }

  // map::lower_bound: the first key not below n, None for end().
  function LowerBound(m: RList, n: int): (i: Option<nat>)
    ensures i.None? ==> forall k :: k in m ==> k < n
    ensures i.Some? ==> i.value in m && n <= i.value && forall k :: k in m && n <= k ==> i.value <= k
  {
    var ks := KeysFrom(m, n);
    assert forall k :: k in m && n <= k ==> k in ks;
    if ks == {} then None
    else
      LeastExists(ks);
      var k :| k in ks && forall j :: j in ks ==> k <= j;
      Some(k)
  }

  // The key before n, None before begin().
  function Before(m: RList, n: int): (i: Option<nat>)
    ensures i.None? ==> forall k :: k in m ==> k >= n
    ensures i.Some? ==> i.value in m && i.value < n && forall k :: k in m && k < n ==> k <= i.value
  {
    var ks := KeysBelow(m, n);
    assert forall k :: k in m && k < n ==> k in ks;
    if ks == {} then None
    else
      GreatestExists(ks);
      var k :| k in ks && forall j :: j in ks ==> j <= k;
      Some(k)
  }

  // The range that holds n, if any, is the one lower_bound finds.
  lemma CheckIsMem(m: RList, n: nat)
    requires Canonical(m)
    ensures Mem(m, n) <==> var i := LowerBound(m, n); i.Some? && m[i.value] <= n
  {
  }

  // ---------- where remove starts ----------

  // The highest number remove(l, h) takes out: h if some range ends at or above it; otherwise
  // remove starts at the first range ending at or above l, and never looks at the ones above.
  function RemoveTop(m: RList, l: nat, h: nat): int {
    if LowerBound(m, h).Some? then h
    else if LowerBound(m, l).Some? then LowerBound(m, l).value
    else -1
  }

  // remove is exact exactly when h is at most the highest element, or at most one range ends at or above l.
  lemma RemoveExactIff(m: RList, l: nat, h: nat)
    requires Canonical(m) && l <= h
    ensures (forall n: nat :: Mem(m, n) && l <= n <= h ==> n <= RemoveTop(m, l, h))
            <==> (exists k :: k in m && k >= h) || (forall a, b :: a in m && b in m && a >= l && b >= l ==> a == b)
  {
    if LowerBound(m, h).None? && LowerBound(m, l).Some? {
      var t := LowerBound(m, l).value;
      if b :| b in m && b >= l && b != t {
        assert Mem(m, b);
      }
    }
  }

  // Every range ends below n.
  ghost predicate AllEndBelow(m: RList, n: nat) {
    forall k :: k in m ==> k < n
  }

  // What inserting [h + 1, h] leaves: nothing new when a range lies around it, and otherwise a range whose
  // low end is above its high end.
  function Backwards(m: RList, h: nat): RList {
    var j := LowerBound(m, h);
    if j.Some? && m[j.value] <= h + 1 then m else m[h := h + 1]
  }

  lemma BackwardsIff(m: RList, h: nat)
    requires Canonical(m)
    ensures Canonical(Backwards(m, h)) <==> exists k :: k in m && m[k] <= h + 1 && h <= k
  {
    var r := Backwards(m, h);
    if k :| k in m && m[k] <= h + 1 && h <= k {
      var j := LowerBound(m, h).value;
      assert j == k;
    } else {
      assert h in r && r[h] == h + 1;
    }
  }

  // The set reaches up to MAX, or is one range: what is removed from it, from either end, is removed exactly.
  ghost predicate Reaching(m: RList) {
    Mem(m, MAX) || forall a, b :: a in m && b in m ==> a == b
  }

  lemma ReachingExact(m: RList, l: nat, h: nat)
    requires Canonical(m) && Reaching(m) && l <= h <= MAX
    ensures forall n: nat :: Mem(m, n) && l <= n <= h ==> n <= RemoveTop(m, l, h)
  {
    RemoveExactIff(m, l, h);
  }

  // Taking numbers away from below does not change that.
  lemma StillReaching(m: RList, r: RList, h: nat)
    requires Canonical(m) && Canonical(r) && Reaching(m) && h < MAX
    requires forall x: nat :: Mem(r, x) <==> Mem(m, x) && x > h
    ensures Reaching(r)
  {
    if !Mem(m, MAX) {
      forall a | a in r
        ensures a in m
      {
        assert Mem(r, a);
        var k :| k in m && m[k] <= a <= k;
        if a < k {
          assert Mem(m, a + 1) by { assert m[k] <= a + 1 <= k; }
          OutsideRange(r, a);
          assert false;
        }
      }
    }
  }

  // The number after MAX is 0 again.
  function Wrapped(n: nat): nat {
    if n == WRAP then 0 else n
  }

  // tot plus the size of a range, in unsigned longs.
  function AddSize(tot: nat, lo: nat, hi: nat): nat
    requires lo <= hi
  {
    (tot + (hi - lo + 1) % WRAP) % WRAP
  }

  // ---------- the class ----------

  class Ranges {
    var rlist: RList

    constructor ()
      ensures rlist == map[]
    {
      rlist := map[];
    }

    constructor Copy(r: Ranges)
      ensures rlist == r.rlist
    {
      rlist := r.rlist;
    }

    predicate Empty()
      reads this
    {
      rlist == map[]
    }

    // Is n in the set?
    method Check(n: Ulong) returns (found: bool)
      requires Canonical(rlist)
      ensures found <==> Mem(rlist, n)
    {
      var i := LowerBound(rlist, n);
      CheckIsMem(rlist, n);
      found := i.Some? && rlist[i.value] <= n;
    }

    // Lowest element; None for the exception on an empty set.
    method Low() returns (n: Option<nat>)
      requires Canonical(rlist)
      ensures n.None? <==> forall x: nat :: !Mem(rlist, x)
      ensures n.Some? ==> Mem(rlist, n.value) && forall x: nat :: Mem(rlist, x) ==> n.value <= x
    {
      var i := LowerBound(rlist, 0);
      if i.None? { return None; }
      assert Mem(rlist, rlist[i.value]);
      return Some(rlist[i.value]);
    }

    method High() returns (n: Option<nat>)
      requires Canonical(rlist)
      ensures n.None? <==> forall x: nat :: !Mem(rlist, x)
      ensures n.Some? ==> Mem(rlist, n.value) && forall x: nat :: Mem(rlist, x) ==> x <= n.value
    {
      var i := Before(rlist, WRAP);
      if i.None? { return None; }
      assert Mem(rlist, i.value);
      return i;
    }

    // Add one number.
    method InsertOne(n: Ulong)
      requires Canonical(rlist)
      modifies this
      ensures Canonical(rlist)
      ensures forall x: nat :: Mem(rlist, x) <==> Mem(old(rlist), x) || n <= x <= n
    {
      hide Mem, Canonical, Replaces;
      ghost var m := rlist;
      var i := LowerBound(rlist, n);
      if i.Some? {
        if rlist[i.value] <= n {
          WithinRange(m, n, n, i.value);
          return;
        }
        if rlist[i.value] == n + 1 {
          rlist := rlist[i.value := n];
        } else {
          i := None;
        }
      }
      if n > 0 {
        if n - 1 in rlist {
          var j := n - 1;
          if i.Some? {
            rlist := rlist[i.value := rlist[j]];
          } else {
            rlist := rlist[n := rlist[j]];
          }
          rlist := rlist - {j};
          OneAboveRange(m, rlist, n, i);
          return;
        }
      }
      if i.None? {
        rlist := rlist[n := n];
        Lone(m, rlist, n, n);
      } else {
        Lowered(m, rlist, n, n, i.value);
      }
    }

    // Add a range.  Given a low end one above the high end it may leave an improper range (Backwards).
    method Insert(l: Ulong, h: Ulong)
      requires Canonical(rlist) && l <= h + 1
      modifies this
      ensures l <= h ==> Canonical(rlist)
      ensures l <= h ==> forall x: nat :: Mem(rlist, x) <==> Mem(old(rlist), x) || l <= x <= h
      ensures l == h + 1 ==> rlist == Backwards(old(rlist), h)
    {
      hide Mem, Canonical, Replaces;
      ghost var m := rlist;
      if rlist == map[] {
        rlist := rlist[h := l];
        if l <= h { Lone(m, rlist, l, h); }
        return;
      }
      var l1 := if l > 0 then l - 1 else l;
      var h1 := if h < MAX then h + 1 else h;
      var j := LowerBound(rlist, l1);
      if j.None? {
        rlist := rlist[h := l];
        if l <= h { Lone(m, rlist, l, h); }
        return;
      }
      var i := LowerBound(rlist, h);
      if i == j {
        if l < rlist[j.value] {
          if rlist[j.value] > h1 {
            rlist := rlist[h := l];
            if l <= h { Lone(m, rlist, l, h); }
          } else {
            rlist := rlist[j.value := l];
            Lowered(m, rlist, l, h, j.value);
          }
        } else if l <= h {
          WithinRange(m, l, h, j.value);
        }
        return;
      }
      InsertSpanning(l, h, h1, j.value, i);
    }

    // Erase the ranges from j up to, not including, i, and cover them with one range.
    method InsertSpanning(l0: Ulong, h: Ulong, h1: Ulong, j: nat, i: Option<nat>)
      requires Canonical(rlist) && l0 <= h && h1 == if h < MAX then h + 1 else h
      requires LowerBound(rlist, if l0 > 0 then l0 - 1 else l0) == Some(j)
      requires i == LowerBound(rlist, h) && i != Some(j)
      modifies this
      ensures Canonical(rlist)
      ensures forall x: nat :: Mem(rlist, x) <==> Mem(old(rlist), x) || l0 <= x <= h
    {
      hide Mem, Canonical, Replaces, Erased;
      ghost var m := rlist;
      var l := l0;
      if rlist[j] < l {
        l := rlist[j];
      }
      rlist := Erased(rlist, j, i);
      StillThere(m, j, i);
      if i.None? || rlist[i.value] > h1 {
        rlist := rlist[h := l];
      } else {
        rlist := rlist[i.value := l];
      }
      Spanned(m, rlist, l0, h, h1, j, i);
    }

    // Take a range out.  When no range ends at or above h, only the first range ending at or above l is
    // looked at (RemoveTop, RemoveExactIff).  When all end below l nothing is, proper or not.
    method Remove(l: Ulong, h: Ulong)
      requires (Canonical(rlist) || AllEndBelow(rlist, l)) && l <= h
      modifies this
      ensures Canonical(old(rlist)) ==> Canonical(rlist)
      ensures Canonical(old(rlist)) ==>
        forall x: nat :: Mem(rlist, x) <==> Mem(old(rlist), x) && !(l <= x <= h && x <= RemoveTop(old(rlist), l, h))
      ensures AllEndBelow(old(rlist), l) ==> rlist == old(rlist)
    {
      hide Mem, Canonical;
      ghost var m := rlist;
      if rlist == map[] { return; }
      var i := LowerBound(rlist, h);
      if i.None? {
        i := LowerBound(rlist, l);
      }
      if i.None? {
        if Canonical(m) { NothingToRemove(m, l, h); }
        return;
      }
      assert Canonical(m);
      var j := i.value;
      ghost var top := RemoveTop(m, l, h);
      RemovingStart(m, j, l, top);
      var doneflag := false;
      while !doneflag
        invariant !doneflag ==> j in rlist && (h >= j ==> j <= top) && (h < j ==> top == h)
        invariant Removing(m, rlist, if doneflag then -1 else j, l, top)
        decreases !doneflag, j
      {
        var before := rlist;
        i := Before(rlist, j);
        doneflag := i.None?;
        ghost var next := if i.Some? then i.value as int else -1;
        if h >= j {
          if l <= j {
            if l > rlist[j] {
              rlist := rlist[l - 1 := rlist[j]];
            }
            rlist := rlist - {j};
            CutTop(m, before, rlist, j, next, l, top);
          } else {
            AllBelow(m, rlist, j, l, top);
            return;
          }
        } else if h >= rlist[j] {
          if l > rlist[j] {
            rlist := rlist[l - 1 := rlist[j]];
            rlist := rlist[j := h + 1];
            CutMiddle(m, before, rlist, j, l, top);
            return;
          }
          rlist := rlist[j := h + 1];
          CutBottom(m, before, rlist, j, next, l, top);
        } else {
          NotReached(m, rlist, j, next, l, top);
        }
        if i.Some? {
          j := i.value;
        }
      }
    }

    // The number of elements, as an unsigned long.
    method GetTotal() returns (tot: nat)
      requires Canonical(rlist)
      ensures tot == CountFrom(rlist, 0) % WRAP
    {
      hide Mem, Canonical, CountFrom, Edge, AddSize;
      tot := 0;
      var i := Before(rlist, WRAP);
      ghost var at: nat := WRAP;
      StartAtTop(rlist);
      // the order of the ranges does not matter for the sum
      while i.Some?
        invariant at <= WRAP && i == Before(rlist, at) && Edge(rlist, at)
        invariant tot == CountFrom(rlist, at) % WRAP
        decreases at
      {
        var k := i.value;
        CountRange(rlist, k, at, tot);
        tot := AddSize(tot, rlist[k], k);
        i := Before(rlist, k);
        at := rlist[k];
      }
      CountAll(rlist, at);
    }

    // Keep the num largest elements.
    method ClipToMaxTotal(num: Ulong)
      requires Canonical(rlist)
      modifies this
      ensures Canonical(rlist)
      ensures Clippable(old(rlist), num) ==> KeepsLargest(old(rlist), rlist, num)
      ensures !Clippable(old(rlist), num) ==> rlist == old(rlist)
    {
      hide Mem, Canonical, CountFrom, Clippable, KeepsLargest, RemoveTop, Edge, AddSize;
      ghost var m := rlist;
      var tot := 0;
      var i := Before(rlist, WRAP);
      ghost var at: nat := WRAP;
      StartAtTop(rlist);
      while i.Some?
        invariant rlist == m && at <= WRAP && i == Before(m, at) && Edge(m, at)
        invariant tot == CountFrom(m, at) % WRAP
        invariant CountFrom(m, at) < num || at == WRAP || CountFrom(m, 0) == WRAP
        decreases at
      {
        var k := i.value;
        CountRange(m, k, at, tot);
        tot := AddSize(tot, rlist[k], k);
        if tot >= num {
          ClipAt(k, at, num, tot);
          return;
        }
        CountKnown(m, m[k], tot);
        i := Before(rlist, k);
        at := m[k];
      }
      ClipNothing(m, at, num);
    }

    // The range k brings the total to num or more: drop what lies below.
    method ClipAt(k: nat, ghost at: nat, num: Ulong, tot: nat)
      requires Canonical(rlist) && Before(rlist, at) == Some(k) && Edge(rlist, at) && num <= tot && at <= WRAP
      requires tot == CountFrom(rlist, rlist[k]) % WRAP
      requires CountFrom(rlist, rlist[k]) == CountFrom(rlist, at) + (k + 1 - rlist[k])
      requires CountFrom(rlist, at) < num || at == WRAP || CountFrom(rlist, 0) == WRAP
      modifies this
      ensures Canonical(rlist)
      ensures Clippable(old(rlist), num) ==> KeepsLargest(old(rlist), rlist, num)
      ensures !Clippable(old(rlist), num) ==> rlist == old(rlist)
    {
      hide Mem, Canonical, CountFrom, Clippable, KeepsLargest, RemoveTop, Edge, AddSize;
      ghost var m := rlist;
      ghost var cut := ClipPoint(m, k, at, num, tot);
      var ofs := tot - num;
      var newlow := (rlist[k] + ofs) % WRAP;
      var low := Low();
      ClipLow(m, k, cut, num, newlow, low);
      if low.value != newlow {
        Remove(low.value, (newlow + MAX) % WRAP);
        ClipDone(m, rlist, k, cut, num, low.value);
      } else {
        WrapCut(cut);
        if Clippable(m, num) {
          if cut == WRAP { ClipPastEnd(m, k, num); }
          ClipKeepsAll(m, cut, num, low.value);
        }
      }
    }

    // Add everything that is not in r.
    method Invert(r: Ranges)
      requires this != r && Canonical(rlist) && Canonical(r.rlist)
      modifies this
      ensures Canonical(rlist)
      ensures forall x: nat :: Mem(rlist, x) <==> Mem(old(rlist), x) || (x <= MAX && !Mem(r.rlist, x))
    {
      hide Mem, Canonical, Inverted, Edge;
      ghost var m := rlist;
      if r.Empty() {
        Insert(0, MAX);
        NothingHeld(r.rlist);
        return;
      }
      var n := 0;
      var i := LowerBound(r.rlist, 0);
      ghost var at: nat := 0;
      InvertStart(m, r.rlist);
      while i.Some?
        invariant i == LowerBound(r.rlist, at) && r.rlist == old(r.rlist)
        invariant at <= WRAP && n == Wrapped(at) && Edge(r.rlist, at)
        invariant Canonical(rlist) && Inverted(m, rlist, r.rlist, at)
        invariant i.None? ==> at > 0
        decreases WRAP - at, i.Some?
      {
        var k := i.value;
        InvertStep(r, m, n, at, k);
        n := Wrapped(k + 1);
        at := k + 1;
        i := LowerBound(r.rlist, k + 1);
      }
      ghost var before := rlist;
      if n != 0 {
        Insert(n, MAX);
      }
      InvertEnd(m, before, rlist, r.rlist, at);
    }

    // Add the numbers from n up to the range k of r.
    method InvertStep(r: Ranges, ghost m: RList, n: nat, ghost at: nat, k: nat)
      requires this != r && Canonical(rlist) && Canonical(r.rlist)
      requires at <= WRAP && n == Wrapped(at) && Edge(r.rlist, at) && LowerBound(r.rlist, at) == Some(k)
      requires Inverted(m, rlist, r.rlist, at)
      modifies this
      ensures k <= MAX && k >= at && Edge(r.rlist, k + 1)
      ensures Canonical(rlist) && Inverted(m, rlist, r.rlist, k + 1)
    {
      hide Mem, Canonical, Inverted, Edge;
      ghost var before := rlist;
      InvertGap(m, before, r.rlist, at, k);
      if n != r.rlist[k] {
        Insert(n, r.rlist[k] - 1);
      }
      InvertRange(m, before, rlist, r.rlist, at, k);
    }

    method RemoveOne(n: Ulong)
      requires Canonical(rlist) || AllEndBelow(rlist, n)
      modifies this
      ensures Canonical(old(rlist)) ==> Canonical(rlist)
      ensures Canonical(old(rlist)) ==> forall x: nat :: Mem(rlist, x) <==> Mem(old(rlist), x) && x != n
      ensures AllEndBelow(old(rlist), n) ==> rlist == old(rlist)
    {
      ghost var m := rlist;
      Remove(n, n);
      if Canonical(m) { RemoveExactIff(m, n, n); }
    }
  }

  // ---------- removal ----------

  // While remove(l, h) works its way down, everything above t is done and everything up to t untouched.
  ghost predicate Removing(m0: RList, m: RList, t: int, l: nat, top: int) {
    && Canonical(m0) && Canonical(m)
    && (forall k :: k in m0 && k <= t ==> k in m && m[k] == m0[k])
    && (forall k :: k in m && k <= t ==> k in m0)
    && (forall x: nat :: Mem(m, x) <==> Mem(m0, x) && !(l <= x <= top && x > t))
  }

  lemma NothingToRemove(m: RList, l: nat, h: nat)
    requires Canonical(m) && l <= h && LowerBound(m, h).None? && LowerBound(m, l).None?
    ensures forall x: nat :: Mem(m, x) ==> !(l <= x <= h)
  {
  }

  lemma RemovingStart(m: RList, j: nat, l: nat, top: int)
    requires Canonical(m) && j in m && top <= j
    ensures Removing(m, m, j, l, top)
  {
  }

  // The next range down is `next`: nothing lies between it and the bottom of the range j.
  ghost predicate NextDown(m: RList, j: nat, next: int) {
    next < j && (forall k :: k in m && k < j ==> k <= next) && (next >= 0 ==> next in m)
  }

  // Numbers the range j holds, and numbers between the ranges next and j.
  lemma Between(m: RList, j: nat, next: int, x: nat)
    requires Canonical(m) && j in m && NextDown(m, j, next) && next < x <= j
    ensures Mem(m, x) <==> m[j] <= x
  {
  }

  lemma CutTop(m0: RList, m: RList, m': RList, j: nat, next: int, l: nat, top: int)
    requires Removing(m0, m, j, l, top) && j in m && NextDown(m, j, next)
    requires l <= j <= top
    requires m' == (if l > m[j] then m[l - 1 := m[j]] else m) - {j}
    ensures Removing(m0, m', next, l, top)
  {
    CutTopMembers(m, m', j, next, l);
    CutTopCanonical(m, m', j, next, l);
    hide Mem, Canonical;
    RemovingFrom(m0, m, m', j, next, l, top);
  }

  lemma CutTopMembers(m: RList, m': RList, j: nat, next: int, l: nat)
    requires Canonical(m) && j in m && NextDown(m, j, next) && l <= j
    requires m' == (if l > m[j] then m[l - 1 := m[j]] else m) - {j}
    ensures forall x: nat :: Mem(m', x) <==> Mem(m, x) && !(l <= x <= j && x > next)
  {
    forall x: nat
      ensures Mem(m', x) <==> Mem(m, x) && !(l <= x <= j && x > next)
    {
      if Mem(m, x) && !(l <= x <= j && x > next) {
        var k :| k in m && m[k] <= x <= k;
        if k == j { assert m'[l - 1] <= x <= l - 1; } else { assert k in m' && m'[k] == m[k]; }
      }
      if Mem(m', x) {
        var k :| k in m' && m'[k] <= x <= k;
        if k in m && m'[k] == m[k] { assert m[k] <= x <= k; } else { assert m[j] <= x <= j; }
      }
    }
  }

  lemma CutTopCanonical(m: RList, m': RList, j: nat, next: int, l: nat)
    requires Canonical(m) && j in m && NextDown(m, j, next) && l <= j
    requires m' == (if l > m[j] then m[l - 1 := m[j]] else m) - {j}
    ensures Canonical(m')
  {
  }

  // One range is done: what changed is between next and j.
  lemma RemovingFrom(m0: RList, m: RList, m': RList, j: nat, next: int, l: nat, top: int)
    requires Removing(m0, m, j, l, top) && j in m && NextDown(m, j, next)
    requires Canonical(m')
    requires forall k :: k <= next ==> (k in m <==> k in m') && (k in m ==> m'[k] == m[k])
    requires forall x: nat :: Mem(m', x) <==> Mem(m, x) && !(l <= x <= top && x <= j && x > next)
    ensures Removing(m0, m', next, l, top)
  {
    hide Mem, Canonical;
  }

  lemma CutMiddle(m0: RList, m: RList, m': RList, j: nat, l: nat, top: int)
    requires Removing(m0, m, j, l, top) && j in m
    requires m[j] < l <= top < j
    requires m' == m[l - 1 := m[j]][j := (top + 1) as nat]
    ensures Removing(m0, m', -1, l, top)
  {
    CutMiddleMembers(m, m', j, l, top);
    hide Mem;
    assert Canonical(m');
  }

  lemma CutMiddleMembers(m: RList, m': RList, j: nat, l: nat, top: int)
    requires Canonical(m) && j in m && m[j] < l <= top < j
    requires m' == m[l - 1 := m[j]][j := (top + 1) as nat]
    ensures forall x: nat :: Mem(m', x) <==> Mem(m, x) && !(l <= x <= top)
  {
    forall x: nat
      ensures Mem(m', x) <==> Mem(m, x) && !(l <= x <= top)
    {
      if Mem(m, x) && !(l <= x <= top) {
        var k :| k in m && m[k] <= x <= k;
        if k == j {
          assert m'[l - 1] <= x <= l - 1 || m'[j] <= x <= j;
        } else {
          assert k in m' && m'[k] == m[k];
        }
      }
      if Mem(m', x) {
        var k :| k in m' && m'[k] <= x <= k;
        if k in m && m'[k] == m[k] { assert m[k] <= x <= k; } else { assert m[j] <= x <= j; }
      }
    }
  }

  lemma CutBottom(m0: RList, m: RList, m': RList, j: nat, next: int, l: nat, top: int)
    requires Removing(m0, m, j, l, top) && j in m && NextDown(m, j, next)
    requires l <= m[j] <= top < j
    requires m' == m[j := (top + 1) as nat]
    ensures Removing(m0, m', next, l, top)
  {
    CutBottomMembers(m, m', j, next, l, top);
    assert Canonical(m');
    hide Mem, Canonical;
    RemovingFrom(m0, m, m', j, next, l, top);
  }

  lemma CutBottomMembers(m: RList, m': RList, j: nat, next: int, l: nat, top: int)
    requires Canonical(m) && j in m && NextDown(m, j, next) && l <= m[j] <= top < j
    requires m' == m[j := (top + 1) as nat]
    ensures forall x: nat :: Mem(m', x) <==> Mem(m, x) && !(l <= x <= top && x <= j && x > next)
  {
    forall x: nat
      ensures Mem(m', x) <==> Mem(m, x) && !(l <= x <= top && x <= j && x > next)
    {
      if Mem(m, x) && !(l <= x <= top && x > next) {
        var k :| k in m && m[k] <= x <= k;
        assert k in m' && m'[k] <= x <= k;
      }
      if Mem(m', x) {
        var k :| k in m' && m'[k] <= x <= k;
        assert m[k] <= x <= k;
      }
    }
  }

  lemma NotReached(m0: RList, m: RList, j: nat, next: int, l: nat, top: int)
    requires Removing(m0, m, j, l, top) && j in m && NextDown(m, j, next)
    requires top < m[j]
    ensures Removing(m0, m, next, l, top)
  {
    forall x: nat | x > next && x <= j && l <= x <= top
      ensures !Mem(m, x)
    {
      Between(m, j, next, x);
    }
  }

  lemma AllBelow(m0: RList, m: RList, j: nat, l: nat, top: int)
    requires Removing(m0, m, j, l, top) && j < l
    ensures Removing(m0, m, -1, l, top)
  {
  }

  // map::erase from iterator j up to, not including, iterator i.
  function Erased(m: RList, j: nat, i: Option<nat>): RList {
    map k | k in m && !(j <= k && (i.Some? ==> k < i.value)) :: m[k]
  }

  // ---------- insertion ----------

  // m' is m with the ranges inside [low, top] replaced by that range, which touches no other.
  ghost predicate Replaces(m: RList, m': RList, low: nat, top: nat) {
    && low <= top <= MAX && top in m' && m'[top] == low
    && (forall k :: k in m' && k != top ==> k in m && m'[k] == m[k] && (k + 1 < low || top + 1 < m[k]))
    && (forall k :: k in m && !(low <= m[k] && k <= top) ==> k in m' && k != top)
  }

  // Adding [l, h], reaching down to the low end of the range j and up to the range top.
  lemma Replaced(m: RList, m': RList, low: nat, top: nat, l: nat, h: nat, j: nat)
    requires Canonical(m) && l <= h && Replaces(m, m', low, top)
    requires low == l || (j in m && m[j] == low && low <= l <= j + 1)
    requires top == h || (top in m && m[top] <= h + 1 && h <= top)
    ensures Canonical(m')
    ensures forall x: nat :: Mem(m', x) <==> Mem(m, x) || l <= x <= h
  {
    forall x: nat
      ensures Mem(m', x) <==> Mem(m, x) || l <= x <= h
    {
      if low <= x <= top {
        assert m'[top] <= x <= top;
        if x < l { assert m[j] <= x <= j; }
        if x > h { assert m[top] <= x <= top; }
      } else {
        if Mem(m, x) {
          var k :| k in m && m[k] <= x <= k;
          assert k in m' && m'[k] == m[k];
        }
        if Mem(m', x) {
          var k :| k in m' && m'[k] <= x <= k;
          assert k in m && m'[k] == m[k];
        }
      }
    }
  }

  lemma WithinRange(m: RList, l: nat, h: nat, j: nat)
    requires j in m && m[j] <= l && h <= j
    ensures forall x: nat :: l <= x <= h ==> Mem(m, x)
  {
    forall x: nat | l <= x <= h
      ensures Mem(m, x)
    {
      assert m[j] <= x <= j;
    }
  }

  // No range holds or touches a number of [l, h].
  ghost predicate Clear(m: RList, l: nat, h: nat) {
    forall k :: k in m ==> k + 1 < l || h + 1 < m[k]
  }

  // [l, h] as a range of its own.
  lemma Lone(m: RList, m': RList, l: nat, h: nat)
    requires Canonical(m) && l <= h <= MAX && m' == m[h := l]
    requires var j := LowerBound(m, if l > 0 then l - 1 else l);
      || j.None?
      || (m[j.value] > (if h < MAX then h + 1 else h) && h < m[j.value])
      || (l == h && l - 1 !in m && var i := LowerBound(m, h); i.None? || m[i.value] > h + 1)
    ensures Canonical(m')
    ensures forall x: nat :: Mem(m', x) <==> Mem(m, x) || l <= x <= h
  {
    hide Mem;
    assert Clear(m, l, h);
    assert Replaces(m, m', l, h);
    hide Replaces, Canonical, Clear;
    Replaced(m, m', l, h, l, h, 0);
  }

  // The range j, which starts inside or just above [l, h] and is the first to end at or above l - 1, starts at l.
  lemma Lowered(m: RList, m': RList, l: nat, h: nat, j: nat)
    requires Canonical(m) && l <= h <= MAX && j in m && m' == m[j := l]
    requires l < m[j] <= h + 1 && h <= j
    requires LowerBound(m, h) == Some(j)
    requires LowerBound(m, if l > 0 then l - 1 else l) == Some(j) || (l == h && l - 1 !in m)
    ensures Canonical(m')
    ensures forall x: nat :: Mem(m', x) <==> Mem(m, x) || l <= x <= h
  {
    hide Mem;
    assert Replaces(m, m', l, j);
    hide Replaces, Canonical;
    Replaced(m, m', l, j, l, h, 0);
  }

  // n joins the range ending just below it, and the range i starting just above it if there is one.
  lemma OneAboveRange(m: RList, m': RList, n: nat, i: Option<nat>)
    requires Canonical(m) && 0 < n <= MAX && n - 1 in m
    requires i.Some? ==> i == LowerBound(m, n) && m[i.value] == n + 1
    requires i.None? ==> LowerBound(m, n).None? || m[LowerBound(m, n).value] > n + 1
    requires m' == m[(if i.Some? then i.value else n) := m[n - 1]] - {n - 1}
    ensures Canonical(m')
    ensures forall x: nat :: Mem(m', x) <==> Mem(m, x) || n <= x <= n
  {
    hide Mem;
    var top := if i.Some? then i.value else n;
    assert Replaces(m, m', m[n - 1], top);
    hide Replaces, Canonical;
    Replaced(m, m', m[n - 1], top, n, n, n - 1);
  }

  lemma StillThere(m: RList, j: nat, i: Option<nat>)
    ensures i.Some? && i.value in m ==> i.value in Erased(m, j, i) && Erased(m, j, i)[i.value] == m[i.value]
  {
  }

  // One range covers those erased, [l0, h], and the range i if it touches it.
  lemma Spanned(m: RList, m': RList, l0: nat, h: nat, h1: nat, j: nat, i: Option<nat>)
    requires Canonical(m) && l0 <= h <= MAX && h1 == if h < MAX then h + 1 else h
    requires LowerBound(m, if l0 > 0 then l0 - 1 else l0) == Some(j)
    requires i == LowerBound(m, h) && i != Some(j)
    requires m' == Erased(m, j, i)[(if i.None? || m[i.value] > h1 then h else i.value) := if m[j] < l0 then m[j] else l0]
    ensures Canonical(m')
    ensures forall x: nat :: Mem(m', x) <==> Mem(m, x) || l0 <= x <= h
  {
    hide Mem;
    var top := if i.None? || m[i.value] > h1 then h else i.value;
    var low := if m[j] < l0 then m[j] else l0;
    SpannedReplaces(m, m', l0, h, h1, j, i);
    hide Replaces, Canonical;
    Replaced(m, m', low, top, l0, h, j);
  }

  lemma SpannedReplaces(m: RList, m': RList, l0: nat, h: nat, h1: nat, j: nat, i: Option<nat>)
    requires Canonical(m) && l0 <= h <= MAX && h1 == if h < MAX then h + 1 else h
    requires LowerBound(m, if l0 > 0 then l0 - 1 else l0) == Some(j)
    requires i == LowerBound(m, h) && i != Some(j)
    requires m' == Erased(m, j, i)[(if i.None? || m[i.value] > h1 then h else i.value) := if m[j] < l0 then m[j] else l0]
    ensures Replaces(m, m', if m[j] < l0 then m[j] else l0, if i.None? || m[i.value] > h1 then h else i.value)
  {
    var top := if i.None? || m[i.value] > h1 then h else i.value;
    var low := if m[j] < l0 then m[j] else l0;
    forall k | k in m' && k != top
      ensures k in m && m'[k] == m[k] && (k + 1 < low || top + 1 < m[k])
    {
      SpannedOthers(m, m', l0, h, h1, j, i, k);
    }
    forall k | k in m && !(low <= m[k] && k <= top)
      ensures k in m' && k != top
    {
      SpannedKeeps(m, m', l0, h, h1, j, i, k);
    }
    hide Canonical, LowerBound, Erased;
  }

  lemma SpannedOthers(m: RList, m': RList, l0: nat, h: nat, h1: nat, j: nat, i: Option<nat>, k: nat)
    requires Canonical(m) && l0 <= h <= MAX && h1 == if h < MAX then h + 1 else h
    requires LowerBound(m, if l0 > 0 then l0 - 1 else l0) == Some(j)
    requires i == LowerBound(m, h) && i != Some(j)
    requires m' == Erased(m, j, i)[(if i.None? || m[i.value] > h1 then h else i.value) := if m[j] < l0 then m[j] else l0]
    requires k in m' && k != if i.None? || m[i.value] > h1 then h else i.value
    ensures k in m && m'[k] == m[k]
    ensures k + 1 < (if m[j] < l0 then m[j] else l0) || (if i.None? || m[i.value] > h1 then h else i.value) + 1 < m[k]
  {
    assert k in Erased(m, j, i);
    if k < j {
      assert k + 1 < l0 && k + 1 < m[j];
    }
  }

  lemma SpannedKeeps(m: RList, m': RList, l0: nat, h: nat, h1: nat, j: nat, i: Option<nat>, k: nat)
    requires Canonical(m) && l0 <= h <= MAX && h1 == if h < MAX then h + 1 else h
    requires LowerBound(m, if l0 > 0 then l0 - 1 else l0) == Some(j)
    requires i == LowerBound(m, h) && i != Some(j)
    requires m' == Erased(m, j, i)[(if i.None? || m[i.value] > h1 then h else i.value) := if m[j] < l0 then m[j] else l0]
    requires k in m
    requires !((if m[j] < l0 then m[j] else l0) <= m[k] && k <= (if i.None? || m[i.value] > h1 then h else i.value))
    ensures k in m' && k != if i.None? || m[i.value] > h1 then h else i.value
  {
    assert k < j || (i.Some? && k >= i.value);
  }

  // ---------- counting ----------

  // The elements from t on, and their number.
  ghost function ElemsFrom(m: RList, t: nat): set<nat> {
    set x: nat | t <= x <= MAX && Mem(m, x)
  }

  ghost function CountFrom(m: RList, t: nat): nat {
    |ElemsFrom(m, t)|
  }

  ghost function Interval(a: nat, b: nat): set<nat>
    decreases b - a
  {
    if a >= b then {} else {a} + Interval(a + 1, b)
  }

  lemma {:induction false} IntervalSize(a: nat, b: nat)
    requires a <= b
    ensures |Interval(a, b)| == b - a
    ensures forall x: nat :: x in Interval(a, b) <==> a <= x < b
    decreases b - a
  {
    if a < b { IntervalSize(a + 1, b); }
  }

  lemma SubsetSize(s: set<nat>, t: set<nat>)
    requires s <= t
    ensures |s| <= |t|
    ensures |s| == |t| ==> s == t
  {
    assert t == s + (t - s);
  }

  lemma CountBound(m: RList, t: nat)
    requires t <= WRAP
    ensures CountFrom(m, t) <= WRAP - t
    ensures CountFrom(m, t) <= CountFrom(m, 0)
    ensures CountFrom(m, 0) == WRAP ==> forall x: nat :: x <= MAX ==> Mem(m, x)
  {
    var s := ElemsFrom(m, t);
    var s0 := ElemsFrom(m, 0);
    IntervalSize(t, WRAP);
    IntervalSize(0, WRAP);
    SubsetSize(s, Interval(t, WRAP));
    SubsetSize(s0, Interval(0, WRAP));
    SubsetSize(s, s0);
    if |s0| == WRAP {
      forall x: nat | x <= MAX
        ensures Mem(m, x)
      {
        assert x in Interval(0, WRAP);
        assert x in s0;
      }
    }
  }

  lemma CountNone(m: RList, t: nat)
    requires t > MAX
    ensures CountFrom(m, t) == 0
  {
    assert (ElemsFrom(m, t)) == {};
  }

  // From a place inside the range k, or just above it.
  lemma CountInRange(m: RList, k: nat, a: nat)
    requires Canonical(m) && k in m && m[k] <= a <= k + 1
    ensures CountFrom(m, a) == k + 1 - a + CountFrom(m, k + 1)
  {
    IntervalSize(a, k + 1);
    ElemsInRange(m, k, a);
    hide Interval, ElemsFrom, Canonical, Mem;
    assert |ElemsFrom(m, a)| == |Interval(a, k + 1)| + |ElemsFrom(m, k + 1)|;
  }

  lemma ElemsInRange(m: RList, k: nat, a: nat)
    requires Canonical(m) && k in m && m[k] <= a <= k + 1
    ensures ElemsFrom(m, a) == Interval(a, k + 1) + ElemsFrom(m, k + 1)
    ensures Interval(a, k + 1) !! ElemsFrom(m, k + 1)
  {
    IntervalSize(a, k + 1);
    hide Interval;
    forall x | x in Interval(a, k + 1)
      ensures x in ElemsFrom(m, a)
    {
      assert m[k] <= x <= k;
    }
  }

  // Ranges ending at or above t start at or above t.
  ghost predicate Edge(m: RList, t: int) {
    forall j :: j in m && j >= t ==> m[j] >= t
  }

  lemma StartAtTop(m: RList)
    requires Canonical(m)
    ensures CountFrom(m, WRAP) == 0 && Edge(m, WRAP)
  {
    CountNone(m, WRAP);
  }

  // Nothing lies between the last range below `at` and `at`.
  lemma CountGap(m: RList, k: nat, at: nat)
    requires Canonical(m) && Before(m, at) == Some(k) && Edge(m, at)
    ensures CountFrom(m, k + 1) == CountFrom(m, at)
  {
    assert (ElemsFrom(m, k + 1)) == (ElemsFrom(m, at));
  }

  lemma ModuloAdd(a: nat, b: nat)
    ensures (a % WRAP + b % WRAP) % WRAP == (a + b) % WRAP
  {
    var q, r := a / WRAP + b / WRAP, a % WRAP + b % WRAP;
    ModuloSkip(q, r);
    assert a + b == q * WRAP + r;
  }

  lemma {:induction false} ModuloSkip(k: nat, r: nat)
    ensures (k * WRAP + r) % WRAP == r % WRAP
  {
    if k > 0 {
      ModuloSkip(k - 1, r);
      assert k * WRAP + r == ((k - 1) * WRAP + r) + WRAP;
    }
  }

  // Adding in the range k, the last one below `at`.
  lemma CountRange(m: RList, k: nat, at: nat, tot: nat)
    requires Canonical(m) && Before(m, at) == Some(k) && Edge(m, at)
    requires tot == CountFrom(m, at) % WRAP
    ensures m[k] <= k <= MAX && m[k] < at
    ensures CountFrom(m, m[k]) == CountFrom(m, at) + (k + 1 - m[k])
    ensures AddSize(tot, m[k], k) == CountFrom(m, m[k]) % WRAP
    ensures Edge(m, m[k]) && Before(m, k) == Before(m, m[k])
  {
    RangeEdge(m, k, at);
    CountGap(m, k, at);
    CountInRange(m, k, m[k]);
    hide CountFrom, Canonical, Edge, Before;
    ModuloAdd(CountFrom(m, at), k + 1 - m[k]);
  }

  lemma RangeEdge(m: RList, k: nat, at: nat)
    requires Canonical(m) && Before(m, at) == Some(k) && Edge(m, at)
    ensures m[k] <= k <= MAX && m[k] < at
    ensures Edge(m, m[k]) && Before(m, k) == Before(m, m[k])
  {
  }

  lemma CountAll(m: RList, at: nat)
    requires Canonical(m) && Before(m, at).None? && Edge(m, at)
    ensures CountFrom(m, at) == CountFrom(m, 0)
  {
    assert (ElemsFrom(m, at)) == (ElemsFrom(m, 0));
  }

  // A wrapped count is the count, unless every number is in the set.
  lemma CountKnown(m: RList, t: nat, tot: nat)
    requires t <= WRAP && tot == CountFrom(m, t) % WRAP
    ensures CountFrom(m, 0) == WRAP || tot == CountFrom(m, t)
  {
    CountBound(m, t);
    CountBound(m, 0);
  }

  // ---------- clipping ----------

  // m' holds the num largest elements of m, or all of them.
  ghost predicate KeepsLargest(m: RList, m': RList, num: nat) {
    exists cut: nat :: KeepsFrom(m, m', cut) && CountFrom(m, cut) == if num < CountFrom(m, 0) then num else CountFrom(m, 0)
  }

  ghost predicate KeepsFrom(m: RList, m': RList, cut: nat) {
    forall x: nat :: Mem(m', x) <==> Mem(m, x) && x >= cut
  }

  // Clipping goes wrong when the set reaches from one end of the numbers to the other and either
  // nothing is to be kept or the number of elements does not fit.
  ghost predicate Clippable(m: RList, num: nat) {
    !(Mem(m, 0) && Mem(m, MAX) && (num == 0 || CountFrom(m, 0) == WRAP))
  }

  // Exactly then: left as it is, such a set does not hold just its num largest elements.
  lemma ClipExactIff(m: RList, num: Ulong)
    requires Canonical(m)
    ensures !Clippable(m, num) ==> !KeepsLargest(m, m, num)
  {
    if Mem(m, 0) && KeepsLargest(m, m, num) {
      var cut: nat :| KeepsFrom(m, m, cut) && CountFrom(m, cut) == if num < CountFrom(m, 0) then num else CountFrom(m, 0);
      assert cut == 0;
      var all := ElemsFrom(m, 0);
      assert 0 in all;
    }
  }

  // Every number is in the set: there is one range.
  lemma FullRange(m: RList, k: nat)
    requires Canonical(m) && CountFrom(m, 0) == WRAP && k in m
    ensures k == MAX && m[k] == 0 && Mem(m, 0) && Mem(m, MAX)
  {
    CountBound(m, 0);
    var down := if m[k] > 0 then m[k] - 1 else 0;
    assert Mem(m, 0) && Mem(m, MAX) && Mem(m, down) && (k < MAX ==> Mem(m, k + 1));
    OutsideRange(m, k);
  }

  // Where the elements to keep start.
  lemma ClipPoint(m: RList, k: nat, at: nat, num: nat, tot: nat) returns (cut: nat)
    requires Canonical(m) && Before(m, at) == Some(k) && Edge(m, at) && num <= tot && at <= WRAP
    requires tot == CountFrom(m, m[k]) % WRAP
    requires CountFrom(m, m[k]) == CountFrom(m, at) + (k + 1 - m[k])
    requires CountFrom(m, at) < num || at == WRAP || CountFrom(m, 0) == WRAP
    ensures cut == m[k] + tot - num
    ensures m[k] <= cut <= k + 1 <= WRAP
    ensures Clippable(m, num) ==> CountFrom(m, cut) == num
    ensures !Clippable(m, num) ==> cut % WRAP == 0 && Mem(m, 0)
  {
    cut := m[k] + tot - num;
    if CountFrom(m, 0) == WRAP {
      FullRange(m, k);
    } else {
      CountKnown(m, m[k], tot);
      CountNone(m, WRAP);
      CountGap(m, k, at);
      CountInRange(m, k, cut);
      if !Clippable(m, num) {
        var j :| j in m && m[j] <= MAX <= j;
        assert k == MAX;
      }
    }
  }

  ghost predicate Lowest(m: RList, low: Option<nat>) {
    low.Some? && Mem(m, low.value) && forall x: nat :: Mem(m, x) ==> low.value <= x
  }

  lemma PredecessorWraps(cut: nat)
    requires 0 < cut <= WRAP
    ensures (cut % WRAP + MAX) % WRAP == cut - 1
  {
  }

  lemma ClipLow(m: RList, k: nat, cut: nat, num: nat, newlow: nat, low: Option<nat>)
    requires Canonical(m) && k in m && m[k] <= cut <= k + 1 <= WRAP && newlow == cut % WRAP
    requires low.None? ==> forall x: nat :: !Mem(m, x)
    requires low.Some? ==> Lowest(m, low)
    requires !Clippable(m, num) ==> cut % WRAP == 0 && Mem(m, 0)
    ensures Lowest(m, low) && low.value <= MAX
    ensures low.value != newlow ==>
      && Clippable(m, num)
      && cut > 0 && (newlow + MAX) % WRAP == cut - 1 && low.value <= cut - 1
      && RemoveTop(m, low.value, cut - 1) == cut - 1
  {
    hide Clippable;
    assert Mem(m, m[k]);
    hide Canonical, Mem;
    WrapCut(cut);
    if low.value != newlow {
      PredecessorWraps(cut);
      assert LowerBound(m, cut - 1).Some?;
    }
  }

  lemma ClipDone(m: RList, m': RList, k: nat, cut: nat, num: nat, low: nat)
    requires Canonical(m) && Lowest(m, Some(low)) && 0 < cut <= WRAP && low <= cut - 1
    requires Clippable(m, num) && CountFrom(m, cut) == num
    requires forall x: nat :: Mem(m', x) <==> Mem(m, x) && !(low <= x <= cut - 1 && x <= cut - 1)
    ensures KeepsLargest(m, m', num)
  {
    hide CountFrom, Clippable, Mem;
    CountBound(m, cut);
    assert KeepsFrom(m, m', cut);
  }

  lemma WrapCut(cut: nat)
    requires cut <= WRAP
    ensures cut % WRAP == if cut == WRAP then 0 else cut
  {
  }

  // Nothing lies below cut.
  lemma ClipKeepsAll(m: RList, cut: nat, num: nat, low: nat)
    requires Canonical(m) && Lowest(m, Some(low)) && low == cut <= WRAP && CountFrom(m, cut) == num
    ensures KeepsLargest(m, m, num)
  {
    hide CountFrom, Mem, Canonical;
    CountBound(m, cut);
    assert KeepsFrom(m, m, cut);
  }

  // Past the last number, it would mean that nothing is to be kept of a set reaching from one end
  // to the other.
  lemma ClipPastEnd(m: RList, k: nat, num: nat)
    requires Canonical(m) && Mem(m, 0) && k in m && k + 1 == WRAP && CountFrom(m, WRAP) == num
    ensures !Clippable(m, num)
  {
    hide CountFrom;
    assert m[k] <= MAX <= k;
    CountNone(m, WRAP);
  }

  lemma ClipNothing(m: RList, at: nat, num: nat)
    requires Canonical(m) && Before(m, at).None? && Edge(m, at) && at <= WRAP
    requires CountFrom(m, at) < num || at == WRAP || CountFrom(m, 0) == WRAP
    ensures Clippable(m, num) ==> KeepsLargest(m, m, num)
  {
    CountAll(m, at);
    CountNone(m, WRAP);
    CountBound(m, 0);
    assert KeepsFrom(m, m, 0);
  }

  // ---------- inverting ----------

  // cur is m with the numbers below `at` that r does not hold.
  ghost predicate Inverted(m: RList, cur: RList, r: RList, at: nat) {
    forall x: nat :: Mem(cur, x) <==> Mem(m, x) || (x < at && !Mem(r, x))
  }

  lemma NothingHeld(r: RList)
    requires r == map[]
    ensures forall x: nat :: !Mem(r, x)
  {
  }

  lemma InvertStart(m: RList, r: RList)
    requires r != map[]
    ensures Inverted(m, m, r, 0) && Edge(r, 0) && LowerBound(r, 0).Some?
  {
    var k :| k in r;
  }

  lemma InvertGap(m: RList, cur: RList, r: RList, at: nat, k: nat)
    requires Canonical(r) && Edge(r, at) && LowerBound(r, at) == Some(k)
    ensures at <= r[k] <= k <= MAX
  {
  }

  lemma InvertRange(m: RList, before: RList, cur: RList, r: RList, at: nat, k: nat)
    requires Canonical(r) && Edge(r, at) && LowerBound(r, at) == Some(k)
    requires Inverted(m, before, r, at)
    requires forall x: nat :: Mem(cur, x) <==> Mem(before, x) || at <= x < r[k]
    ensures Inverted(m, cur, r, k + 1) && Edge(r, k + 1)
  {
  }

  lemma InvertEnd(m: RList, before: RList, cur: RList, r: RList, at: nat)
    requires Canonical(r) && LowerBound(r, at).None? && at <= WRAP
    requires Inverted(m, before, r, at)
    requires forall x: nat :: Mem(cur, x) <==> Mem(before, x) || at <= x <= MAX
    ensures forall x: nat :: Mem(cur, x) <==> Mem(m, x) || (x <= MAX && !Mem(r, x))
  {
  }

  // Inverting twice gives the list back.
  lemma InvertInvolution(a: RList, b: RList, c: RList)
    requires Canonical(a) && Canonical(b) && Canonical(c)
    requires forall x: nat :: Mem(b, x) <==> x <= MAX && !Mem(a, x)
    requires forall x: nat :: Mem(c, x) <==> x <= MAX && !Mem(b, x)
    ensures c == a
  {
    assert forall x: nat :: Mem(a, x) ==> x <= MAX;
    EqualSetsEqualLists(c, a);
  }
}
