// The 0-1 knapsack solver and its "smallest choice reaching a value" variant.
//
// A choice of items is a set of indices.  Sums over a choice are taken along the
// index order, so that they need no enumeration of the set.
module Knapsack {

  const INT_MAX: int := 0x7fff_ffff

  // Sum of xs[k] over the indices k < n that are in s.
  function SumIn(xs: seq<int>, n: nat, s: set<int>): int
    requires n <= |xs|
  {
    if n == 0 then 0
    else SumIn(xs, n - 1, s) + (if n - 1 in s then xs[n - 1] else 0)
  }

  // Sum of the whole list, as std::accumulate computes it.
  function Sum(xs: seq<int>, n: nat): int
    requires n <= |xs|
  {
    if n == 0 then 0 else Sum(xs, n - 1) + xs[n - 1]
  }

  ghost predicate IsChoice(s: set<int>, n: nat) {
    forall k :: k in s ==> 0 <= k < n
  }

  predicate NonNegative(xs: seq<int>) {
    forall k :: 0 <= k < |xs| ==> xs[k] >= 0
  }

  // The best value reachable with the first i items in capacity c.
  function Opt(values: seq<int>, sizes: seq<int>, i: nat, c: nat): int
    requires |values| == |sizes|
    requires i <= |values|
    requires NonNegative(sizes)
  {
    if i == 0 then 0
    else if sizes[i - 1] <= c && Opt(values, sizes, i - 1, c - sizes[i - 1]) + values[i - 1] > Opt(values, sizes, i - 1, c)
    then Opt(values, sizes, i - 1, c - sizes[i - 1]) + values[i - 1]
    else Opt(values, sizes, i - 1, c)
  }

  // Item i improves on the first i items in capacity c.
  predicate Improves(values: seq<int>, sizes: seq<int>, i: nat, c: nat)
    requires |values| == |sizes|
    requires i < |values|
    requires NonNegative(sizes)
  {
    sizes[i] <= c && Opt(values, sizes, i, c - sizes[i]) + values[i] > Opt(values, sizes, i, c)
  }

  // ---------- sums ----------

  lemma {:induction false} SumInEmpty(xs: seq<int>, n: nat)
    requires n <= |xs|
    ensures SumIn(xs, n, {}) == 0
  {
    if n > 0 { SumInEmpty(xs, n - 1); }
  }

  // Indices at or above n do not matter.
  lemma {:induction false} SumInAgree(xs: seq<int>, n: nat, s: set<int>, t: set<int>)
    requires n <= |xs|
    requires forall k :: 0 <= k < n ==> (k in s <==> k in t)
    ensures SumIn(xs, n, s) == SumIn(xs, n, t)
  {
    if n > 0 { SumInAgree(xs, n - 1, s, t); }
  }

  lemma {:induction false} SumInAdd(xs: seq<int>, n: nat, s: set<int>, k: nat)
    requires k < n <= |xs| && k !in s
    ensures SumIn(xs, n, s + {k}) == SumIn(xs, n, s) + xs[k]
  {
    if n - 1 == k {
      SumInAgree(xs, n - 1, s + {k}, s);
    } else {
      SumInAdd(xs, n - 1, s, k);
    }
  }

  // A choice and its complement add up to the whole list.
  lemma {:induction false} SumInComplement(xs: seq<int>, n: nat, s: set<int>, t: set<int>)
    requires n <= |xs|
    requires forall k :: 0 <= k < n ==> (k in s <==> k !in t)
    ensures SumIn(xs, n, s) + SumIn(xs, n, t) == Sum(xs, n)
  {
    if n > 0 { SumInComplement(xs, n - 1, s, t); }
  }

  // With positive entries, adding indices makes the sum larger.
  lemma {:induction false} SumInMonotone(xs: seq<int>, n: nat, s: set<int>, t: set<int>)
    requires n <= |xs|
    requires forall k :: 0 <= k < n ==> xs[k] >= 0
    requires forall k :: 0 <= k < n && k in s ==> k in t
    ensures SumIn(xs, n, s) <= SumIn(xs, n, t)
  {
    if n > 0 { SumInMonotone(xs, n - 1, s, t); }
  }

  // ---------- Opt is the maximum ----------

  // No choice that fits beats Opt.
  lemma {:induction false} OptUpper(values: seq<int>, sizes: seq<int>, i: nat, c: nat, s: set<int>)
    requires |values| == |sizes| && i <= |values|
    requires NonNegative(sizes)
    requires SumIn(sizes, i, s) <= c
    ensures SumIn(values, i, s) <= Opt(values, sizes, i, c)
  {
    if i > 0 {
      if i - 1 in s {
        SumInMonotone(sizes, i - 1, {}, s);
        SumInEmpty(sizes, i - 1);
        OptUpper(values, sizes, i - 1, c - sizes[i - 1], s);
      } else {
        OptUpper(values, sizes, i - 1, c, s);
      }
    }
  }

  // Item k is free and worth having: it fits an empty capacity.
  predicate FreeGain(values: seq<int>, sizes: seq<int>, k: nat)
    requires |values| == |sizes| && k < |values|
  {
    sizes[k] == 0 && values[k] > 0
  }

  // An empty capacity holds exactly the free items.
  lemma {:induction false} OptZero(values: seq<int>, sizes: seq<int>, i: nat)
    requires |values| == |sizes| && i <= |values|
    requires NonNegative(sizes)
    ensures Opt(values, sizes, i, 0) >= 0
    ensures Opt(values, sizes, i, 0) == 0 <==> forall k :: 0 <= k < i ==> !FreeGain(values, sizes, k)
  {
    if i > 0 {
      OptZero(values, sizes, i - 1);
      assert FreeGain(values, sizes, i - 1) <==> Improves(values, sizes, i - 1, 0);
      if forall k :: 0 <= k < i ==> !FreeGain(values, sizes, k) {
        assert !FreeGain(values, sizes, i - 1);
      }
    }
  }

  // Some choice that fits reaches Opt.
  lemma {:induction false} OptAttained(values: seq<int>, sizes: seq<int>, i: nat, c: nat) returns (s: set<int>)
    requires |values| == |sizes| && i <= |values|
    requires NonNegative(sizes)
    ensures IsChoice(s, i) && SumIn(sizes, i, s) <= c
    ensures SumIn(values, i, s) == Opt(values, sizes, i, c)
  {
    if i == 0 {
      s := {};
    } else if Improves(values, sizes, i - 1, c) {
      var t := OptAttained(values, sizes, i - 1, c - sizes[i - 1]);
      s := t + {i - 1};
      SumInAgree(values, i - 1, s, t);
      SumInAgree(sizes, i - 1, s, t);
    } else {
      s := OptAttained(values, sizes, i - 1, c);
    }
  }

  // Items that do not improve leave the optimum where it was.
  lemma {:induction false} OptSkip(values: seq<int>, sizes: seq<int>, lo: nat, hi: nat, c: nat)
    requires |values| == |sizes| && lo <= hi <= |values|
    requires NonNegative(sizes)
    requires forall k :: lo <= k < hi ==> !Improves(values, sizes, k, c)
    ensures Opt(values, sizes, lo, c) == Opt(values, sizes, hi, c)
  {
    if lo < hi {
      assert !Improves(values, sizes, hi - 1, c);
      OptSkip(values, sizes, lo, hi - 1, c);
    }
  }

  // What the list for capacity c holds after the first i items.
  function BestOf(values: seq<int>, sizes: seq<int>, i: nat, c: nat): seq<int>
    requires |values| == |sizes| && i <= |values|
    requires NonNegative(sizes)
  {
    if i == 0 then []
    else BestOf(values, sizes, i - 1, c) + (if Improves(values, sizes, i - 1, c) then [i - 1] else [])
  }

  // The list is in item order and holds exactly the improving items.
  lemma {:induction false} BestOfExact(values: seq<int>, sizes: seq<int>, i: nat, c: nat)
    requires |values| == |sizes| && i <= |values|
    requires NonNegative(sizes)
    ensures var b := BestOf(values, sizes, i, c);
      && (forall a :: 0 <= a < |b| ==> 0 <= b[a] < i && Improves(values, sizes, b[a], c))
      && (forall a, a' :: 0 <= a < a' < |b| ==> b[a] < b[a'])
      && (forall k :: 0 <= k < i && Improves(values, sizes, k, c) ==> k in b)
  {
    if i > 0 {
      BestOfExact(values, sizes, i - 1, c);
      var b0 := BestOf(values, sizes, i - 1, c);
      var b := BestOf(values, sizes, i, c);
      assert b[..|b0|] == b0;
      if Improves(values, sizes, i - 1, c) { assert b[|b0|] == i - 1; }
      forall k | 0 <= k < i && Improves(values, sizes, k, c)
        ensures k in b
      {
        if k < i - 1 { assert k in b0; }
      }
    }
  }

  // What walking the lists back from capacity c picks among the first i items.
  ghost function Walk(values: seq<int>, sizes: seq<int>, i: nat, c: nat): set<int>
    requires |values| == |sizes| && i <= |values|
    requires NonNegative(sizes)
  {
    if i == 0 || c == 0 then {}
    else if Improves(values, sizes, i - 1, c) then Walk(values, sizes, i - 1, c - sizes[i - 1]) + {i - 1}
    else Walk(values, sizes, i - 1, c)
  }

  lemma {:induction false} WalkSkip(values: seq<int>, sizes: seq<int>, lo: nat, hi: nat, c: nat)
    requires |values| == |sizes| && lo <= hi <= |values|
    requires NonNegative(sizes)
    requires forall k :: lo <= k < hi ==> !Improves(values, sizes, k, c)
    ensures Walk(values, sizes, lo, c) == Walk(values, sizes, hi, c)
  {
    if lo < hi {
      assert !Improves(values, sizes, hi - 1, c);
      WalkSkip(values, sizes, lo, hi - 1, c);
    }
  }

  // The walk never overfills the target.
  lemma {:induction false} WalkFits(values: seq<int>, sizes: seq<int>, i: nat, c: nat)
    requires |values| == |sizes| && i <= |values|
    requires NonNegative(sizes)
    ensures IsChoice(Walk(values, sizes, i, c), i)
    ensures SumIn(sizes, i, Walk(values, sizes, i, c)) <= c
  {
    if i == 0 || c == 0 {
      SumInEmpty(sizes, i);
    } else {
      var c' := if Improves(values, sizes, i - 1, c) then c - sizes[i - 1] else c;
      WalkFits(values, sizes, i - 1, c');
      SumInAgree(sizes, i - 1, Walk(values, sizes, i, c), Walk(values, sizes, i - 1, c'));
    }
  }

  // Without free items the walk reaches the optimum.
  lemma {:induction false} WalkOptimal(values: seq<int>, sizes: seq<int>, i: nat, c: nat)
    requires |values| == |sizes| && i <= |values|
    requires NonNegative(sizes)
    requires forall k :: 0 <= k < i ==> !FreeGain(values, sizes, k)
    ensures SumIn(values, i, Walk(values, sizes, i, c)) == Opt(values, sizes, i, c)
  {
    if i == 0 || c == 0 {
      SumInEmpty(values, i);
      if c == 0 { OptZero(values, sizes, i); }
    } else {
      var c' := if Improves(values, sizes, i - 1, c) then c - sizes[i - 1] else c;
      WalkFits(values, sizes, i - 1, c');
      WalkOptimal(values, sizes, i - 1, c');
      SumInAgree(values, i - 1, Walk(values, sizes, i, c), Walk(values, sizes, i - 1, c'));
    }
  }

  // Rebuilding works for every target exactly when no item is free: with a free item the
  // target 0 already has a value that the walk, which stops at capacity 0, does not pick up.
  lemma WalkOptimalIff(values: seq<int>, sizes: seq<int>)
    requires |values| == |sizes|
    requires NonNegative(sizes)
    ensures (forall c: nat :: SumIn(values, |values|, Walk(values, sizes, |values|, c)) == Opt(values, sizes, |values|, c))
            <==> (forall k :: 0 <= k < |values| ==> !FreeGain(values, sizes, k))
  {
    var n := |values|;
    if forall k :: 0 <= k < n ==> !FreeGain(values, sizes, k) {
      forall c: nat
        ensures SumIn(values, n, Walk(values, sizes, n, c)) == Opt(values, sizes, n, c)
      {
        WalkOptimal(values, sizes, n, c);
      }
    } else {
      OptZero(values, sizes, n);
      SumInEmpty(values, n);
      assert Walk(values, sizes, n, 0) == {};
    }
  }

  // ---------- the solver ----------

  // One item updates the table in place, from the top capacity down, so that the entry for
  // j - size still belongs to the previous items when j is updated.
  method FillItem(values: seq<int>, sizes: seq<int>, i: nat, V: array<int>, best: array<seq<int>>)
    requires |values| == |sizes| && i < |values|
    requires NonNegative(sizes)
    requires V.Length == best.Length
    requires forall c :: 0 <= c < V.Length ==> V[c] == Opt(values, sizes, i, c)
    requires forall c :: 0 <= c < V.Length ==> best[c] == BestOf(values, sizes, i, c)
    modifies V, best
    ensures forall c :: 0 <= c < V.Length ==> V[c] == Opt(values, sizes, i + 1, c)
    ensures forall c :: 0 <= c < V.Length ==> best[c] == BestOf(values, sizes, i + 1, c)
  {
    var j := V.Length - 1;
    while j >= sizes[i]
      invariant -1 <= j < V.Length
      invariant forall c :: 0 <= c <= j ==> V[c] == Opt(values, sizes, i, c)
      invariant forall c :: 0 <= c <= j ==> best[c] == BestOf(values, sizes, i, c)
      invariant forall c :: j < c < V.Length ==> V[c] == Opt(values, sizes, i + 1, c)
      invariant forall c :: j < c < V.Length ==> best[c] == BestOf(values, sizes, i + 1, c)
    {
      var othersol := V[j - sizes[i]] + values[i];
      if othersol > V[j] {
        V[j] := othersol;
        best[j] := best[j] + [i];
      }
      j := j - 1;
    }
  }

  method Fill(values: seq<int>, sizes: seq<int>, V: array<int>, best: array<seq<int>>)
    requires |values| == |sizes|
    requires NonNegative(sizes)
    requires V.Length == best.Length
    modifies V, best
    ensures forall c :: 0 <= c < V.Length ==> V[c] == Opt(values, sizes, |values|, c)
    ensures forall c :: 0 <= c < V.Length ==> best[c] == BestOf(values, sizes, |values|, c)
  {
    for i := 0 to V.Length
      invariant forall c :: 0 <= c < i ==> V[c] == 0 && best[c] == []
    {
      V[i] := 0;
      best[i] := [];
    }
    for i := 0 to |values|
      invariant forall c :: 0 <= c < V.Length ==> V[c] == Opt(values, sizes, i, c)
      invariant forall c :: 0 <= c < V.Length ==> best[c] == BestOf(values, sizes, i, c)
    {
      FillItem(values, sizes, i, V, best);
    }
  }

  // The last entry of `b` below `last`, found from the back; -1 if there is none.
  method LastBelow(b: seq<int>, last: int) returns (a: int)
    ensures -1 <= a < |b|
    ensures a >= 0 ==> b[a] < last
    ensures forall k :: a < k < |b| ==> b[k] >= last
  {
    a := |b| - 1;
    while a >= 0 && !(b[a] < last)
      invariant -1 <= a < |b|
      invariant forall k :: a < k < |b| ==> b[k] >= last
    {
      a := a - 1;
    }
  }

  // Walk the lists back from the target, never going up in item number.  `picked` is the sum
  // the debug build keeps; the final capacity j is what the assert j >= 0 is about.
  method Rebuild(values: seq<int>, sizes: seq<int>, target: nat, best: seq<seq<int>>)
    returns (result: set<int>, picked: int, j: int)
    requires |values| == |sizes| <= INT_MAX
    requires NonNegative(sizes)
    requires |best| == target + 1
    requires forall c :: 0 <= c <= target ==> best[c] == BestOf(values, sizes, |values|, c)
    ensures result == Walk(values, sizes, |values|, target)
    ensures picked == SumIn(values, |values|, result)
    ensures j == target - SumIn(sizes, |sizes|, result) && j >= 0
  {
    var n := |values|;
    result := {};
    picked := 0;
    j := target;
    var last := INT_MAX;
    ghost var top := n;  // min(last, n)
    SumInEmpty(values, n);
    SumInEmpty(sizes, n);
    while j > 0
      invariant 0 <= j <= target
      invariant 0 <= top <= n && top == (if last < n then last else n)
      invariant forall k :: k in result ==> top <= k < n
      invariant SumIn(sizes, n, result) == target - j
      invariant picked == SumIn(values, n, result)
      invariant result + Walk(values, sizes, top, j) == Walk(values, sizes, n, target)
      decreases top
    {
      var a := LastBelow(best[j], last);
      BestOfExact(values, sizes, n, j);
      if a < 0 {
        WalkSkip(values, sizes, 0, top, j);
        break;
      }
      var k := best[j][a];
      WalkSkip(values, sizes, k + 1, top, j);
      SumInAdd(values, n, result, k);
      SumInAdd(sizes, n, result, k);
      last := k;
      picked := picked + values[k];
      result := result + {k};
      j := j - sizes[k];
      top := k;
    }
  }

  // No subset fitting the target is worth more than the value returned, some fitting subset
  // is worth that much, and the set returned fits.  Without free items (WalkOptimalIff) the set
  // returned is itself such a subset, which is what the last assert of the debug build checks.
  method Solve(values: seq<int>, sizes: seq<int>, target: nat) returns (value: int, result: set<int>)
    requires |values| == |sizes| <= INT_MAX
    requires NonNegative(sizes)
    ensures IsChoice(result, |values|)
    ensures SumIn(sizes, |sizes|, result) <= target
    ensures forall s :: IsChoice(s, |values|) && SumIn(sizes, |sizes|, s) <= target
              ==> SumIn(values, |values|, s) <= value
    ensures exists s :: IsChoice(s, |values|) && SumIn(sizes, |sizes|, s) <= target && SumIn(values, |values|, s) == value
    ensures result == Walk(values, sizes, |values|, target)
    ensures (forall k :: 0 <= k < |values| ==> !FreeGain(values, sizes, k)) ==> SumIn(values, |values|, result) == value
  {
    var V := new int[target + 1];
    var best := new seq<int>[target + 1](_ => []);
    Fill(values, sizes, V, best);
    value := V[target];
    var picked, j;
    result, picked, j := Rebuild(values, sizes, target, best[..]);
    WalkFits(values, sizes, |values|, target);
    forall s | IsChoice(s, |values|) && SumIn(sizes, |sizes|, s) <= target
      ensures SumIn(values, |values|, s) <= value
    {
      OptUpper(values, sizes, |values|, target, s);
    }
    ghost var s := OptAttained(values, sizes, |values|, target);
    if forall k :: 0 <= k < |values| ==> !FreeGain(values, sizes, k) {
      WalkOptimal(values, sizes, |values|, target);
      assert picked == value;
    }
  }

  // The solver's sums stay within the sum of all values: with non-negative values whose sum
  // fits in an int, neither the table nor the sum tried for item i overflows.
  lemma {:induction false} OptWithinSum(values: seq<int>, sizes: seq<int>, i: nat, c: nat)
    requires |values| == |sizes| && i <= |values|
    requires NonNegative(sizes)
    requires NonNegative(values)
    ensures 0 <= Opt(values, sizes, i, c) <= Sum(values, i)
  {
    if i > 0 {
      OptWithinSum(values, sizes, i - 1, c);
      if sizes[i - 1] <= c { OptWithinSum(values, sizes, i - 1, c - sizes[i - 1]); }
    }
  }

  // ---------- the smallest choice reaching a value ----------

  // s reaches the wanted value.
  ghost predicate Reaches(values: seq<int>, s: set<int>, want: int) {
    IsChoice(s, |values|) && SumIn(values, |values|, s) >= want
  }

  ghost function Complement(s: set<int>, n: nat): set<int> {
    set k | 0 <= k < n && k !in s
  }

  // Dual of the solver: leave out as much size as possible among values that can be spared.  Items of no
  // value but some size are free to leave out; with such items around the set returned may hold some of
  // them, and then is larger than the size returned (WalkOptimalIff).
  method MinSize(values: seq<int>, sizes: seq<int>, want: int) returns (size: int, result: set<int>)
    requires |values| == |sizes| <= INT_MAX
    requires NonNegative(values)
    ensures IsChoice(result, |values|)
    ensures (forall k :: 0 <= k < |values| ==> !FreeGain(sizes, values, k)) ==> size == SumIn(sizes, |sizes|, result)
    ensures Sum(values, |values|) >= want ==> Reaches(values, result, want)
    ensures Sum(values, |values|) < want ==> result == Complement({}, |values|)
    ensures forall s :: Reaches(values, s, want) ==> size <= SumIn(sizes, |sizes|, s)
  {
    var n := |values|;
    var sumValues := Total(values);
    var sumSizes := Total(sizes);
    var targetPrime := sumValues - want;
    var resultPrime: set<int> := {};
    var sizePrime := 0;
    SumInEmpty(sizes, n);
    if targetPrime >= 0 {
      sizePrime, resultPrime := Solve(sizes, values, targetPrime);
    }
    result := {};
    for i := 0 to n
      invariant forall k :: k in result <==> 0 <= k < i && k !in resultPrime
    {
      if i !in resultPrime {
        result := result + {i};
      }
    }
    size := sumSizes - sizePrime;
    SumInComplement(sizes, n, result, resultPrime);
    SumInComplement(values, n, result, resultPrime);
    forall s | Reaches(values, s, want)
      ensures size <= SumIn(sizes, n, s)
    {
      var t := Complement(s, n);
      SumInComplement(values, n, s, t);
      SumInComplement(sizes, n, s, t);
      assert IsChoice(t, n);
      SumInMonotone(values, n, {}, t);
      SumInEmpty(values, n);
    }
  }

  // std::accumulate
  method Total(xs: seq<int>) returns (t: int)
    ensures t == Sum(xs, |xs|)
  {
    t := 0;
    for i := 0 to |xs|
      invariant t == Sum(xs, i)
    {
      t := t + xs[i];
    }
  }

  // A choice is minimal for `want` when no choice of smaller size reaches it.
  ghost predicate Minimal(values: seq<int>, sizes: seq<int>, want: int, result: set<int>)
    requires |values| == |sizes|
  {
    && IsChoice(result, |values|)
    && (Sum(values, |values|) < want || Reaches(values, result, want))
    && forall s :: Reaches(values, s, want) ==> SumIn(sizes, |sizes|, result) <= SumIn(sizes, |sizes|, s)
  }

  // With positive sizes nothing in a minimal choice can be spared: the items before any item
  // of the choice do not reach the value.
  lemma MinimalPrefixShort(values: seq<int>, sizes: seq<int>, want: int, result: set<int>, k: int)
    requires |values| == |sizes|
    requires forall i :: 0 <= i < |values| ==> values[i] > 0 && sizes[i] > 0
    requires Minimal(values, sizes, want, result)
    requires k in result
    ensures SumIn(values, k, result) < want
  {
    var n := |values|;
    var before := set i | i in result && i < k;
    SumInAgree(values, k, before, result);
    SumInAbove(values, k, n, before);
    if SumIn(values, k, result) >= want {
      assert Reaches(values, before, want);
      SumInAdd(sizes, n, before, k);
      SumInMonotone(sizes, n, before + {k}, result);
      assert false;
    }
  }

  lemma {:induction false} SumInAbove(xs: seq<int>, k: nat, n: nat, s: set<int>)
    requires k <= n <= |xs|
    requires forall i :: i in s ==> i < k
    ensures SumIn(xs, n, s) == SumIn(xs, k, s)
  {
    if k < n { SumInAbove(xs, k, n - 1, s); }
  }
}
