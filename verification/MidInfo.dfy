// The message-id store: which messages were seen, and when each was deleted.  Several processes
// share one file; a save merges the file into the store before replacing it.
module MidInfo {
  import opened Common

  type Mid = string

  const INT_MAX: int := 0x7fff_ffff
  const KEPT: int := INT_MAX - 1          // TIME_T_MAX1: not removed
  const DEAD: int := INT_MAX              // TIME_T_DEAD: will not be written again

  const MIN_KEEP: int := 14 * 24 * 60 * 60
  const MIN_KEEP_DEL: int := 7 * 24 * 60 * 60

  datatype Stamp = Stamp(added: int, removed: int)
  type Table = map<Mid, Stamp>

  // One line of the file.
  datatype Line = Line(mid: Mid, stamp: Stamp)

  // ---------- removal times as a join semilattice ----------

  // KEPT lies below every time, other times are ordered as numbers.
  predicate Below(x: int, y: int) {
    x == KEPT || (y != KEPT && x <= y)
  }

  function Join(x: int, y: int): int {
    if Below(x, y) then y else x
  }

  // Join is the least upper bound of a total order with bottom KEPT, whose top is DEAD among
  // the times an int can hold.
  lemma JoinLattice(x: int, y: int, z: int)
    ensures Below(x, y) || Below(y, x)
    ensures Below(x, y) && Below(y, x) ==> x == y
    ensures Below(x, y) && Below(y, z) ==> Below(x, z)
    ensures Below(x, Join(x, y)) && Below(y, Join(x, y))
    ensures Below(x, z) && Below(y, z) ==> Below(Join(x, y), z)
    ensures Join(x, Join(y, z)) == Join(Join(x, y), z) && Join(x, y) == Join(y, x)
    ensures Below(KEPT, x) && (x <= DEAD ==> Below(x, DEAD))
  {
  }

  function JoinOpt(x: Option<int>, y: Option<int>): Option<int> {
    match (x, y)
    case (Some(a), Some(b)) => Some(Join(a, b))
    case (None, _) => y
    case (_, None) => x
  }

  function Removed(t: Table, mid: Mid): Option<int> {
    if mid in t then Some(t[mid].removed) else None
  }

  // The removal time a list of lines gives a message, all its lines joined.
  function RemovedIn(lines: seq<Line>, mid: Mid): Option<int> {
    if |lines| == 0 then None
    else
      var before := RemovedIn(lines[..|lines| - 1], mid);
      var last := lines[|lines| - 1];
      if last.mid == mid then JoinOpt(before, Some(last.stamp.removed)) else before
  }

  // ---------- merging ----------

  function InsertedFull(t: Table, mid: Mid, a: int, d: int): Table {
    if mid in t && d == KEPT && t[mid].removed != KEPT then t
    else if mid in t && t[mid].removed != KEPT && t[mid].removed > d then t
    else t[mid := Stamp(a, d)]
  }

  function Merged(t: Table, lines: seq<Line>): Table {
    if |lines| == 0 then t
    else
      var last := lines[|lines| - 1];
      InsertedFull(Merged(t, lines[..|lines| - 1]), last.mid, last.stamp.added, last.stamp.removed)
  }

  // insert_full joins the removal times.
  lemma InsertedFullJoins(t: Table, mid: Mid, a: int, d: int, m: Mid)
    ensures Removed(InsertedFull(t, mid, a, d), m)
            == if m == mid then JoinOpt(Removed(t, mid), Some(d)) else Removed(t, m)
  {
  }

  // Merging a file joins it in message by message, whatever the order of its lines.
  lemma {:induction false} MergedJoins(t: Table, lines: seq<Line>, m: Mid)
    ensures Removed(Merged(t, lines), m) == JoinOpt(Removed(t, m), RemovedIn(lines, m))
  {
    if |lines| > 0 {
      var n := |lines| - 1;
      MergedJoins(t, lines[..n], m);
      var r, s := Removed(t, m), RemovedIn(lines[..n], m);
      if lines[n].mid == m && r.Some? && s.Some? {
        JoinLattice(r.value, s.value, lines[n].stamp.removed);
      }
    }
  }

  // ---------- writing ----------

  // What a save writes: one line for each message that is not dead, in any order.
  ghost predicate Written(t: Table, lines: seq<Line>) {
    && (forall k :: 0 <= k < |lines| ==> lines[k].mid in t && t[lines[k].mid] == lines[k].stamp && lines[k].stamp.removed != DEAD)
    && (forall j, k :: 0 <= j < k < |lines| ==> lines[j].mid != lines[k].mid)
    && (forall m :: m in t && t[m].removed != DEAD ==> exists k :: 0 <= k < |lines| && lines[k].mid == m)
  }

  lemma {:induction false} RemovedInAbsent(lines: seq<Line>, m: Mid)
    requires forall k :: 0 <= k < |lines| ==> lines[k].mid != m
    ensures RemovedIn(lines, m) == None
  {
    if |lines| > 0 { RemovedInAbsent(lines[..|lines| - 1], m); }
  }

  lemma {:induction false} RemovedInUnique(lines: seq<Line>, k: nat)
    requires k < |lines|
    requires forall i, j :: 0 <= i < j < |lines| ==> lines[i].mid != lines[j].mid
    ensures RemovedIn(lines, lines[k].mid) == Some(lines[k].stamp.removed)
  {
    var n := |lines| - 1;
    if k == n {
      RemovedInAbsent(lines[..n], lines[k].mid);
    } else {
      RemovedInUnique(lines[..n], k);
    }
  }

  // A written file says about each message what the table says, less the dead ones.
  lemma WrittenReads(t: Table, lines: seq<Line>, m: Mid)
    requires Written(t, lines)
    ensures RemovedIn(lines, m) == if Removed(t, m) == Some(DEAD) then None else Removed(t, m)
  {
    if k :| 0 <= k < |lines| && lines[k].mid == m {
      RemovedInUnique(lines, k);
    } else {
      RemovedInAbsent(lines, m);
    }
  }

  // ---------- stamps ----------

  // The table without its dead messages.
  function Live(t: Table): Table {
    map m | m in t && t[m].removed != DEAD :: t[m]
  }

  // A written file, loaded into an empty store, gives back the table as it was, stamps included, less its
  // dead messages.
  lemma WrittenLoads(t: Table, lines: seq<Line>)
    requires Written(t, lines)
    ensures Merged(map[], lines) == Live(t)
  {
    var r := Merged(map[], lines);
    LoadsEach(lines, |lines|);
    assert lines[..|lines|] == lines;
    forall m
      ensures m in r <==> m in Live(t)
      ensures m in r ==> r[m] == Live(t)[m]
    {
      if k :| 0 <= k < |lines| && lines[k].mid == m {
        assert r[lines[k].mid] == lines[k].stamp;
      }
    }
  }

  lemma {:induction false} LoadsEach(lines: seq<Line>, n: nat)
    requires n <= |lines| && forall j, k :: 0 <= j < k < |lines| ==> lines[j].mid != lines[k].mid
    ensures forall k :: 0 <= k < n ==> lines[k].mid in Merged(map[], lines[..n]) && Merged(map[], lines[..n])[lines[k].mid] == lines[k].stamp
    ensures forall m :: m in Merged(map[], lines[..n]) ==> exists k :: 0 <= k < n && lines[k].mid == m
  {
    if n > 0 {
      LoadsEach(lines, n - 1);
      assert lines[..n][..n - 1] == lines[..n - 1];
    }
  }

  // Of two stamps the one removed later, the second when they are equal in that.
  function Pick(x: Option<Stamp>, y: Option<Stamp>): Option<Stamp> {
    match (x, y)
    case (Some(a), Some(b)) => if Below(a.removed, b.removed) then y else x
    case (None, _) => y
    case (_, None) => x
  }

  function Stamped(t: Table, mid: Mid): Option<Stamp> {
    if mid in t then Some(t[mid]) else None
  }

  // The stamp a list of lines gives a message: the last of those removed latest.
  function StampIn(lines: seq<Line>, mid: Mid): Option<Stamp> {
    if |lines| == 0 then None
    else
      var before, last := StampIn(lines[..|lines| - 1], mid), lines[|lines| - 1];
      if last.mid == mid then Pick(before, Some(last.stamp)) else before
  }

  lemma PickAssociates(x: Option<Stamp>, y: Option<Stamp>, z: Option<Stamp>)
    ensures Pick(x, Pick(y, z)) == Pick(Pick(x, y), z)
  {
  }

  // insert_full keeps one of the two stamps, whole: its own when that was removed later, else the one given.
  lemma InsertedFullPicks(t: Table, mid: Mid, a: int, d: int, m: Mid)
    ensures Stamped(InsertedFull(t, mid, a, d), m)
            == if m == mid then Pick(Stamped(t, mid), Some(Stamp(a, d))) else Stamped(t, m)
  {
  }

  // After a merge each message has its own stamp or the one the file gives it, the later removed one.
  lemma {:induction false} MergedPicks(t: Table, lines: seq<Line>, m: Mid)
    ensures Stamped(Merged(t, lines), m) == Pick(Stamped(t, m), StampIn(lines, m))
  {
    hide InsertedFull, Pick;
    if |lines| > 0 {
      var n := |lines| - 1;
      MergedPicks(t, lines[..n], m);
      InsertedFullPicks(Merged(t, lines[..n]), lines[n].mid, lines[n].stamp.added, lines[n].stamp.removed, m);
      PickAssociates(Stamped(t, m), StampIn(lines[..n], m), Some(lines[n].stamp));
    } else {
      PickNothing(Stamped(t, m));
    }
  }

  lemma PickNothing(x: Option<Stamp>)
    ensures Pick(x, None) == x
  {
  }

  // The stamp a file gives is that of one of its lines, and no line of the message was removed later.
  lemma {:induction false} StampInIs(lines: seq<Line>, m: Mid)
    ensures StampIn(lines, m).None? <==> forall k :: 0 <= k < |lines| ==> lines[k].mid != m
    ensures StampIn(lines, m).Some? ==> Line(m, StampIn(lines, m).value) in lines
    ensures StampIn(lines, m).Some? ==>
      forall k :: 0 <= k < |lines| && lines[k].mid == m ==> Below(lines[k].stamp.removed, StampIn(lines, m).value.removed)
  {
    if |lines| > 0 {
      var n := |lines| - 1;
      StampInIs(lines[..n], m);
      assert lines == lines[..n] + [lines[n]];
      assert lines[n].mid == m ==> lines[n] == Line(m, lines[n].stamp);
    }
  }

  // ---------- the store ----------

  class Store {
    var states: Table
    var changed: bool

    constructor ()
      ensures states == map[] && !changed
    {
      states := map[];
      changed := false;
    }

    predicate Check(mid: Mid)
      reads this
    {
      mid in states
    }

    method InsertFull(mid: Mid, a: int, d: int)
      modifies this`states
      ensures states == InsertedFull(old(states), mid, a, d)
    {
      if mid in states {
        var s := states[mid];
        if d == KEPT && s.removed != KEPT { return; }
        if s.removed != KEPT && s.removed > d { return; }
        states := states - {mid};
      }
      states := states[mid := Stamp(a, d)];
    }

    method Insert(mid: Mid, now: int)
      modifies this
      ensures states == InsertedNew(old(states), mid, now)
      ensures states == if mid in old(states) then old(states) else old(states)[mid := Stamp(now, KEPT)]
      ensures changed == (old(changed) || mid !in old(states))
    {
      if Check(mid) { return; }
      changed := true;
      states := states[mid := Stamp(now, KEPT)];
    }

    method Remove(mid: Mid)
      modifies this
      ensures states == Killed(old(states), {mid})
      ensures states == if mid in old(states) then old(states)[mid := old(states)[mid].(removed := DEAD)] else old(states)
      ensures changed == (old(changed) || mid in old(states))
    {
      if mid !in states { return; }
      states := states[mid := states[mid].(removed := DEAD)];
      changed := true;
    }

    // Does not mark the store as changed.
    method SetDelete(mid: Mid, now: int)
      modifies this`states
      ensures states == DeletedAt(old(states), mid, now)
      ensures states == if mid in old(states) then old(states)[mid := old(states)[mid].(removed := now)] else old(states)
    {
      if mid in states {
        states := states[mid := states[mid].(removed := now)];
      }
    }

    // Give up old messages that no cached part refers to any more.
    method DoDelete(related: set<Mid>, now: int)
      modifies this
      ensures states == Killed(old(states), Expired(old(states), related, now))
      ensures states.Keys == old(states).Keys
      ensures forall m :: m in states ==>
        var s := old(states)[m];
        var expired := s.added + MIN_KEEP < now && (s.removed == KEPT || s.removed + MIN_KEEP_DEL < now);
        states[m] == if m !in related && expired then s.(removed := DEAD) else s
      ensures changed == (old(changed) || Expired(old(states), related, now) != {})
    {
      var all := states.Keys;
      var todo := all;
      while todo != {}
        invariant todo <= all && all == old(states).Keys
        invariant states == Killed(old(states), Expired(old(states), related, now) - todo)
        invariant changed == (old(changed) || Expired(old(states), related, now) - todo != {})
      {
        var mid :| mid in todo;
        var s := states[mid];
        assert s == old(states)[mid];
        if mid !in related && IsExpired(s, now) {
          states := states[mid := s.(removed := DEAD)];
          changed := true;
          assert mid in Expired(old(states), related, now) - (todo - {mid});
        }
        todo := todo - {mid};
        assert states == Killed(old(states), Expired(old(states), related, now) - todo);
      }
      assert Expired(old(states), related, now) - {} == Expired(old(states), related, now);
    }

    // The merging part of load.
    method Merge(lines: seq<Line>)
      modifies this`states
      ensures states == Merged(old(states), lines)
    {
      for i := 0 to |lines|
        invariant states == Merged(old(states), lines[..i])
      {
        assert lines[..i + 1][..i] == lines[..i];
        InsertFull(lines[i].mid, lines[i].stamp.added, lines[i].stamp.removed);
      }
      assert lines[..|lines|] == lines;
    }

    // The writing part of save.
    method Write() returns (lines: seq<Line>)
      ensures Written(states, lines)
    {
      lines := [];
      var todo := states.Keys;
      while todo != {}
        invariant todo <= states.Keys
        invariant forall k :: 0 <= k < |lines| ==> lines[k].mid in states && lines[k].mid !in todo
        invariant forall k :: 0 <= k < |lines| ==> states[lines[k].mid] == lines[k].stamp && lines[k].stamp.removed != DEAD
        invariant forall j, k :: 0 <= j < k < |lines| ==> lines[j].mid != lines[k].mid
        invariant forall m :: m in states && m !in todo && states[m].removed != DEAD
                    ==> exists k :: 0 <= k < |lines| && lines[k].mid == m
      {
        var mid :| mid in todo;
        todo := todo - {mid};
        if states[mid].removed != DEAD {
          ghost var before := lines;
          lines := lines + [Line(mid, states[mid])];
          assert lines[|before|].mid == mid;
          assert forall k :: 0 <= k < |before| ==> lines[k] == before[k];
        }
      }
    }
  }

  function InsertedNew(t: Table, mid: Mid, now: int): Table {
    if mid in t then t else t[mid := Stamp(now, KEPT)]
  }

  function DeletedAt(t: Table, mid: Mid, now: int): Table {
    if mid in t then t[mid := t[mid].(removed := now)] else t
  }

  function Killed(t: Table, mids: set<Mid>): Table {
    map m | m in t :: if m in mids then t[m].(removed := DEAD) else t[m]
  }

  predicate IsExpired(s: Stamp, now: int) {
    (s.removed == KEPT && s.added + MIN_KEEP < now) ||
    (s.added + MIN_KEEP < now && s.removed + MIN_KEEP_DEL < now)
  }

  function Expired(t: Table, related: set<Mid>, now: int): set<Mid> {
    set m | m in t && m !in related && IsExpired(t[m], now)
  }
}
