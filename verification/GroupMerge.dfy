// Reading the caches of several groups side by side and merging files with the same key.
module GroupMerge {
  import opened Common
  import opened FileOrder
  import opened CacheFiles

  // ---------- merging one file into another ----------

  // The part has the number of a part with another message-id.
  ghost predicate Conflicts(p: Part, ps: seq<Part>) {
    exists k :: 0 <= k < |ps| && ps[k].partnum == p.partnum && ps[k].mid != p.mid
  }

  function Bag(key: Key, ps: seq<Part>): multiset<Item> {
    multiset(PartsItems(key, ps))
  }

  // The parts that clash with what the target had.
  ghost function Leftover(ps: seq<Part>, target: seq<Part>): seq<Part> {
    if |ps| == 0 then []
    else Leftover(ps[..|ps| - 1], target) + (if Conflicts(ps[|ps| - 1], target) then [ps[|ps| - 1]] else [])
  }

  predicate SameMessage(p: Part, q: Part) {
    p.partnum == q.partnum && p.mid == q.mid
  }

  // Where the part with a number is, or would be inserted, in a sorted list.
  function PlaceOf(ps: seq<Part>, partnum: int): (k: nat)
    ensures k <= |ps|
  {
    if |ps| == 0 || partnum <= ps[0].partnum then 0 else 1 + PlaceOf(ps[1..], partnum)
  }

  lemma {:induction false} PlaceIs(ps: seq<Part>, partnum: int, k: nat)
    requires k <= |ps| && (forall i :: 0 <= i < k ==> ps[i].partnum < partnum) && (k < |ps| ==> partnum <= ps[k].partnum)
    ensures PlaceOf(ps, partnum) == k
  {
    if k > 0 { PlaceIs(ps[1..], partnum, k - 1); }
  }

  // m with the articles of p moved in; None when they clash.
  function MovePart(m: File, p: Part): Option<File> {
    var k := PlaceOf(m.parts, p.partnum);
    if k < |m.parts| && m.parts[k].partnum == p.partnum then
      if m.parts[k].mid != p.mid then None
      else Some(m.(parts := m.parts[k := m.parts[k].(articles := m.parts[k].articles + p.articles)]))
    else
      Some(m.(parts := m.parts[..k] + [p] + m.parts[k..], have := m.have + if CountPartnum(p.partnum, m.key.req) then 1 else 0))
  }

  // m with all that can be moved of ps, and what is left.
  function MoveParts(m: File, ps: seq<Part>): (File, seq<Part>) {
    if |ps| == 0 then (m, [])
    else
      var n := |ps| - 1;
      var (m1, left) := MoveParts(m, ps[..n]);
      match MovePart(m1, ps[n])
      case None => (m1, left + [ps[n]])
      case Some(m2) => (m2, left)
  }

  // Both files after merging the second into the first.
  function MergedPair(m: File, f: File): (File, File) {
    var (m1, left) := MoveParts(m.(update := if f.update > m.update then f.update else m.update), f.parts);
    (m1, f.(parts := left))
  }

  // All parts of ps that count clash with the target.
  ghost predicate CountedStay(ps: seq<Part>, target: seq<Part>, req: int) {
    forall k :: 0 <= k < |ps| && CountPartnum(ps[k].partnum, req) ==> Conflicts(ps[k], target)
  }

  // What is left has as many parts that count exactly when all of these stay.
  lemma {:induction false} LeftoverCountIff(ps: seq<Part>, target: seq<Part>, req: int)
    ensures Counted(Leftover(ps, target), req) <= Counted(ps, req)
    ensures Counted(Leftover(ps, target), req) == Counted(ps, req) <==> CountedStay(ps, target, req)
  {
    hide Conflicts, CountPartnum;
    if |ps| > 0 {
      var n := |ps| - 1;
      LeftoverCountIff(ps[..n], target, req);
      assert ps == ps[..n] + [ps[n]];
      CountedAppend(ps[..n], [ps[n]], req);
      CountedAppend(Leftover(ps[..n], target), [ps[n]], req);
      assert [ps[n]][1..] == [];
      assert Leftover(ps[..n], target) + [] == Leftover(ps[..n], target);
    }
  }

  // Move the parts of f into m.  Articles of a part m lacks, or has with the same message-id, are
  // moved; a part whose number m has with another message-id stays behind.  No article is lost or made.
  // m's count of parts stays as right as it was; f's is not touched, so if it was right, it is right
  // afterwards exactly when no part that counts was moved.
  method MergeFile(m: File, f: File) returns (m': File, f': File)
    requires m.key == f.key && PartsOk(m.parts) && PartsOk(f.parts)
    ensures m'.key == m.key && f'.key == f.key
    ensures PartsOk(m'.parts) && PartsOk(f'.parts) && |m'.parts| >= |m.parts|
    ensures Bag(m.key, m'.parts) + Bag(f.key, f'.parts) == Bag(m.key, m.parts) + Bag(f.key, f.parts)
    ensures Bag(m.key, m.parts) <= Bag(m.key, m'.parts)
    ensures f'.parts == Leftover(f.parts, m.parts)
    ensures m'.have - Counted(m'.parts, m.key.req) == m.have - Counted(m.parts, m.key.req)
    ensures f'.have == f.have
    ensures f.have == Counted(f.parts, f.key.req) ==>
      (f'.have == Counted(f'.parts, f'.key.req) <==> CountedStay(f.parts, m.parts, f.key.req))
    ensures (m', f') == MergedPair(m, f)
    ensures m'.update == if f.update > m.update then f.update else m.update
    ensures m' == m.(parts := m'.parts, have := m'.have, update := m'.update) && f' == f.(parts := f'.parts)
    ensures FromBoth(m'.parts, m.parts, f.parts)
  {
    hide *;
    m', f' := m, f;
    if f.update > m'.update { m' := m'.(update := f.update); }
    var fpi := 0;
    ghost var m1, i := m', 0;
    MergingStart(m1, f.parts);
    FromFirst(m1.parts, f.parts);
    while fpi < |f'.parts|
      invariant f' == f.(parts := f'.parts) && fpi <= |f'.parts|
      invariant Merging(m1, f.parts, i, m', f'.parts, fpi)
      invariant i <= |f.parts| && FromBoth(m'.parts, m1.parts, f.parts[..i])
      decreases |f'.parts| - fpi
    {
      var p := f'.parts[fpi];
      MergingNext(m1, f.parts, i, m', f'.parts, fpi);
      var mp, clash := AddArticles(m', p);
      if clash {
        MergingClash(m1, f.parts, i, m', f'.parts, fpi);
        StillFromBoth(m'.parts, m1.parts, f.parts, i);
        fpi := fpi + 1;
      } else {
        MergingMove(m1, f.parts, i, m', mp, f'.parts, fpi);
        MoreFromBoth(m'.parts, m1.parts, f.parts, i, mp.parts);
        m' := mp;
        f' := f'.(parts := f'.parts[..fpi] + f'.parts[fpi + 1..]);
      }
      i := i + 1;
    }
    MergingEnd(m1, f.parts, i, m', f'.parts, fpi);
    assert f.parts[..i] == f.parts;
    PairIs(m, f, m', f'.parts);
    LeftoverCountIff(f.parts, m1.parts, f.key.req);
  }

  // The articles the parts of fs with the same message bring.
  ghost function MoreOf(p: Part, fs: seq<Part>): seq<Article> {
    if |fs| == 0 then [] else MoreOf(p, fs[..|fs| - 1]) + (if SameMessage(fs[|fs| - 1], p) then fs[|fs| - 1].articles else [])
  }

  // q is a part of ms with the articles fs has for its message behind its own, or a part of fs with a number
  // ms lacks; dates and message-ids stay.
  ghost predicate MergedPart(q: Part, ms: seq<Part>, fs: seq<Part>) {
    || (exists p :: p in ms && q == p.(articles := p.articles + MoreOf(p, fs)))
    || (q in fs && forall p :: p in ms ==> p.partnum != q.partnum)
  }

  ghost predicate HasNumber(ps: seq<Part>, partnum: int) {
    exists k :: 0 <= k < |ps| && ps[k].partnum == partnum
  }

  ghost predicate FromBoth(rs: seq<Part>, ms: seq<Part>, fs: seq<Part>) {
    && (forall k :: 0 <= k < |rs| ==> MergedPart(rs[k], ms, fs))
    && forall k :: 0 <= k < |ms| ==> HasNumber(rs, ms[k].partnum)
  }

  // p has joined the part with its number, or is a part of its own.
  ghost predicate PartMovedAt(ps: seq<Part>, p: Part, rs: seq<Part>, k: nat) {
    if k < |ps| && ps[k].partnum == p.partnum then
      ps[k].mid == p.mid && rs == ps[k := ps[k].(articles := ps[k].articles + p.articles)]
    else
      k <= |ps| && (forall i :: 0 <= i < |ps| ==> ps[i].partnum != p.partnum) && rs == ps[..k] + [p] + ps[k..]
  }

  ghost predicate PartMoved(ps: seq<Part>, p: Part, rs: seq<Part>) {
    exists k: nat :: PartMovedAt(ps, p, rs, k)
  }

  lemma FromFirst(ms: seq<Part>, fs: seq<Part>)
    ensures FromBoth(ms, ms, fs[..0])
  {
    forall k | 0 <= k < |ms|
      ensures MergedPart(ms[k], ms, fs[..0])
    {
      assert ms[k].articles + [] == ms[k].articles && ms[k] in ms;
    }
  }

  lemma OneMoreOf(p: Part, fs: seq<Part>, i: nat)
    requires i < |fs|
    ensures MoreOf(p, fs[..i + 1]) == MoreOf(p, fs[..i]) + (if SameMessage(fs[i], p) then fs[i].articles else [])
  {
    assert fs[..i + 1][..i] == fs[..i];
  }

  // A part that is not the one fs[i] joins.
  lemma OtherPart(q: Part, ms: seq<Part>, fs: seq<Part>, i: nat)
    requires i < |fs| && MergedPart(q, ms, fs[..i]) && !SameMessage(fs[i], q)
    ensures MergedPart(q, ms, fs[..i + 1])
  {
    hide MoreOf;
    if p :| p in ms && q == p.(articles := p.articles + MoreOf(p, fs[..i])) {
      OneMoreOf(p, fs, i);
      assert MoreOf(p, fs[..i]) + [] == MoreOf(p, fs[..i]);
    } else {
      assert q in fs[..i + 1];
    }
  }

  lemma StillFromBoth(rs: seq<Part>, ms: seq<Part>, fs: seq<Part>, i: nat)
    requires i < |fs| && PartsOk(rs) && FromBoth(rs, ms, fs[..i]) && Conflicts(fs[i], rs)
    ensures FromBoth(rs, ms, fs[..i + 1])
  {
    hide MergedPart, HasNumber;
    forall k | 0 <= k < |rs|
      ensures MergedPart(rs[k], ms, fs[..i + 1])
    {
      OtherPart(rs[k], ms, fs, i);
    }
  }

  lemma MoreFromBoth(rs: seq<Part>, ms: seq<Part>, fs: seq<Part>, i: nat, rs': seq<Part>)
    requires i < |fs| && PartsOk(rs) && PartsOk(fs) && FromBoth(rs, ms, fs[..i]) && PartMoved(rs, fs[i], rs')
    ensures FromBoth(rs', ms, fs[..i + 1])
  {
    var k: nat :| PartMovedAt(rs, fs[i], rs', k);
    if k < |rs| && rs[k].partnum == fs[i].partnum { Joined(rs, ms, fs, i, rs', k); } else { Added(rs, ms, fs, i, rs', k); }
  }

  lemma Joined(rs: seq<Part>, ms: seq<Part>, fs: seq<Part>, i: nat, rs': seq<Part>, k: nat)
    requires i < |fs| && PartsOk(rs) && PartsOk(fs) && FromBoth(rs, ms, fs[..i])
    requires k < |rs| && SameMessage(rs[k], fs[i]) && rs' == rs[k := rs[k].(articles := rs[k].articles + fs[i].articles)]
    ensures FromBoth(rs', ms, fs[..i + 1])
  {
    forall j | 0 <= j < |ms|
      ensures HasNumber(rs', ms[j].partnum)
    {
      var x :| 0 <= x < |rs| && rs[x].partnum == ms[j].partnum;
      assert rs'[x].partnum == rs[x].partnum;
    }
    assert MergedPart(rs[k], ms, fs[..i]);
    JoinedOne(rs[k], ms, fs, i);
    hide MergedPart, HasNumber;
    forall j | 0 <= j < |rs'|
      ensures MergedPart(rs'[j], ms, fs[..i + 1])
    {
      if j != k { OtherPart(rs[j], ms, fs, i); }
    }
  }

  lemma JoinedOne(q: Part, ms: seq<Part>, fs: seq<Part>, i: nat)
    requires i < |fs| && PartsOk(fs) && MergedPart(q, ms, fs[..i]) && SameMessage(q, fs[i])
    ensures MergedPart(q.(articles := q.articles + fs[i].articles), ms, fs[..i + 1])
  {
    hide MoreOf;
    assert q !in fs[..i];
    var p :| p in ms && q == p.(articles := p.articles + MoreOf(p, fs[..i]));
    OneMoreOf(p, fs, i);
    Assoc(p.articles, MoreOf(p, fs[..i]), fs[i].articles);
  }

  lemma NumbersKept(rs: seq<Part>, ms: seq<Part>, fs: seq<Part>, i: nat, rs': seq<Part>, k: nat)
    requires i < |fs| && FromBoth(rs, ms, fs[..i])
    requires k <= |rs| && (forall j :: 0 <= j < |rs| ==> rs[j].partnum != fs[i].partnum) && rs' == rs[..k] + [fs[i]] + rs[k..]
    ensures forall j :: 0 <= j < |ms| ==> HasNumber(rs', ms[j].partnum) && ms[j].partnum != fs[i].partnum
  {
    hide MergedPart;
    forall j | 0 <= j < |ms|
      ensures HasNumber(rs', ms[j].partnum) && ms[j].partnum != fs[i].partnum
    {
      assert HasNumber(rs, ms[j].partnum);
      var x :| 0 <= x < |rs| && rs[x].partnum == ms[j].partnum;
      assert rs'[if x < k then x else x + 1] == rs[x];
    }
  }

  lemma Added(rs: seq<Part>, ms: seq<Part>, fs: seq<Part>, i: nat, rs': seq<Part>, k: nat)
    requires i < |fs| && FromBoth(rs, ms, fs[..i])
    requires k <= |rs| && (forall j :: 0 <= j < |rs| ==> rs[j].partnum != fs[i].partnum) && rs' == rs[..k] + [fs[i]] + rs[k..]
    ensures FromBoth(rs', ms, fs[..i + 1])
  {
    NumbersKept(rs, ms, fs, i, rs', k);
    assert fs[i] in fs[..i + 1] by { assert fs[..i + 1][i] == fs[i]; }
    assert MergedPart(fs[i], ms, fs[..i + 1]);
    hide MergedPart, HasNumber;
    forall j | 0 <= j < |rs'|
      ensures MergedPart(rs'[j], ms, fs[..i + 1])
    {
      if j != k {
        var x := if j < k then j else j - 1;
        assert rs'[j] == rs[x];
        OtherPart(rs[x], ms, fs, i);
      }
    }
  }

  // The first i parts of ps have been dealt with: those that clash are at the front of fps.
  ghost predicate Merging(m0: File, ps: seq<Part>, i: nat, m: File, fps: seq<Part>, fpi: nat) {
    && i <= |ps| && PartsOk(ps)
    && fps == Leftover(ps[..i], m0.parts) + ps[i..] && fpi == |Leftover(ps[..i], m0.parts)|
    && m == m0.(parts := m.parts, have := m.have)
    && PartsOk(m.parts) && |m.parts| >= |m0.parts|
    && KeepsMessages(m0.parts, m.parts, ps[i..])
    && m.have - Counted(m.parts, m0.key.req) == m0.have - Counted(m0.parts, m0.key.req)
    && Bag(m0.key, m.parts) + Bag(m0.key, fps) == Bag(m0.key, m0.parts) + Bag(m0.key, ps)
    && Bag(m0.key, m0.parts) <= Bag(m0.key, m.parts)
    && (m, Leftover(ps[..i], m0.parts)) == MoveParts(m0, ps[..i])
  }

  lemma MergingStart(m: File, ps: seq<Part>)
    requires PartsOk(m.parts) && PartsOk(ps)
    ensures Merging(m, ps, 0, m, ps, 0)
  {
    NothingLeft(ps, m.parts);
  }

  lemma MergingNext(m0: File, ps: seq<Part>, i: nat, m: File, fps: seq<Part>, fpi: nat)
    requires Merging(m0, ps, i, m, fps, fpi) && fpi < |fps|
    ensures i < |ps| && fps[fpi] == ps[i] && PartsOk(m.parts) && |fps[fpi].articles| > 0 && PartsOk(ps)
  {
  }

  lemma MergingClash(m0: File, ps: seq<Part>, i: nat, m: File, fps: seq<Part>, fpi: nat)
    requires Merging(m0, ps, i, m, fps, fpi) && fpi < |fps| && Conflicts(fps[fpi], m.parts) && MovePart(m, fps[fpi]).None?
    ensures Merging(m0, ps, i + 1, m, fps, fpi + 1)
  {
    hide Conflicts, Bag, Counted, PartsOk;
    var rest := ps[i..];
    assert rest[0] == ps[i] && Agree(rest[0], m0.parts, m.parts);
    assert ps[..i + 1][..i] == ps[..i] && rest == [ps[i]] + ps[i + 1..];
    Assoc(Leftover(ps[..i], m0.parts), [ps[i]], ps[i + 1..]);
    var next := ps[i + 1..];
    forall k | 0 <= k < |next|
      ensures Agree(next[k], m0.parts, m.parts)
    {
      assert next[k] == rest[k + 1];
    }
  }

  lemma MergingMove(m0: File, ps: seq<Part>, i: nat, m: File, mp: File, fps: seq<Part>, fpi: nat)
    requires Merging(m0, ps, i, m, fps, fpi) && fpi < |fps| && !Conflicts(fps[fpi], m.parts)
    requires Moved(m, fps[fpi], mp)
    ensures Merging(m0, ps, i + 1, mp, fps[..fpi] + fps[fpi + 1..], fpi)
  {
    hide Conflicts, Counted, PartsItems, PartItems;
    var rest := ps[i..];
    var l := Leftover(ps[..i], m0.parts);
    assert rest[0] == ps[i] && Agree(rest[0], m0.parts, m.parts);
    assert ps[..i + 1][..i] == ps[..i] && rest == [ps[i]] + ps[i + 1..];
    Splice(fps, l, rest, []);
    assert l + [] == l;
    RemovePartBag(m0.key, fps, fpi);
    var next := ps[i + 1..];
    forall k | 0 <= k < |next|
      ensures Agree(next[k], m0.parts, mp.parts)
    {
      assert next[k] == rest[k + 1] == ps[i + 1 + k];
      assert Agree(rest[k + 1], m0.parts, m.parts);
    }
  }

  lemma MergingEnd(m0: File, ps: seq<Part>, i: nat, m: File, fps: seq<Part>, fpi: nat)
    requires Merging(m0, ps, i, m, fps, fpi) && fpi == |fps|
    ensures i == |ps|
    ensures fps == Leftover(ps, m0.parts) && PartsOk(fps)
    ensures m == m0.(parts := m.parts, have := m.have)
    ensures PartsOk(m.parts) && |m.parts| >= |m0.parts|
    ensures m.have - Counted(m.parts, m0.key.req) == m0.have - Counted(m0.parts, m0.key.req)
    ensures Bag(m0.key, m.parts) + Bag(m0.key, fps) == Bag(m0.key, m0.parts) + Bag(m0.key, ps)
    ensures Bag(m0.key, m0.parts) <= Bag(m0.key, m.parts)
    ensures (m, fps) == MoveParts(m0, ps)
  {
    assert ps[i..] == [] && ps[..i] == ps;
    LeftoverOk(ps, m0.parts);
  }

  lemma PairIs(m: File, f: File, m': File, left: seq<Part>)
    requires (m', left) == MoveParts(m.(update := if f.update > m.update then f.update else m.update), f.parts)
    ensures (m', f.(parts := left)) == MergedPair(m, f)
  {
    hide MoveParts;
  }

  // Two lists clash with p alike.
  ghost predicate Agree(p: Part, a: seq<Part>, b: seq<Part>) {
    Conflicts(p, b) <==> Conflicts(p, a)
  }

  // Whether a number further on is taken by another message is as it was at the start.
  ghost predicate KeepsMessages(start: seq<Part>, now: seq<Part>, rest: seq<Part>) {
    forall k :: 0 <= k < |rest| ==> Agree(rest[k], start, now)
  }

  // p has been moved into m, giving r.
  ghost predicate Moved(m: File, p: Part, r: File) {
    && MovePart(m, p) == Some(r)
    && r == m.(parts := r.parts, have := r.have)
    && PartsOk(r.parts) && |r.parts| >= |m.parts|
    && Bag(m.key, r.parts) == Bag(m.key, m.parts) + multiset(PartItems(m.key, p))
    && r.have - Counted(r.parts, m.key.req) == m.have - Counted(m.parts, m.key.req)
    && forall q: Part :: q.partnum != p.partnum ==> Agree(q, m.parts, r.parts)
  }

  lemma NothingLeft(ps: seq<Part>, target: seq<Part>)
    ensures ps[..0] == [] && ps[0..] == ps && Leftover([], target) == [] && [] + ps == ps
  {
  }

  lemma {:induction false} LeftoverOk(ps: seq<Part>, target: seq<Part>)
    requires PartsOk(ps)
    ensures PartsOk(Leftover(ps, target))
    ensures forall p :: p in Leftover(ps, target) <==> p in ps && Conflicts(p, target)
  {
    hide Conflicts;
    if |ps| > 0 {
      var n := |ps| - 1;
      LeftoverOk(ps[..n], target);
      assert ps == ps[..n] + [ps[n]];
      var l := Leftover(ps[..n], target);
      forall k | 0 <= k < |l|
        ensures l[k].partnum < ps[n].partnum
      {
        assert l[k] in ps[..n];
      }
    }
  }

  // The articles of p go to m's part with its number, or to a new part; clash when m has the number
  // with another message-id.
  method AddArticles(m: File, p: Part) returns (r: File, clash: bool)
    requires PartsOk(m.parts) && |p.articles| > 0
    ensures clash <==> Conflicts(p, m.parts)
    ensures clash ==> r == m
    ensures clash ==> MovePart(m, p).None?
    ensures !clash ==> Moved(m, p, r) && PartMoved(m.parts, p, r.parts)
  {
    hide PartsItems, PartItems, Counted, PartMoved;
    r, clash := m, false;
    var k := FindPart(m.parts, p.partnum);
    if k.None? {
      ghost var place;
      r, place := FileAddPart(r, Part(p.partnum, [], p.date, p.mid));
      PlaceIsIndex(m.parts, Part(p.partnum, [], p.date, p.mid), place, r.parts);
      k := FindPart(r.parts, p.partnum);
      PlaceIs(m.parts, p.partnum, place);
      NewPart(m, r, place, p);
      assert [] + p.articles == p.articles;
      assert (m.parts[..place] + [Part(p.partnum, [], p.date, p.mid)] + m.parts[place..])[place := p]
          == m.parts[..place] + [p] + m.parts[place..];
      MovedIs(m.parts, p, m.parts[..place] + [p] + m.parts[place..], place);
    } else if m.parts[k.value].mid != p.mid {
      PlaceIs(m.parts, p.partnum, k.value);
      return m, true;
    } else {
      PlaceIs(m.parts, p.partnum, k.value);
      ExistingPart(m, k.value, p);
      MovedIs(m.parts, p, m.parts[k.value := m.parts[k.value].(articles := m.parts[k.value].articles + p.articles)], k.value);
    }
    var mp := r.parts[k.value];
    r := r.(parts := r.parts[k.value := mp.(articles := mp.articles + p.articles)]);
  }

  lemma MovedIs(ps: seq<Part>, p: Part, rs: seq<Part>, k: nat)
    requires PartMovedAt(ps, p, rs, k)
    ensures PartMoved(ps, p, rs)
  {
  }

  lemma PlaceIsIndex(ps: seq<Part>, p: Part, k: nat, r: seq<Part>)
    requires Sorted(r) && k <= |ps| && r == ps[..k] + [p] + ps[k..]
    ensures IndexOf(r, p.partnum) == Some(k)
  {
    assert r[k] == p;
    IndexIs(r, k);
  }

  lemma ExistingPart(m: File, k: nat, p: Part)
    requires PartsOk(m.parts) && k < |m.parts| && SameMessage(m.parts[k], p)
    ensures !Conflicts(p, m.parts)
    ensures var r := m.parts[k := m.parts[k].(articles := m.parts[k].articles + p.articles)];
      && PartsOk(r)
      && Bag(m.key, r) == Bag(m.key, m.parts) + multiset(PartItems(m.key, p))
      && Counted(r, m.key.req) == Counted(m.parts, m.key.req)
      && forall q: Part :: q.partnum != p.partnum ==> Agree(q, m.parts, r)
  {
    var q := m.parts[k].(articles := m.parts[k].articles + p.articles);
    var r := m.parts[k := q];
    assert PartsOk(r);
    SameNumbers(m.parts, r);
    hide Conflicts, PartsOk;
    assert m.parts == m.parts[..k] + [m.parts[k]] + m.parts[k + 1..];
    assert r == m.parts[..k] + [q] + m.parts[k + 1..];
    assert PartItems(m.key, q) == PartItems(m.key, m.parts[k]) + PartItems(m.key, p);
    hide PartsItems, PartItems, Counted;
    PartBetween(m.key, m.parts[..k], m.parts[k], m.parts[k + 1..], m.key.req);
    PartBetween(m.key, m.parts[..k], q, m.parts[k + 1..], m.key.req);
  }

  // Lists with the same numbers and messages clash with the same parts.
  lemma SameNumbers(a: seq<Part>, b: seq<Part>)
    requires |a| == |b| && forall i :: 0 <= i < |a| ==> SameMessage(a[i], b[i])
    ensures forall q: Part :: Agree(q, a, b)
  {
  }

  lemma NewPart(m: File, r: File, place: nat, p: Part)
    requires PartsOk(m.parts) && IndexOf(m.parts, p.partnum).None? && |p.articles| > 0
    requires forall k :: 0 <= k < |m.parts| ==> m.parts[k].partnum != p.partnum
    requires IsPlace(m.parts, p.partnum, place)
    requires r.parts == m.parts[..place] + [Part(p.partnum, [], p.date, p.mid)] + m.parts[place..]
    requires r.have == m.have + if CountPartnum(p.partnum, m.key.req) then 1 else 0
    ensures !Conflicts(p, m.parts)
    ensures var s := r.parts[place := r.parts[place].(articles := r.parts[place].articles + p.articles)];
      && PartsOk(s) && |s| == |m.parts| + 1
      && Bag(m.key, s) == Bag(m.key, m.parts) + multiset(PartItems(m.key, p))
      && r.have - Counted(s, m.key.req) == m.have - Counted(m.parts, m.key.req)
      && forall q: Part :: q.partnum != p.partnum ==> Agree(q, m.parts, s)
  {
    var q := Part(p.partnum, p.articles, p.date, p.mid);
    assert [] + p.articles == p.articles;
    var s := r.parts[place := q];
    assert s == m.parts[..place] + [q] + m.parts[place..];
    AddedPart(m.key, m.parts, q, place, m.key.req);
    assert PartItems(m.key, q) == PartItems(m.key, p);
    hide PartsItems, PartItems, Counted;
    assert PartsOk(s) by { InsertedOk(m.parts, q, place); }
    forall x: Part | x.partnum != p.partnum
      ensures Agree(x, m.parts, s)
    {
      InsertedConflicts(x, m.parts, q, place);
    }
  }

  lemma InsertedOk(ps: seq<Part>, p: Part, k: nat)
    requires PartsOk(ps) && IsPlace(ps, p.partnum, k) && |p.articles| > 0
    ensures PartsOk(ps[..k] + [p] + ps[k..])
  {
    var r := ps[..k] + [p] + ps[k..];
    forall i | 0 <= i < |r|
      ensures i < k ==> r[i] == ps[i]
      ensures i > k ==> r[i] == ps[i - 1]
    {
    }
  }

  lemma InsertedConflicts(x: Part, ps: seq<Part>, p: Part, k: nat)
    requires k <= |ps| && x.partnum != p.partnum
    ensures Conflicts(x, ps[..k] + [p] + ps[k..]) <==> Conflicts(x, ps)
  {
    var r := ps[..k] + [p] + ps[k..];
    if Conflicts(x, ps) {
      var i :| 0 <= i < |ps| && ps[i].partnum == x.partnum && ps[i].mid != x.mid;
      assert r[if i < k then i else i + 1] == ps[i];
    }
    if Conflicts(x, r) {
      var i :| 0 <= i < |r| && r[i].partnum == x.partnum && r[i].mid != x.mid;
      assert i != k;
      assert r[i] == ps[if i < k then i else i - 1];
    }
  }

  lemma PartBetween(key: Key, a: seq<Part>, p: Part, b: seq<Part>, req: int)
    ensures Bag(key, a + [p] + b) == Bag(key, a) + multiset(PartItems(key, p)) + Bag(key, b)
    ensures Counted(a + [p] + b, req) == Counted(a, req) + (if CountPartnum(p.partnum, req) then 1 else 0) + Counted(b, req)
  {
    PartsItemsAppend(key, a, [p]);
    PartsItemsAppend(key, a + [p], b);
    OnePart(key, p);
    CountedAppend(a, [p], req);
    CountedAppend(a + [p], b, req);
    assert [p][1..] == [];
  }

  lemma RemovePartBag(key: Key, ps: seq<Part>, k: nat)
    requires k < |ps|
    ensures Bag(key, ps) == Bag(key, ps[..k] + ps[k + 1..]) + multiset(PartItems(key, ps[k]))
  {
    PartBetween(key, ps[..k], ps[k], ps[k + 1..], 0);
    assert ps == ps[..k] + [ps[k]] + ps[k + 1..];
    PartsItemsAppend(key, ps[..k], ps[k + 1..]);
  }
}
