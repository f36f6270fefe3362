// The binary trees of the verification hash table: nodes ordered by (checksum, hash), with entries
// that tie chained in the order they came.
module HashTree {
  import opened Common
  import opened Bits
  import opened HashOrder

  // One data block of a source file.
  class Entry {
    const sourcefile: nat
    const length: nat
    const firstblock: bool
    const key: Key
    var block: Option<nat>    // the disk file the block was found in
    var left: Entry?
    var right: Entry?
    var same: Entry?
    var next: Entry?

    constructor (sourcefile: nat, length: nat, firstblock: bool, key: Key)
      ensures this.sourcefile == sourcefile && this.length == length && this.firstblock == firstblock && this.key == key
      ensures left == null && right == null && same == null && next == null && block == None
    {
      this.sourcefile, this.length, this.firstblock, this.key := sourcefile, length, firstblock, key;
      left, right, same, next, block := null, null, null, null, None;
    }
  }

  // ---------- what a tree holds ----------

  // A node carries the chain of entries with its key.
  datatype Tree = Leaf | Node(left: Tree, chain: seq<Entry>, right: Tree)

  ghost function Nodes(t: Tree): set<Entry> {
    if t.Leaf? then {} else Nodes(t.left) + (set e | e in t.chain) + Nodes(t.right)
  }

  ghost predicate ChainOk(c: seq<Entry>) {
    && |c| > 0
    && (forall i :: 0 <= i < |c| ==> c[i].key == c[0].key)
    && (forall i, j :: 0 <= i < j < |c| ==> c[i] != c[j])
  }

  ghost predicate Bst(t: Tree) {
    t.Node? ==>
      && ChainOk(t.chain) && Bst(t.left) && Bst(t.right)
      && (forall e :: e in Nodes(t.left) ==> Below(e.key, t.chain[0].key))
      && (forall e :: e in Nodes(t.right) ==> Below(t.chain[0].key, e.key))
  }

  // The entries with a key.
  ghost function Chain(t: Tree, k: Key): seq<Entry>
    requires Bst(t)
  {
    if t.Leaf? then []
    else if Below(t.chain[0].key, k) then Chain(t.right, k)
    else if Below(k, t.chain[0].key) then Chain(t.left, k)
    else t.chain
  }

  ghost function Inserted(t: Tree, e: Entry): Tree
    requires Bst(t)
  {
    if t.Leaf? then Node(Leaf, [e], Leaf)
    else if Below(t.chain[0].key, e.key) then Node(t.left, t.chain, Inserted(t.right, e))
    else if Below(e.key, t.chain[0].key) then Node(Inserted(t.left, e), t.chain, t.right)
    else Node(t.left, t.chain + [e], t.right)
  }

  lemma {:induction false} InsertedBst(t: Tree, e: Entry)
    requires Bst(t) && e !in Nodes(t)
    ensures Bst(Inserted(t, e)) && Nodes(Inserted(t, e)) == Nodes(t) + {e}
  {
    hide Below;
    if t.Node? {
      BelowTotal(e.key, t.chain[0].key);
      if Below(t.chain[0].key, e.key) {
        InsertedBst(t.right, e);
      } else if Below(e.key, t.chain[0].key) {
        InsertedBst(t.left, e);
      }
    }
  }

  // Inserting adds the entry at the end of the entries with its key, and touches no others.
  lemma {:induction false} InsertedChain(t: Tree, e: Entry, k: Key)
    requires Bst(t) && e !in Nodes(t)
    ensures Bst(Inserted(t, e))
    ensures Chain(Inserted(t, e), k) == if k == e.key then Chain(t, k) + [e] else Chain(t, k)
  {
    hide Below;
    InsertedBst(t, e);
    BelowTotal(e.key, k);
    if t.Node? {
      var n := t.chain[0].key;
      BelowTotal(e.key, n);
      BelowTotal(k, n);
      if Below(n, e.key) {
        InsertedChain(t.right, e, k);
      } else if Below(e.key, n) {
        InsertedChain(t.left, e, k);
      }
    }
  }

  // A tree holds an entry exactly in the chain of its key.
  lemma {:induction false} ChainHolds(t: Tree, k: Key)
    requires Bst(t)
    ensures forall e :: e in Chain(t, k) <==> e in Nodes(t) && e.key == k
    ensures Chain(t, k) != [] ==> ChainOk(Chain(t, k))
  {
    hide Below;
    if t.Node? {
      var n := t.chain[0].key;
      BelowTotal(k, n);
      ChainHolds(t.left, k);
      ChainHolds(t.right, k);
      forall e | e in Nodes(t.left)
        ensures e.key == k ==> Below(k, n)
      {
      }
      BelowTotal(n, k);
    }
  }

  // ---------- searching by checksum ----------

  ghost function FindCrc(t: Tree, crc: U32): Tree
    requires Bst(t)
  {
    if t.Leaf? then Leaf
    else if t.chain[0].key.crc < crc then FindCrc(t.right, crc)
    else if t.chain[0].key.crc > crc then FindCrc(t.left, crc)
    else t
  }

  lemma CrcBelow(a: Key, b: Key)
    ensures a.crc < b.crc ==> Below(a, b)
  {
  }

  // The subtree found holds every entry with the checksum, in the same chains; there is none exactly
  // when the tree has no entry with it.
  lemma {:induction false} FindCrcKeeps(t: Tree, crc: U32)
    requires Bst(t)
    ensures var s := FindCrc(t, crc);
      && Bst(s) && Nodes(s) <= Nodes(t)
      && (forall e :: e in Nodes(t) && e.key.crc == crc ==> e in Nodes(s))
      && (forall k: Key :: k.crc == crc ==> Chain(s, k) == Chain(t, k))
      && (s.Node? ==> s.chain[0].key.crc == crc)
  {
    hide Below;
    if t.Node? {
      var n := t.chain[0].key;
      FindCrcKeeps(t.left, crc);
      FindCrcKeeps(t.right, crc);
      forall k: Key | k.crc == crc
        ensures n.crc < crc ==> Below(n, k)
        ensures n.crc > crc ==> Below(k, n) && !Below(n, k)
      {
        CrcBelow(n, k);
        CrcBelow(k, n);
        BelowTotal(n, k);
      }
      if n.crc < crc {
        forall e | e in Nodes(t) && e.key.crc == crc
          ensures e in Nodes(t.right)
        {
          BelowTotal(e.key, n);
          CrcBelow(n, e.key);
        }
      } else if n.crc > crc {
        forall e | e in Nodes(t) && e.key.crc == crc
          ensures e in Nodes(t.left)
        {
          BelowTotal(e.key, n);
          CrcBelow(e.key, n);
        }
      }
    }
  }

  // ---------- the tree in the heap ----------

  // What follows element i of a chain.
  function After(c: seq<Entry>, i: nat): Entry? {
    if i + 1 < |c| then c[i + 1] else null
  }

  ghost predicate ChainLinked(c: seq<Entry>)
    reads (set e | e in c)`same
  {
    forall i :: 0 <= i < |c| ==> c[i].same == After(c, i)
  }

  // p is the root of t.
  ghost predicate Linked(p: Entry?, t: Tree)
    reads Nodes(t)`left, Nodes(t)`right, Nodes(t)`same
  {
    if t.Leaf? then p == null
    else
      && |t.chain| > 0 && p == t.chain[0] && ChainLinked(t.chain)
      && Linked(t.chain[0].left, t.left) && Linked(t.chain[0].right, t.right)
  }

  // A place that holds a pointer to an entry: what the source points to with a pointer to a pointer.
  datatype Slot = Root | LeftOf(e: Entry) | RightOf(e: Entry) | SameOf(e: Entry)

  function Content(s: Slot, root: Entry?): Entry?
    reads if s.Root? then {} else {s.e}
  {
    match s
    case Root => root
    case LeftOf(e) => e.left
    case RightOf(e) => e.right
    case SameOf(e) => e.same
  }

  // The place below `slot` where a new entry goes.
  ghost function Spot(slot: Slot, t: Tree, k: Key): Slot
    requires Bst(t)
    decreases t
  {
    if t.Leaf? then slot
    else if Below(t.chain[0].key, k) then Spot(RightOf(t.chain[0]), t.right, k)
    else if Below(k, t.chain[0].key) then Spot(LeftOf(t.chain[0]), t.left, k)
    else SameOf(t.chain[|t.chain| - 1])
  }

  lemma {:induction false} SpotWithin(slot: Slot, t: Tree, k: Key)
    requires Bst(t)
    ensures t.Leaf? ==> Spot(slot, t, k) == slot
    ensures t.Node? ==> !Spot(slot, t, k).Root? && Spot(slot, t, k).e in Nodes(t)
    decreases t
  {
    hide Below;
    if t.Node? {
      SpotWithin(RightOf(t.chain[0]), t.right, k);
      SpotWithin(LeftOf(t.chain[0]), t.left, k);
    }
  }

  // The pointers of a set of entries at one time.
  datatype Links = Links(left: map<Entry, Entry?>, right: map<Entry, Entry?>, same: map<Entry, Entry?>)

  ghost function Snapshot(S: set<Entry>): Links
    reads S`left, S`right, S`same
  {
    Links(map e | e in S :: e.left, map e | e in S :: e.right, map e | e in S :: e.same)
  }

  ghost predicate Covers(h: Links, S: set<Entry>) {
    h.left.Keys == h.right.Keys == h.same.Keys && S <= h.left.Keys
  }

  ghost predicate ChainLinkedBy(h: Links, c: seq<Entry>)
    requires Covers(h, set e | e in c)
  {
    forall i :: 0 <= i < |c| ==> h.same[c[i]] == After(c, i)
  }

  // p is the root of t by these pointers.
  ghost predicate LinkedBy(h: Links, p: Entry?, t: Tree)
    requires Covers(h, Nodes(t))
  {
    if t.Leaf? then p == null
    else
      && |t.chain| > 0 && p == t.chain[0] && ChainLinkedBy(h, t.chain)
      && LinkedBy(h, h.left[t.chain[0]], t.left) && LinkedBy(h, h.right[t.chain[0]], t.right)
  }

  lemma {:induction false} LinkedIsLinkedBy(S: set<Entry>, p: Entry?, t: Tree)
    requires Nodes(t) <= S
    ensures Linked(p, t) <==> LinkedBy(Snapshot(S), p, t)
    decreases t
  {
    if t.Node? && |t.chain| > 0 {
      LinkedIsLinkedBy(S, t.chain[0].left, t.left);
      LinkedIsLinkedBy(S, t.chain[0].right, t.right);
    }
  }

  // From h to h' only the content of `spot` has changed, to e, for the entries in S.
  ghost predicate OnlyWrote(h: Links, h': Links, spot: Slot, e: Entry, S: set<Entry>)
    requires Covers(h, S) && Covers(h', S)
  {
    forall n :: n in S ==>
      && h'.left[n] == (if spot == LeftOf(n) then e else h.left[n])
      && h'.right[n] == (if spot == RightOf(n) then e else h.right[n])
      && h'.same[n] == (if spot == SameOf(n) then e else h.same[n])
  }

  lemma WroteLess(h: Links, h': Links, spot: Slot, e: Entry, S: set<Entry>, part: set<Entry>)
    requires part <= S && Covers(h, S) && Covers(h', S) && OnlyWrote(h, h', spot, e, S)
    ensures OnlyWrote(h, h', spot, e, part)
  {
  }

  lemma {:induction false} Unwritten(h: Links, h': Links, p: Entry?, t: Tree, spot: Slot, e: Entry)
    requires Covers(h, Nodes(t)) && Covers(h', Nodes(t)) && LinkedBy(h, p, t)
    requires OnlyWrote(h, h', spot, e, Nodes(t)) && (spot.Root? || spot.e !in Nodes(t))
    ensures LinkedBy(h', p, t)
    decreases t
  {
    if t.Node? {
      Unwritten(h, h', h.left[t.chain[0]], t.left, spot, e);
      Unwritten(h, h', h.right[t.chain[0]], t.right, spot, e);
    }
  }

  lemma Parts(t: Tree)
    requires t.Node?
    ensures Nodes(t.left) <= Nodes(t) && Nodes(t.right) <= Nodes(t)
    ensures forall x :: x in t.chain ==> x in Nodes(t)
  {
  }

  // Writing a lone entry at its spot links the tree with it inserted.
  lemma {:induction false} Written(h: Links, h': Links, slot: Slot, p: Entry?, t: Tree, e: Entry)
    requires Bst(t) && e !in Nodes(t) && Covers(h, Nodes(t)) && Covers(h', Nodes(t) + {e})
    requires LinkedBy(h, p, t)
    requires h'.left[e] == h'.right[e] == h'.same[e] == null
    requires OnlyWrote(h, h', Spot(slot, t, e.key), e, Nodes(t))
    ensures Nodes(Inserted(t, e)) == Nodes(t) + {e}
    ensures LinkedBy(h', if t.Leaf? then e else p, Inserted(t, e))
    decreases t
  {
    hide Below, Nodes, ChainOk, OnlyWrote, ChainLinkedBy;
    InsertedBst(t, e);
    if t.Node? {
      Parts(t);
      WroteLess(h, h', Spot(slot, t, e.key), e, Nodes(t), Nodes(t.left));
      WroteLess(h, h', Spot(slot, t, e.key), e, Nodes(t), Nodes(t.right));
      BelowTotal(e.key, t.chain[0].key);
      if Below(t.chain[0].key, e.key) {
        SpotWithin(RightOf(t.chain[0]), t.right, e.key);
        Written(h, h', RightOf(t.chain[0]), h.right[t.chain[0]], t.right, e);
        WrittenRight(h, h', p, t, Spot(slot, t, e.key), e);
      } else if Below(e.key, t.chain[0].key) {
        SpotWithin(LeftOf(t.chain[0]), t.left, e.key);
        Written(h, h', LeftOf(t.chain[0]), h.left[t.chain[0]], t.left, e);
        WrittenLeft(h, h', p, t, Spot(slot, t, e.key), e);
      } else {
        WrittenChain(h, h', p, t, e);
      }
    } else {
      LoneLinked(h', e);
    }
  }

  lemma LoneLinked(h: Links, e: Entry)
    requires Covers(h, {e}) && h.left[e] == h.right[e] == h.same[e] == null
    ensures Nodes(Node(Leaf, [e], Leaf)) == {e} && LinkedBy(h, e, Node(Leaf, [e], Leaf))
  {
    assert [e][0] == e;
  }

  lemma WrittenRight(h: Links, h': Links, p: Entry?, t: Tree, spot: Slot, e: Entry)
    requires Bst(t) && t.Node? && e !in Nodes(t) && Covers(h, Nodes(t)) && Covers(h', Nodes(t) + {e}) && LinkedBy(h, p, t)
    requires OnlyWrote(h, h', spot, e, Nodes(t))
    requires if t.right.Leaf? then spot == RightOf(t.chain[0]) else !spot.Root? && spot.e in Nodes(t.right)
    requires Nodes(Inserted(t.right, e)) == Nodes(t.right) + {e}
    requires LinkedBy(h', if t.right.Leaf? then e else h.right[t.chain[0]], Inserted(t.right, e))
    ensures LinkedBy(h', p, Node(t.left, t.chain, Inserted(t.right, e)))
  {
    hide Inserted;
    ApartLeft(t, spot);
    hide Below, Bst, ChainOk;
    Unwritten(h, h', h.left[t.chain[0]], t.left, spot, e);
    if t.right.Node? { NotInBoth(t, spot); }
  }

  lemma WrittenLeft(h: Links, h': Links, p: Entry?, t: Tree, spot: Slot, e: Entry)
    requires Bst(t) && t.Node? && e !in Nodes(t) && Covers(h, Nodes(t)) && Covers(h', Nodes(t) + {e}) && LinkedBy(h, p, t)
    requires OnlyWrote(h, h', spot, e, Nodes(t))
    requires if t.left.Leaf? then spot == LeftOf(t.chain[0]) else !spot.Root? && spot.e in Nodes(t.left)
    requires Nodes(Inserted(t.left, e)) == Nodes(t.left) + {e}
    requires LinkedBy(h', if t.left.Leaf? then e else h.left[t.chain[0]], Inserted(t.left, e))
    ensures LinkedBy(h', p, Node(Inserted(t.left, e), t.chain, t.right))
  {
    hide Inserted;
    ApartRight(t, spot);
    hide Below, Bst, ChainOk;
    Unwritten(h, h', h.right[t.chain[0]], t.right, spot, e);
    if t.left.Node? { NotInBoth(t, spot); }
  }

  lemma WrittenChain(h: Links, h': Links, p: Entry?, t: Tree, e: Entry)
    requires Bst(t) && t.Node? && e !in Nodes(t) && Covers(h, Nodes(t)) && Covers(h', Nodes(t) + {e}) && LinkedBy(h, p, t)
    requires OnlyWrote(h, h', SameOf(t.chain[|t.chain| - 1]), e, Nodes(t)) && h'.same[e] == null
    ensures LinkedBy(h', p, Node(t.left, t.chain + [e], t.right))
  {
    hide Below, Nodes;
    Parts(t);
    ApartChain(t);
    InChainNodes(t, e);
    var spot := SameOf(t.chain[|t.chain| - 1]);
    Unwritten(h, h', h.left[t.chain[0]], t.left, spot, e);
    Unwritten(h, h', h.right[t.chain[0]], t.right, spot, e);
    hide Bst;
    ChainGrown(h, h', t.chain, e);
    hide ChainLinkedBy, OnlyWrote, ChainOk;
    assert (t.chain + [e])[0] == t.chain[0];
  }

  lemma InChainNodes(t: Tree, e: Entry)
    requires t.Node?
    ensures Nodes(Node(t.left, t.chain + [e], t.right)) == Nodes(t) + {e}
  {
  }

  lemma ChainGrown(h: Links, h': Links, c: seq<Entry>, e: Entry)
    requires ChainOk(c) && Covers(h, set x | x in c) && Covers(h', set x | x in c + [e])
    requires ChainLinkedBy(h, c) && h'.same[e] == null
    requires forall n :: n in c ==> h'.same[n] == if n == c[|c| - 1] then e else h.same[n]
    ensures ChainLinkedBy(h', c + [e])
  {
  }

  lemma NotInBoth(t: Tree, spot: Slot)
    requires Bst(t) && t.Node? && !spot.Root? && (spot.e in Nodes(t.left) || spot.e in Nodes(t.right))
    ensures spot.e !in t.chain
  {
    ApartChain(t);
  }

  lemma ApartChain(t: Tree)
    requires Bst(t) && t.Node?
    ensures forall x :: x in t.chain ==> x !in Nodes(t.left) && x !in Nodes(t.right)
  {
    hide Below;
    BelowTotal(t.chain[0].key, t.chain[0].key);
  }

  // The left subtree, the chain and the right subtree share no entries.
  lemma ApartLeft(t: Tree, spot: Slot)
    requires Bst(t) && t.Node? && !spot.Root? && (spot == RightOf(t.chain[0]) || spot.e in Nodes(t.right))
    ensures spot.e !in Nodes(t.left) && spot != LeftOf(t.chain[0])
    ensures forall x :: x in t.chain ==> spot != SameOf(x)
  {
    hide Below;
    var n := t.chain[0].key;
    BelowTotal(n, n);
    if !spot.Root? { BelowTotal(spot.e.key, n); }
  }

  lemma ApartRight(t: Tree, spot: Slot)
    requires Bst(t) && t.Node? && !spot.Root? && (spot == LeftOf(t.chain[0]) || spot.e in Nodes(t.left))
    ensures spot.e !in Nodes(t.right) && spot != RightOf(t.chain[0])
    ensures forall x :: x in t.chain ==> spot != SameOf(x)
  {
    hide Below;
    var n := t.chain[0].key;
    BelowTotal(n, n);
    BelowTotal(spot.e.key, n);
  }

  // One step down the tree.
  lemma Descend(p: Entry, t: Tree, slot: Slot, k: Key)
    requires Linked(p, t) && Bst(t)
    ensures t.Node? && ChainOk(t.chain) && p == t.chain[0] && ChainLinked(t.chain)
    ensures Linked(p.left, t.left) && Linked(p.right, t.right) && Bst(t.left) && Bst(t.right)
    ensures Spot(slot, t, k) ==
            if Below(p.key, k) then Spot(RightOf(p), t.right, k)
            else if Below(k, p.key) then Spot(LeftOf(p), t.left, k)
            else SameOf(t.chain[|t.chain| - 1])
  {
    hide Below;
  }

  lemma AtLeaf(t: Tree, slot: Slot, k: Key)
    requires Linked(null, t) && Bst(t)
    ensures t.Leaf? && Spot(slot, t, k) == slot
  {
  }

  // Walk down to the place for a key, then to the end of the chain there.
  method FindSpot(k: Key, root: Entry?, ghost t: Tree) returns (parent: Slot)
    requires Linked(root, t) && Bst(t)
    ensures parent == Spot(Root, t, k)
    ensures Content(parent, root) == null
  {
    hide Below, Bst, Spot, Linked, Nodes;
    parent := Root;
    ghost var cur := t;
    while Content(parent, root) != null
      invariant Bst(cur) && Linked(Content(parent, root), cur)
      invariant Spot(parent, cur, k) == Spot(Root, t, k)
      decreases cur
    {
      var p := Content(parent, root);
      Descend(p, cur, parent, k);
      if Below(p.key, k) {
        parent := RightOf(p);
        cur := cur.right;
      } else if Below(k, p.key) {
        parent := LeftOf(p);
        cur := cur.left;
      } else {
        parent := EndOfChain(parent, root, cur.chain);
        return;
      }
    }
    AtLeaf(cur, parent, k);
  }

  method EndOfChain(start: Slot, root: Entry?, ghost c: seq<Entry>) returns (parent: Slot)
    requires |c| > 0 && ChainLinked(c) && Content(start, root) == c[0]
    ensures parent == SameOf(c[|c| - 1]) && Content(parent, root) == null
  {
    parent := start;
    ghost var j := 0;
    while Content(parent, root) != null
      invariant j <= |c| && (j > 0 ==> parent == SameOf(c[j - 1]))
      invariant Content(parent, root) == if j < |c| then c[j] else null
      decreases |c| - j
    {
      parent := SameOf(Content(parent, root));
      j := j + 1;
    }
  }

  // *parent := e
  method Write(parent: Slot, table: array<Entry?>, index: nat, e: Entry, ghost S: set<Entry>)
    requires index < table.Length && (parent.Root? || parent.e in S)
    modifies table, S`left, S`right, S`same
    ensures table[index] == if parent.Root? then e else old(table[index])
    ensures forall j :: 0 <= j < table.Length && j != index ==> table[j] == old(table[j])
    ensures OnlyWrote(old(Snapshot(S)), Snapshot(S), parent, e, S)
  {
    match parent {
      case Root => table[index] := e;
      case LeftOf(p) => p.left := e;
      case RightOf(p) => p.right := e;
      case SameOf(p) => p.same := e;
    }
  }

  // Insert e below the root kept in table[index].
  method Insert(e: Entry, table: array<Entry?>, index: nat, ghost t: Tree)
    requires index < table.Length && Linked(table[index], t) && Bst(t) && e !in Nodes(t)
    requires e.left == null && e.right == null && e.same == null
    modifies table, Nodes(t)`left, Nodes(t)`right, Nodes(t)`same
    ensures Linked(table[index], Inserted(t, e))
    ensures forall j :: 0 <= j < table.Length && j != index ==> table[j] == old(table[j])
  {
    hide *;
    ghost var h, root := Snapshot(Nodes(t)), table[index];
    SnapshotCovers(Nodes(t));
    LinkedIsLinkedBy(Nodes(t), table[index], t);
    var parent := FindSpot(e.key, table[index], t);
    SpotWithin(Root, t, e.key);
    RootOnlyWhenEmpty(t, e.key);
    Write(parent, table, index, e, Nodes(t));
    SnapshotCovers(Nodes(t));
    WrittenLinked(h, root, t, e);
  }

  lemma SnapshotCovers(S: set<Entry>)
    ensures Covers(Snapshot(S), S)
  {
  }

  lemma RootOnlyWhenEmpty(t: Tree, k: Key)
    requires Bst(t)
    ensures Spot(Root, t, k).Root? <==> t.Leaf?
  {
    SpotWithin(Root, t, k);
  }

  // What the heap says after the write.
  lemma WrittenLinked(h: Links, root: Entry?, t: Tree, e: Entry)
    requires Bst(t) && e !in Nodes(t) && Covers(h, Nodes(t)) && LinkedBy(h, root, t)
    requires e.left == e.right == e.same == null
    requires Covers(Snapshot(Nodes(t)), Nodes(t)) && OnlyWrote(h, Snapshot(Nodes(t)), Spot(Root, t, e.key), e, Nodes(t))
    ensures Linked(if t.Leaf? then e else root, Inserted(t, e))
  {
    hide Below, Bst, Nodes, Inserted, LinkedBy, Linked, Spot;
    var h' := Snapshot(Nodes(t) + {e});
    Written(h, h', Root, root, t, e);
    LinkedIsLinkedBy(Nodes(t) + {e}, if t.Leaf? then e else root, Inserted(t, e));
  }

  // Search for an entry with the checksum.
  method SearchCrc(start: Entry?, crc: U32, ghost t: Tree) returns (entry: Entry?)
    requires Linked(start, t) && Bst(t)
    ensures Linked(entry, FindCrc(t, crc))
  {
    hide Bst, Below, Nodes, Spot, Linked;
    entry := start;
    ghost var cur := t;
    while entry != null
      invariant Bst(cur) && Linked(entry, cur) && FindCrc(cur, crc) == FindCrc(t, crc)
      decreases cur
    {
      Descend(entry, cur, Root, entry.key);
      if entry.key.crc < crc {
        entry, cur := entry.right, cur.right;
      } else if entry.key.crc > crc {
        entry, cur := entry.left, cur.left;
      } else {
        return;
      }
    }
    AtLeaf(cur, Root, Key(crc, seq(HASHSIZE, _ => 0)));
  }

  // Search on, from an entry with the checksum, for the hash.
  method SearchHash(start: Entry, hash: Hash, ghost t: Tree) returns (entry: Entry?)
    requires Linked(start, t) && Bst(t)
    ensures var c := Chain(t, Key(start.key.crc, hash));
      && ChainLinked(c) && entry == if |c| == 0 then null else c[0]
  {
    hide Bst, Below, Nodes, Spot, Linked;
    var crc := start.key.crc;
    var k := Key(crc, hash);
    entry := start;
    ghost var cur := t;
    while entry != null
      invariant Bst(cur) && Linked(entry, cur) && Chain(cur, k) == Chain(t, k)
      decreases cur
    {
      Descend(entry, cur, Root, entry.key);
      if Below(entry.key, k) {
        entry, cur := entry.right, cur.right;
      } else if Below(k, entry.key) {
        entry, cur := entry.left, cur.left;
      } else {
        return;
      }
    }
    AtLeaf(cur, Root, k);
  }
}
