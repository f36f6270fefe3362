// The verification hash table: buckets of trees, loaded from the verification packets, in which the
// scanner looks for the block it has before it.
module HashTable {
  import opened Common
  import opened Bits
  import opened HashOrder
  import opened HashTree

  // The entries with a key, in the order they came.
  ghost function Matching(es: seq<Entry>, k: Key): seq<Entry> {
    if |es| == 0 then []
    else Matching(es[..|es| - 1], k) + (if es[|es| - 1].key == k then [es[|es| - 1]] else [])
  }

  lemma {:induction false} MatchingHolds(es: seq<Entry>, k: Key)
    ensures forall e :: e in Matching(es, k) <==> e in es && e.key == k
  {
    if |es| > 0 {
      MatchingHolds(es[..|es| - 1], k);
      assert es == es[..|es| - 1] + [es[|es| - 1]];
    }
  }

  lemma {:induction false} NoneMatching(es: seq<Entry>, k: Key)
    requires forall e :: e in es ==> e.key.crc != k.crc
    ensures Matching(es, k) == []
  {
    if |es| > 0 { NoneMatching(es[..|es| - 1], k); }
  }

  lemma MatchingMore(es: seq<Entry>, e: Entry, k: Key)
    ensures Matching(es + [e], k) == if e.key == k then Matching(es, k) + [e] else Matching(es, k)
  {
    assert (es + [e])[..|es|] == es;
    assert Matching(es, k) + [] == Matching(es, k);
  }

  // Masking with one less than the size of the table leaves the remainder.
  lemma MaskIsRemainder(x: Word)
    ensures x & 255 == x % 256
    ensures x & 511 == x % 512
    ensures x & 1023 == x % 1024
    ensures x & 2047 == x % 2048
    ensures x & 4095 == x % 4096
    ensures x & 8191 == x % 8192
    ensures x & 16383 == x % 16384
    ensures x & 32767 == x % 32768
    ensures x & 65535 == x % 65536
  {
  }

  predicate PowerOfTwo(n: nat) {
    n in {256, 512, 1024, 2048, 4096, 8192, 16384, 32768, 65536}
  }

  datatype Block = Block(length: nat, key: Key)

  // es are the entries of a file's blocks.
  ghost predicate EntriesOf(sourcefile: nat, blocks: seq<Block>, es: seq<Entry>) {
    && |es| == |blocks|
    && forall i :: 0 <= i < |es| ==>
      && es[i].sourcefile == sourcefile && es[i].length == blocks[i].length && es[i].key == blocks[i].key
      && (es[i].firstblock <==> i == 0)
  }

  // Each points to the next.
  ghost predicate InSequence(es: seq<Entry>)
    reads (set e | e in es)`next
  {
    forall i :: 0 <= i < |es| ==> es[i].next == After(es, i)
  }

  lemma NoEntries(sourcefile: nat, blocks: seq<Block>)
    ensures EntriesOf(sourcefile, blocks[..0], [])
  {
  }

  lemma OneMoreEntry(sourcefile: nat, blocks: seq<Block>, es: seq<Entry>, e: Entry)
    requires |es| < |blocks| && EntriesOf(sourcefile, blocks[..|es|], es)
    requires e.sourcefile == sourcefile && e.length == blocks[|es|].length && e.key == blocks[|es|].key
    requires e.firstblock <==> |es| == 0
    ensures EntriesOf(sourcefile, blocks[..|es| + 1], es + [e])
  {
  }

  // ---------- what the scanner has before it ----------

  // The window of a checksummer; near the end of the file it holds less than a block.
  datatype Window = Window(
    crc: U32, hash: Hash, shortBlock: bool, blockLength: nat, offset: nat, diskfile: nat,
    shortChecksum: nat -> U32, shortHash: nat -> Hash)

  // The suggested entry is what the window holds: the last entry of a file by its own length, another
  // if it has not been found yet.
  ghost predicate Suggested(suggested: Entry?, w: Window)
    reads if suggested == null then {} else {suggested}
  {
    && suggested != null
    && if suggested.next == null then suggested.key == Key(w.shortChecksum(suggested.length), w.shortHash(suggested.length))
       else suggested.block.None? && suggested.key == Key(w.crc, w.hash)
  }

  predicate WrongLength(e: Entry, w: Window) {
    w.shortBlock && w.blockLength != e.length
  }

  // Not found yet, and of the right length.
  predicate Usable(e: Entry, w: Window)
    reads e`block
  {
    e.block.None? && !WrongLength(e, w)
  }

  // e is the first usable entry of c, of the wanted file if one is wanted; null when there is none.
  ghost predicate FirstUsable(e: Entry?, c: seq<Entry>, w: Window, want: Option<nat>)
    reads (set x | x in c)`block
  {
    if e == null then forall i :: 0 <= i < |c| ==> !Wanted(c[i], w, want)
    else exists i :: 0 <= i < |c| && c[i] == e && Wanted(e, w, want) && forall j :: 0 <= j < i ==> !Wanted(c[j], w, want)
  }

  // The first usable entry of the preferred file, or, when that has none or no file is preferred, the
  // first usable entry.
  ghost predicate Preferred(e: Entry?, c: seq<Entry>, w: Window, sourcefile: Option<nat>)
    reads (set x | x in c)`block
  {
    if sourcefile.Some? && !FirstUsable(null, c, w, sourcefile) then FirstUsable(e, c, w, sourcefile)
    else FirstUsable(e, c, w, None)
  }

  predicate Wanted(e: Entry, w: Window, want: Option<nat>)
    reads e`block
  {
    Usable(e, w) && (want.None? || want.value == e.sourcefile)
  }

  class Table {
    var hashtable: array?<Entry?>
    var hashmask: nat
    ghost var trees: seq<Tree>
    ghost var inserted: seq<Entry>

    function Bucket(crc: U32): nat
      reads this
    {
      crc % (hashmask + 1)
    }

    ghost function InBucket(es: seq<Entry>, b: int): set<Entry>
      reads this
    {
      set e | e in es && Bucket(e.key.crc) == b
    }

    // Every tree holds the entries of its bucket, linked and in order.
    ghost predicate Buckets()
      reads this
    {
      && hashtable != null && hashtable.Length == |trees| == hashmask + 1
      && (forall i :: 0 <= i < |trees| ==> Bst(trees[i]))
      && (forall i :: 0 <= i < |trees| ==> Nodes(trees[i]) == InBucket(inserted, i))
    }

    ghost predicate Valid()
      reads this, hashtable
      reads (set x | x in inserted)`left, (set x | x in inserted)`right, (set x | x in inserted)`same
    {
      && Buckets()
      && (forall i :: 0 <= i < |trees| ==> Linked(hashtable[i], trees[i]))
      && (forall k: Key :: Chain(trees[Bucket(k.crc)], k) == Matching(inserted, k))
    }

    constructor ()
      ensures hashtable == null && hashmask == 0 && inserted == []
    {
      hashtable, hashmask, trees, inserted := null, 0, [], [];
    }

    // Allocate a table for about `limit` entries.
    method SetLimit(limit: U32)
      modifies this
      ensures Valid() && inserted == [] && fresh(hashtable)
      ensures PowerOfTwo(hashtable.Length)
      ensures hashtable.Length >= limit || hashtable.Length == 65536
      ensures hashtable.Length == 256 || hashtable.Length / 2 < limit
    {
      hashmask := 256;
      while hashmask < limit && hashmask < 65536
        invariant PowerOfTwo(hashmask)
        invariant hashmask == 256 || hashmask / 2 < limit
      {
        hashmask := 2 * hashmask;
      }
      hashtable := new Entry?[hashmask](_ => null);
      trees, inserted := seq(hashmask, _ => Leaf), [];
      hashmask := hashmask - 1;
    }

    // Put a new entry into the bucket of its checksum.
    method Add(e: Entry)
      requires Valid() && e !in inserted && e.left == e.right == e.same == null
      modifies hashtable, this`trees, this`inserted
      modifies (set x | x in inserted)`left, (set x | x in inserted)`right, (set x | x in inserted)`same
      ensures Valid() && inserted == old(inserted) + [e]
    {
      hide Bst, Linked, Below, Chain, Inserted, Nodes, Matching;
      var b := Bucket(e.key.crc);
      ghost var t := trees[b];
      Insert(e, hashtable, b, t);
      InsertedBst(t, e);
      trees, inserted := trees[b := Inserted(t, e)], inserted + [e];
      forall k: Key
        ensures Chain(trees[Bucket(k.crc)], k) == Matching(inserted, k)
      {
        InsertedChain(t, e, k);
        MatchingMore(old(inserted), e, k);
      }
    }
  
    // Put the blocks of a source file into the table, each pointing to the next.
    method Load(sourcefile: nat, blocks: seq<Block>)
      requires Valid()
      modifies hashtable, this`trees, this`inserted
      modifies (set x | x in inserted)`left, (set x | x in inserted)`right, (set x | x in inserted)`same
      ensures Valid() && |inserted| == |old(inserted)| + |blocks| && inserted[..|old(inserted)|] == old(inserted)
      ensures EntriesOf(sourcefile, blocks, inserted[|old(inserted)|..])
      ensures InSequence(inserted[|old(inserted)|..])
    {
      hide Valid, Buckets, Bst, Linked, Chain, Matching, Nodes, Below, EntriesOf;
      ghost var before := inserted;
      ghost var loaded: seq<Entry> := [];
      var preventry: Entry? := null;
      NoEntries(sourcefile, blocks);
      for blocknumber := 0 to |blocks|
        invariant Valid() && hashtable == old(hashtable) && inserted == before + loaded && |loaded| == blocknumber
        invariant fresh(set e | e in loaded) && (forall i, j :: 0 <= i < j < |loaded| ==> loaded[i] != loaded[j])
        invariant EntriesOf(sourcefile, blocks[..blocknumber], loaded) && InSequence(loaded)
        invariant preventry == if blocknumber == 0 then null else loaded[blocknumber - 1]
      {
        var entry := new Entry(sourcefile, blocks[blocknumber].length, blocknumber == 0, blocks[blocknumber].key);
        Add(entry);
        if preventry != null {
          preventry.next := entry;
        }
        preventry := entry;
        OneMoreEntry(sourcefile, blocks, loaded, entry);
        loaded := loaded + [entry];
      }
      assert blocks[..|blocks|] == blocks;
    }

    // Look up by checksum: an entry is found exactly when one was inserted with it, and all of these
    // are in the subtree below.
    method Lookup(crc: U32) returns (entry: Entry?, ghost t: Tree)
      requires Valid()
      ensures Bst(t) && Linked(entry, t)
      ensures entry == null <==> forall e :: e in inserted ==> e.key.crc != crc
      ensures entry != null ==> entry in inserted && entry.key.crc == crc
      ensures forall e :: e in inserted && e.key.crc == crc ==> e in Nodes(t)
      ensures forall k: Key :: k.crc == crc ==> Chain(t, k) == Matching(inserted, k)
    {
      hide Bst, Linked, Below, Chain, Matching;
      var b := Bucket(crc);
      entry := SearchCrc(hashtable[b], crc, trees[b]);
      t := FindCrc(trees[b], crc);
      FindCrcKeeps(trees[b], crc);
      Found(entry, t);
    }

    // Look up by checksum and hash: the first entry inserted with them, if any, and chained to it all
    // others, in the order they came.
    method LookupHash(crc: U32, hash: Hash) returns (entry: Entry?)
      requires Valid()
      ensures var c := Matching(inserted, Key(crc, hash));
        && ChainLinked(c) && entry == if |c| == 0 then null else c[0]
    {
      hide Bst, Linked, Below, Chain, Matching, Nodes;
      ghost var t;
      entry, t := Lookup(crc);
      if entry == null {
        NoneMatching(inserted, Key(crc, hash));
        return;
      }
      entry := SearchHash(entry, hash, t);
    }

    // Find the entry for the block in the window.  The suggested entry is taken if it fits.  Otherwise:
    // no entry with the checksum and hash, no match; a single one, if it may be used; of several, the
    // first usable one of the preferred file, else the first usable one.
    method FindMatch(suggested: Entry?, sourcefile: Option<nat>, w: Window, complete: set<nat>)
      returns (entry: Entry?, duplicate: bool)
      requires Valid()
      ensures Suggested(suggested, w) ==> entry == suggested && !duplicate
      ensures !Suggested(suggested, w) ==>
        var c := Matching(inserted, Key(w.crc, w.hash));
        && (|c| == 0 ==> entry == null && !duplicate)
        && (|c| == 1 ==> (entry, duplicate) == OnlyMatch(c[0], suggested, w, complete))
        && (|c| > 1 ==> Preferred(entry, c, w, sourcefile) && (duplicate <==> entry == null))
      ensures !Suggested(suggested, w) && entry != null ==>
        entry in inserted && entry.key == Key(w.crc, w.hash) && (w.shortBlock ==> entry.length == w.blockLength)
      ensures !Suggested(suggested, w) ==>
        var c := Matching(inserted, Key(w.crc, w.hash));
        |c| > 1 && entry == null ==>
          forall i :: 0 <= i < |c| ==> c[i].block.Some? || (w.shortBlock && c[i].length != w.blockLength)
    {
      hide Valid, Matching, ChainLinked, Preferred;
      duplicate := false;
      if suggested != null {
        if suggested.next == null {
          var length := suggested.length;
          if w.shortChecksum(length) == suggested.key.crc {
            if w.shortHash(length) == suggested.key.hash {
              return suggested, duplicate;
            }
          }
        } else if suggested.block.None? && suggested.key.crc == w.crc {
          if w.hash == suggested.key.hash {
            return suggested, duplicate;
          }
        }
      }
      var nextentry := LookupHash(w.crc, w.hash);
      ghost var c := Matching(inserted, Key(w.crc, w.hash));
      if nextentry == null {
        return null, false;
      }
      ChainEnds(c);
      MatchingHolds(inserted, Key(w.crc, w.hash));
      assert nextentry == c[0] && c[0] in c;
      if nextentry.same == null {
        var only := OnlyMatch(nextentry, suggested, w, complete);
        return only.0, only.1;
      }
      entry := SeveralMatch(nextentry, sourcefile, w, c);
      duplicate := entry == null;
      PreferredFits(entry, c, w, sourcefile);
      MatchingHolds(inserted, Key(w.crc, w.hash));
    }
  }

  lemma PreferredFits(entry: Entry?, c: seq<Entry>, w: Window, sourcefile: Option<nat>)
    requires Preferred(entry, c, w, sourcefile)
    ensures entry != null ==> entry in c && (w.shortBlock ==> entry.length == w.blockLength)
    ensures entry == null ==>
      forall i :: 0 <= i < |c| ==> c[i].block.Some? || (w.shortBlock && c[i].length != w.blockLength)
  {
    if entry == null {
      forall i | 0 <= i < |c|
        ensures c[i].block.Some? || (w.shortBlock && c[i].length != w.blockLength)
      {
        assert !Wanted(c[i], w, None);
      }
    }
  }

  // Whether the only entry with the checksum and hash may be used.
  function OnlyMatch(e: Entry, suggested: Entry?, w: Window, complete: set<nat>): (r: (Entry?, bool))
    reads e`block
    ensures r.0 == null || r.0 == e
    ensures r.0 == e <==>
      && e.sourcefile !in complete && (w.shortBlock ==> e.length == w.blockLength)
      && (e.block.None? || (e.firstblock && w.offset == 0) || (e == suggested && e.block != Some(w.diskfile)))
    ensures r.1 <==> r.0 == null && (e.sourcefile in complete || (w.shortBlock ==> e.length == w.blockLength))
  {
    if e.sourcefile in complete then (null, true)
    else if WrongLength(e, w) then (null, false)
    else if e.firstblock && w.offset == 0 then (e, false)
    else if e == suggested then
      if e.block == Some(w.diskfile) then (null, true) else (e, false)
    else if e.block.Some? then (null, true)
    else (e, false)
  }

  lemma ChainEnds(c: seq<Entry>)
    requires ChainLinked(c) && |c| > 0
    ensures c[0].same == null <==> |c| == 1
  {
    assert c[0].same == After(c, 0);
  }

  lemma SomeUsable(e: Entry, c: seq<Entry>, w: Window, want: Option<nat>)
    requires FirstUsable(e, c, w, want)
    ensures !FirstUsable(null, c, w, want)
  {
  }

  method SeveralMatch(start: Entry, sourcefile: Option<nat>, w: Window, ghost c: seq<Entry>) returns (entry: Entry?)
    requires ChainLinked(c) && |c| > 0 && start == c[0]
    ensures Preferred(entry, c, w, sourcefile)
  {
    hide FirstUsable;
    var nextentry: Entry? := start;
    if sourcefile.Some? {
      var current, other := PreferredMatch(start, sourcefile, w, c);
      if current != null {
        SomeUsable(current, c, w, sourcefile);
        return current;
      }
      nextentry := other;
    }
    entry := UsableMatch(nextentry, w, c);
  }

  // Along the chain: the first usable entry of the file; when there is none, the first usable entry.
  method PreferredMatch(start: Entry, sourcefile: Option<nat>, w: Window, ghost c: seq<Entry>)
    returns (current: Entry?, other: Entry?)
    requires sourcefile.Some? && ChainLinked(c) && |c| > 0 && start == c[0]
    ensures FirstUsable(current, c, w, sourcefile)
    ensures current == null ==> FirstUsable(other, c, w, None)
  {
    hide FirstUsable;
    current, other := start, null;
    ghost var j := 0;
    NoneYet(c, w);
    while current != null && (current.sourcefile != sourcefile.value || current.block.Some? || WrongLength(current, w))
      invariant 0 <= j <= |c| && current == if j < |c| then c[j] else null
      invariant forall i :: 0 <= i < j ==> !Wanted(c[i], w, sourcefile)
      invariant FirstUsable(other, c[..j], w, None)
      decreases |c| - j
    {
      OneMore(other, c, j, w);
      if other == null && !(current.block.Some? || WrongLength(current, w)) {
        other := current;
      }
      assert c[j].same == After(c, j);
      current := current.same;
      j := j + 1;
    }
    if current != null { FirstIs(c, j, w, sourcefile); } else { NoneIn(c, w, sourcefile); }
    assert current == null ==> c[..j] == c;
  }

  lemma NoneYet(c: seq<Entry>, w: Window)
    ensures FirstUsable(null, c[..0], w, None)
  {
  }

  lemma NoneIn(c: seq<Entry>, w: Window, want: Option<nat>)
    requires forall i :: 0 <= i < |c| ==> !Wanted(c[i], w, want)
    ensures FirstUsable(null, c, w, want)
  {
  }

  lemma FirstIs(c: seq<Entry>, j: nat, w: Window, want: Option<nat>)
    requires j < |c| && Wanted(c[j], w, want) && forall i :: 0 <= i < j ==> !Wanted(c[i], w, want)
    ensures FirstUsable(c[j], c, w, want)
  {
  }

  // One more entry of the chain looked at.
  lemma OneMore(other: Entry?, c: seq<Entry>, j: nat, w: Window)
    requires j < |c| && FirstUsable(other, c[..j], w, None)
    ensures FirstUsable(if other == null && Usable(c[j], w) then c[j] else other, c[..j + 1], w, None)
  {
    assert c[..j + 1] == c[..j] + [c[j]];
    if other == null {
      if Usable(c[j], w) { FirstIs(c[..j + 1], j, w, None); }
    } else {
      var i :| 0 <= i < j && c[i] == other && Wanted(other, w, None) && forall k :: 0 <= k < i ==> !Wanted(c[..j][k], w, None);
      FirstIs(c[..j + 1], i, w, None);
    }
  }

  method UsableMatch(start: Entry?, w: Window, ghost c: seq<Entry>) returns (entry: Entry?)
    requires ChainLinked(c) && |c| > 0 && (start == c[0] || FirstUsable(start, c, w, None))
    ensures FirstUsable(entry, c, w, None)
  {
    entry := start;
    ghost var j := 0;
    while entry != null && (entry.block.Some? || WrongLength(entry, w))
      invariant if start != c[0] then entry == start else
        0 <= j <= |c| && entry == (if j < |c| then c[j] else null) && forall i :: 0 <= i < j ==> !Wanted(c[i], w, None)
      decreases |c| - j
    {
      assert c[j].same == After(c, j);
      entry := entry.same;
      j := j + 1;
    }
  }

  lemma Found(entry: Entry?, t: Tree)
    requires Linked(entry, t) && Bst(t)
    ensures entry == null <==> t.Leaf?
    ensures t.Leaf? ==> Nodes(t) == {}
    ensures t.Node? ==> entry == t.chain[0] && entry in Nodes(t)
  {
  }
}
