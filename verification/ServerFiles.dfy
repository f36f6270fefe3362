// Lists of parity files on the servers, and the queue of files to retrieve.
module ServerFiles {

  // A file some server has.  rank stands for the key by which the lists are sorted: less complete
  // files come later, then newer ones.
  datatype ServerFile = ServerFile(id: nat, subject: string, rank: int, badate: int, bytes: nat, have: int, req: int)

  // A queued file; dupecheck says whether it may be dropped as one already there.
  datatype Queued = Queued(path: string, file: ServerFile, dupecheck: bool)

  // Queued by the parity handler of the path.
  predicate Ours(x: Queued, path: string) { x.path == path && !x.dupecheck }

  // ---------- a multimap: elements with the same key stay in the order they came ----------

  ghost predicate Ranked(l: seq<ServerFile>) {
    forall i, j :: 0 <= i < j < |l| ==> l[i].rank <= l[j].rank
  }

  method ListInsert(l: seq<ServerFile>, f: ServerFile) returns (r: seq<ServerFile>)
    ensures multiset(r) == multiset(l) + multiset{f}
    ensures Ranked(l) ==> Ranked(r)
    ensures exists k :: 0 <= k <= |l| && r == l[..k] + [f] + l[k..] && forall i :: k <= i < |l| ==> f.rank < l[i].rank
  {
    var k := |l|;
    while k > 0 && f.rank < l[k - 1].rank
      invariant 0 <= k <= |l|
      invariant forall i :: k <= i < |l| ==> f.rank < l[i].rank
    {
      k := k - 1;
    }
    r := l[..k] + [f] + l[k..];
    InsertedBag(l, f, k);
  }

  lemma InsertedBag<T>(l: seq<T>, x: T, k: nat)
    requires k <= |l|
    ensures multiset(l[..k] + [x] + l[k..]) == multiset(l) + multiset{x}
  {
    assert l == l[..k] + l[k..];
  }

  lemma RemovedBag<T>(l: seq<T>, k: nat)
    requires k < |l|
    ensures multiset(l[..k] + l[k + 1..]) + multiset{l[k]} == multiset(l)
  {
    assert l == l[..k] + [l[k]] + l[k + 1..];
  }

  // ---------- the queue ----------

  ghost predicate ByDate(q: seq<Queued>) {
    forall i, j :: 0 <= i < j < |q| ==> q[i].file.badate <= q[j].file.badate
  }

  lemma InsertedByDate(q: seq<Queued>, x: Queued, k: nat)
    requires ByDate(q) && k <= |q|
    requires forall i :: k <= i < |q| ==> x.file.badate < q[i].file.badate
    requires k > 0 ==> q[k - 1].file.badate <= x.file.badate
    ensures ByDate(q[..k] + [x] + q[k..])
  {
  }

  // The files in the queue.
  function FilesBag(q: seq<Queued>): multiset<ServerFile> {
    if |q| == 0 then multiset{} else multiset{q[0].file} + FilesBag(q[1..])
  }

  lemma {:induction false} InsertedFiles(q: seq<Queued>, x: Queued, k: nat)
    requires k <= |q|
    ensures FilesBag(q[..k] + [x] + q[k..]) == FilesBag(q) + multiset{x.file}
  {
    var r := q[..k] + [x] + q[k..];
    if k == 0 {
      assert r[1..] == q;
    } else {
      assert r[1..] == q[1..][..k - 1] + [x] + q[1..][k - 1..];
      InsertedFiles(q[1..], x, k - 1);
    }
  }

  class FileQueue {
    var files: seq<Queued>

    constructor ()
      ensures files == []
    {
      files := [];
    }

    method AddFile(f: ServerFile, path: string, dupecheck: bool)
      requires ByDate(files)
      modifies this
      ensures ByDate(files) && multiset(files) == multiset(old(files)) + multiset{Queued(path, f, dupecheck)}
      ensures FilesBag(files) == FilesBag(old(files)) + multiset{f} && |files| == |old(files)| + 1
    {
      hide ByDate;
      var k := |files|;
      while k > 0 && f.badate < files[k - 1].file.badate
        invariant 0 <= k <= |files|
        invariant forall i :: k <= i < |files| ==> f.badate < files[i].file.badate
      {
        k := k - 1;
      }
      InsertedBag(files, Queued(path, f, dupecheck), k);
      InsertedFiles(files, Queued(path, f, dupecheck), k);
      InsertedByDate(files, Queued(path, f, dupecheck), k);
      files := files[..k] + [Queued(path, f, dupecheck)] + files[k..];
    }
  }
}
