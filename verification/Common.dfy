// Shared value types.
module Common {
  datatype Option<+T> = None | Some(value: T)

  lemma Assoc<T>(x: seq<T>, y: seq<T>, z: seq<T>)
    ensures x + (y + z) == (x + y) + z
  {
  }

  // Replacing one element of a sequence by a stretch.
  lemma Splice<T>(s: seq<T>, a: seq<T>, rest: seq<T>, k: seq<T>)
    requires s == a + rest && |rest| > 0
    ensures s[|a|] == rest[0]
    ensures s[..|a|] + k + s[|a| + 1..] == a + k + rest[1..]
  {
    assert s[..|a|] == a;
    assert s[|a| + 1..] == rest[1..];
  }

  lemma Beside<T>(x: multiset<T>, a: multiset<T>, b: multiset<T>, c: multiset<T>, d: multiset<T>)
    requires a + b == c + d
    ensures (x + a) + b == (x + c) + d
  {
    assert (x + a) + b == x + (a + b) && (x + c) + d == x + (c + d);
  }
}
