// The order of MD5 hashes, and of (checksum, hash) pairs.
module HashOrder {
  import opened Bits

  const HASHSIZE: nat := 16

  type Hash = h: seq<Byte> | |h| == HASHSIZE witness seq(HASHSIZE, _ => 0)

  // The hash read as a number, low byte first.
  function Value(h: seq<Byte>): nat {
    if |h| == 0 then 0 else (h[0] as nat) + 256 * Value(h[1..])
  }

  lemma {:induction false} ValueInjective(a: seq<Byte>, b: seq<Byte>)
    requires |a| == |b| && Value(a) == Value(b)
    ensures a == b
  {
    if |a| > 0 {
      ByteNumber(a[0], b[0]);
      ValueInjective(a[1..], b[1..]);
      assert a == [a[0]] + a[1..] && b == [b[0]] + b[1..];
    }
  }

  lemma ByteNumber(x: Byte, y: Byte)
    ensures 0 <= x as nat < 256
    ensures x as nat == y as nat ==> x == y
    ensures x < y <==> (x as nat) < (y as nat)
  {
  }

  // The highest byte that differs decides.
  lemma {:induction false} HighestDecides(a: seq<Byte>, b: seq<Byte>, i: nat)
    requires |a| == |b| && i < |a|
    requires a[i + 1..] == b[i + 1..]
    ensures a[i] as nat < b[i] as nat ==> Value(a) < Value(b)
  {
    if i == 0 {
    } else {
      assert a[1..][i..] == a[i + 1..] && b[1..][i..] == b[i + 1..];
      HighestDecides(a[1..], b[1..], i - 1);
      ByteNumber(a[0], b[0]);
    }
  }

  // MD5Hash's operator<.
  method HashLess(a: Hash, b: Hash) returns (less: bool)
    ensures less <==> Value(a) < Value(b)
  {
    var index := 15;
    while index > 0 && a[index] == b[index]
      invariant 0 <= index <= 15
      invariant a[index + 1..] == b[index + 1..]
    {
      assert a[index..] == [a[index]] + a[index + 1..];
      assert b[index..] == [b[index]] + b[index + 1..];
      index := index - 1;
    }
    HighestDecides(a, b, index);
    HighestDecides(b, a, index);
    ByteNumber(a[index], b[index]);
    ByteNumber(b[index], a[index]);
    if a[index] == b[index] {
      assert a == [a[0]] + a[1..] && b == [b[0]] + b[1..];
      assert a == b;
    }
    less := a[index] < b[index];
  }

  // ---------- checksum, then hash ----------

  // An unsigned 32-bit number.
  type U32 = n: nat | n < 0x1_0000_0000

  datatype Key = Key(crc: U32, hash: Hash)

  predicate Below(a: Key, b: Key) {
    a.crc < b.crc || (a.crc == b.crc && Value(a.hash) < Value(b.hash))
  }

  // A strict total order whose ties are exactly the equal keys.
  lemma BelowTotal(a: Key, b: Key)
    ensures !(Below(a, b) && Below(b, a))
    ensures !Below(a, b) && !Below(b, a) <==> a == b
  {
    hide Value;
    if Value(a.hash) == Value(b.hash) { ValueInjective(a.hash, b.hash); }
  }

  // The entry's operator<.
  method KeyLess(a: Key, b: Key) returns (less: bool)
    ensures less <==> Below(a, b)
  {
    if a.crc < b.crc { return true; }
    var below := HashLess(a.hash, b.hash);
    return a.crc == b.crc && below;
  }
}
