// Incremental MD5: blocking, padding and chunking.  The compression function is a parameter.
module Md5 {
  import opened Bits
  import HashOrder

  datatype State = State(a: Word, b: Word, c: Word, d: Word)

  const INITIAL: State := State(0x67452301, 0xefcdab89, 0x98badcfe, 0x10325476)
  const BUFFERSIZE: nat := 64
  const TWO64: nat := 0x1_0000_0000_0000_0000

  type Compression = (State, seq<Word>) -> State

  // ---------- the message digest of a whole message ----------

  function WordAt(block: seq<Byte>, i: nat): Word
    requires 4 * i + 3 < |block|
  {
    ((block[4 * i + 3] as Word) << 24) | ((block[4 * i + 2] as Word) << 16) |
    ((block[4 * i + 1] as Word) << 8) | (block[4 * i] as Word)
  }

  // A 64-byte block as little-endian words.
  function Words(block: seq<Byte>): seq<Word>
    requires |block| == BUFFERSIZE
  {
    seq(16, i requires 0 <= i < 16 => WordAt(block, i))
  }

  // The state after the first n whole blocks of a message.
  function Absorb(f: Compression, message: seq<Byte>, n: nat): State
    requires n * BUFFERSIZE <= |message|
  {
    if n == 0 then INITIAL
    else f(Absorb(f, message, n - 1), Words(message[(n - 1) * BUFFERSIZE..n * BUFFERSIZE]))
  }

  function ZeroBytes(n: nat): seq<Byte> {
    seq(n, _ => 0)
  }

  // Zero bytes between the 0x80 byte and the length, so that the length ends a block.
  function PadZeros(n: nat): nat {
    if n % BUFFERSIZE < 56 then 55 - n % BUFFERSIZE else 119 - n % BUFFERSIZE
  }

  // The low 64 bits of the number of bits, low byte first.
  function LengthBytes(n: nat): seq<Byte> {
    var bits := (8 * n) % TWO64;
    [ByteOf(bits, 0), ByteOf(bits, 1), ByteOf(bits, 2), ByteOf(bits, 3),
     ByteOf(bits, 4), ByteOf(bits, 5), ByteOf(bits, 6), ByteOf(bits, 7)]
  }

  function Power256(i: nat): nat {
    if i == 0 then 1 else 256 * Power256(i - 1)
  }

  // Byte i of a number.
  function ByteOf(n: nat, i: nat): Byte {
    ValueOfByte(n, i) as Byte
  }

  function ValueOfByte(n: nat, i: nat): (r: nat)
    ensures r < 256
  {
    if Power256(i) == 0 then 0 else (n / Power256(i)) % 256
  }

  // Sections 3.1 and 3.2 of RFC 1321.
  function Padded(message: seq<Byte>): (p: seq<Byte>)
    ensures |p| % BUFFERSIZE == 0
    ensures message <= p
  {
    PaddedLength(|message|);
    message + ([0x80] + ZeroBytes(PadZeros(|message|)) + LengthBytes(|message|))
  }

  lemma PaddedLength(n: nat)
    ensures (n + (1 + PadZeros(n) + 8)) % BUFFERSIZE == 0
  {
    var q, r := n / BUFFERSIZE, n % BUFFERSIZE;
    assert n == q * BUFFERSIZE + r;
    var c := if r < 56 then q + 1 else q + 2;
    assert n + (1 + PadZeros(n) + 8) == c * BUFFERSIZE;
  }

  function WordBytes(w: Word): seq<Byte> {
    [(w & 0xFF) as Byte, ((w >> 8) & 0xFF) as Byte, ((w >> 16) & 0xFF) as Byte, ((w >> 24) & 0xFF) as Byte]
  }

  function Output(s: State): seq<Byte> {
    WordBytes(s.a) + WordBytes(s.b) + WordBytes(s.c) + WordBytes(s.d)
  }

  function Digest(f: Compression, message: seq<Byte>): seq<Byte> {
    var p := Padded(message);
    Output(Absorb(f, p, |p| / BUFFERSIZE))
  }

  // ---------- byte order and padding, as RFC 1321 has them ----------

  // Words are made of bytes, and bytes of words, low byte first.
  lemma WordBytesBack(block: seq<Byte>, i: nat)
    requires 4 * i + 3 < |block|
    ensures WordBytes(WordAt(block, i)) == block[4 * i..4 * i + 4]
  {
    FourBytes(block[4 * i], block[4 * i + 1], block[4 * i + 2], block[4 * i + 3]);
  }

  lemma FourBytes(a: Byte, b: Byte, c: Byte, d: Byte)
    ensures var w := ((d as Word) << 24) | ((c as Word) << 16) | ((b as Word) << 8) | (a as Word);
      (w & 0xFF) as Byte == a && ((w >> 8) & 0xFF) as Byte == b && ((w >> 16) & 0xFF) as Byte == c && ((w >> 24) & 0xFF) as Byte == d
  {
  }

  // The state starts as the bytes 01 23 45 ... 32 10 (section 3.3).
  lemma InitialBytes()
    ensures Output(INITIAL) == [0x01, 0x23, 0x45, 0x67, 0x89, 0xab, 0xcd, 0xef, 0xfe, 0xdc, 0xba, 0x98, 0x76, 0x54, 0x32, 0x10]
  {
    assert WordBytes(INITIAL.a) == [0x01, 0x23, 0x45, 0x67];
    assert WordBytes(INITIAL.b) == [0x89, 0xab, 0xcd, 0xef];
    assert WordBytes(INITIAL.c) == [0xfe, 0xdc, 0xba, 0x98];
    assert WordBytes(INITIAL.d) == [0x76, 0x54, 0x32, 0x10];
  }

  // Behind the message one bit is set, zeros follow, and the last eight bytes are the number of bits, low
  // byte first and modulo 2^64; there are as few zeros as whole blocks allow (sections 3.1 and 3.2).
  lemma PaddingIs(message: seq<Byte>)
    ensures var p, n := Padded(message), |message|;
      && n + 9 <= |p| < n + 9 + BUFFERSIZE && |p| % BUFFERSIZE == 0
      && p[..n] == message && p[n] == 0x80
      && (forall k :: n < k < |p| - 8 ==> p[k] == 0)
      && HashOrder.Value(p[|p| - 8..]) == (8 * n) % TWO64
  {
    var p, n := Padded(message), |message|;
    var zeros, length := ZeroBytes(PadZeros(n)), LengthBytes(n);
    hide LengthBytes;
    assert p == message + ([0x80] + zeros + length);
    assert p[|p| - 8..] == length;
    LengthIs(n);
  }

  lemma LengthIs(n: nat)
    ensures |LengthBytes(n)| == 8 && HashOrder.Value(LengthBytes(n)) == (8 * n) % TWO64
  {
    var bits := (8 * n) % TWO64;
    assert Power256(4) == 0x1_0000_0000 && Power256(8) == TWO64;
    LengthValue(bits, 8);
    hide ByteOf, Power256, HashOrder.Value;
    assert LengthBytes(n) == Bytes(bits, 8);
  }

  function Bytes(n: nat, k: nat): seq<Byte> {
    seq(k, i requires 0 <= i < k => ByteOf(n, i))
  }

  lemma {:induction false} LengthValue(n: nat, k: nat)
    requires n < Power256(k)
    ensures HashOrder.Value(Bytes(n, k)) == n
  {
    if k > 0 {
      LengthValue(n / 256, k - 1);
      LowByte(n, k);
      hide Bytes, Power256;
    }
  }

  lemma LowByte(n: nat, k: nat)
    requires k > 0
    ensures |Bytes(n, k)| == k && Bytes(n, k)[0] as nat == n % 256 && Bytes(n, k)[1..] == Bytes(n / 256, k - 1)
  {
    FirstByte(n);
    hide ByteOf;
    forall i | 0 <= i < k - 1
      ensures Bytes(n, k)[1..][i] == Bytes(n / 256, k - 1)[i]
    {
      NextByte(n, i);
    }
  }

  lemma FirstByte(n: nat)
    ensures ByteOf(n, 0) as nat == n % 256
  {
    assert ValueOfByte(n, 0) == n % 256;
    ToByte(ValueOfByte(n, 0));
    hide ValueOfByte;
  }

  lemma NextByte(n: nat, i: nat)
    ensures ByteOf(n, i + 1) == ByteOf(n / 256, i)
  {
    PowerPositive(i);
    var p := Power256(i);
    assert Power256(i + 1) == 256 * p;
    DivideTwice(n, p);
    assert n / Power256(i + 1) == n / 256 / p;
  }

  lemma {:induction false} PowerPositive(i: nat)
    ensures Power256(i) > 0
  {
    if i > 0 { PowerPositive(i - 1); }
  }

  lemma DivideTwice(n: nat, p: nat)
    requires p > 0
    ensures n / (256 * p) == n / 256 / p
  {
    var d := n / 256 / p;
    var dp := d * p;
    assert dp <= n / 256 < dp + p by { Quotient(n / 256, p, d); }
    assert d * (256 * p) == 256 * dp;
    Quotient(n, 256 * p, d);
  }

  lemma Quotient(n: nat, m: nat, d: nat)
    requires m > 0
    ensures n / m == d <==> d * m <= n < d * m + m
  {
    var e := n / m;
    assert n == e * m + n % m;
    if d < e { assert d * m + m == (d + 1) * m <= e * m; }
    if e < d { assert e * m + m == (e + 1) * m <= d * m; }
  }

  // The blocks of a message do not depend on what follows them.
  lemma {:induction false} AbsorbPrefix(f: Compression, message: seq<Byte>, more: seq<Byte>, n: nat)
    requires n * BUFFERSIZE <= |message|
    ensures Absorb(f, message + more, n) == Absorb(f, message, n)
  {
    if n > 0 {
      AbsorbPrefix(f, message, more, n - 1);
      var lo, hi := (n - 1) * BUFFERSIZE, n * BUFFERSIZE;
      assert (message + more)[lo..hi] == message[lo..hi];
    }
  }

  // ---------- the context ----------

  class MD5Context {
    const compress: Compression
    var state: State
    const block: array<Byte>
    var used: nat
    var bytes: nat             // number of bytes, modulo 2^64
    ghost var message: seq<Byte>  // everything fed in so far

    ghost predicate Valid()
      reads this, block
    {
      Blocked() && bytes == |message| % TWO64
    }

    // The whole blocks are in the state, the rest is in the block.
    ghost predicate Blocked()
      reads this, block
    {
      && block.Length == BUFFERSIZE
      && used == |message| % BUFFERSIZE && used <= |message|
      && block[..used] == message[|message| - used..]
      && state == Absorb(compress, message, |message| / BUFFERSIZE)
    }

    constructor (f: Compression)
      ensures Valid() && fresh(block)
      ensures compress == f && message == []
    {
      compress := f;
      block := new Byte[BUFFERSIZE](_ => 0);
      state := INITIAL;
      used := 0;
      bytes := 0;
      message := [];
    }

    // Assignment between contexts.
    method CopyFrom(other: MD5Context)
      requires Valid() && other.Valid() && other.compress == compress
      requires block != other.block && this != other
      modifies this, block
      ensures Valid() && message == other.message
    {
      hide Absorb;
      state := other.state;
      used := other.used;
      bytes := other.bytes;
      forall k | 0 <= k < BUFFERSIZE {
        block[k] := other.block[k];
      }
      message := other.message;
      assert block[..used] == other.block[..used];
    }

    // Feed the bytes of a buffer.  Only what is fed counts, not how it is cut up.
    method Update(buffer: seq<Byte>)
      requires Valid()
      modifies this, block
      ensures Valid() && message == old(message) + buffer
    {
      ModuloAdd(|message|, |buffer|);
      bytes := (bytes + |buffer|) % TWO64;
      Process(buffer);
    }

    // Whole blocks first, then the remainder.
    method Process(buffer: seq<Byte>)
      requires Blocked()
      modifies this, block
      ensures Blocked() && bytes == old(bytes) && message == old(message) + buffer
    {
      hide Absorb;
      var current, length := 0, |buffer|;
      ghost var start := message;
      while used + length >= BUFFERSIZE
        invariant 0 <= current && 0 <= length && current + length == |buffer|
        invariant message == start + buffer[..current]
        invariant Blocked() && bytes == old(bytes)
        decreases length
      {
        var have := BUFFERSIZE - used;
        assert buffer[..current] + buffer[current..current + have] == buffer[..current + have];
        FillBlock(buffer[current..current + have]);
        current := current + have;
        length := length - have;
      }
      assert buffer[..current] + buffer[current..] == buffer;
      if length > 0 {
        StoreRemainder(buffer[current..]);
      }
    }

    // Fill the block up and compress it.
    method FillBlock(piece: seq<Byte>)
      requires Blocked() && used + |piece| == BUFFERSIZE
      modifies this, block
      ensures Blocked() && used == 0 && bytes == old(bytes)
      ensures message == old(message) + piece
    {
      CopyIn(piece);
      BlockCompleted(compress, message, used, piece, block[..]);
      state := compress(state, Words(block[..]));
      used := 0;
      message := message + piece;
    }

    method StoreRemainder(piece: seq<Byte>)
      requires Blocked() && used + |piece| < BUFFERSIZE
      modifies this, block
      ensures Blocked() && bytes == old(bytes)
      ensures message == old(message) + piece
    {
      CopyIn(piece);
      BlockExtended(compress, message, used, piece, block[..used + |piece|]);
      used := used + |piece|;
      message := message + piece;
    }

    // memcpy to the first free place of the block.
    method CopyIn(piece: seq<Byte>)
      requires block.Length == BUFFERSIZE && used + |piece| <= BUFFERSIZE
      modifies block
      ensures block[..used + |piece|] == old(block[..used]) + piece
    {
      forall k | 0 <= k < |piece| {
        block[used + k] := piece[k];
      }
    }

    // Feed zero bytes.
    method UpdateZeros(length: nat)
      requires Valid()
      modifies this, block
      ensures Valid() && message == old(message) + ZeroBytes(length)
    {
      var left := length;
      ghost var start := message;
      if used > 0 {
        var size := if BUFFERSIZE - used < left then BUFFERSIZE - used else left;
        Update(ZeroBytes(size));
        left := left - size;
      }
      while left >= BUFFERSIZE
        invariant Valid()
        invariant 0 <= left <= length
        invariant message == start + ZeroBytes(length - left)
      {
        Update(ZeroBytes(BUFFERSIZE));
        left := left - BUFFERSIZE;
      }
      if left > 0 {
        Update(ZeroBytes(left));
      }
    }

    // Pad, append the length, and read out the hash.
    method Final() returns (output: seq<Byte>)
      requires Valid()
      modifies this, block
      ensures output == Digest(compress, old(message))
    {
      hide Absorb, ByteOf;
      ghost var m := message;
      var bits := (bytes * 8) % TWO64;
      BitsModulo(|m|);
      var padding := if used >= BUFFERSIZE - 8 then BUFFERSIZE - 8 + BUFFERSIZE - used else BUFFERSIZE - 8 - used;
      Update([0x80] + ZeroBytes(padding - 1));
      ghost var padded := m + ([0x80] + ZeroBytes(PadZeros(|m|)));
      assert message == padded;
      Update([ByteOf(bits, 0), ByteOf(bits, 1), ByteOf(bits, 2), ByteOf(bits, 3),
              ByteOf(bits, 4), ByteOf(bits, 5), ByteOf(bits, 6), ByteOf(bits, 7)]);
      assert message == padded + LengthBytes(|m|);
      assert message == Padded(m);
      output := Output(state);
    }
  }

  // Shifting the wrapped byte count left by three gives the wrapped bit count.
  lemma BitsModulo(n: nat)
    ensures ((n % TWO64) * 8) % TWO64 == (8 * n) % TWO64
  {
    var q, r := n / TWO64, n % TWO64;
    assert 8 * n == 8 * q * TWO64 + 8 * r;
    ModuloSkip(8 * q, 8 * r);
  }

  lemma ModuloAdd(n: nat, k: nat)
    ensures ((n % TWO64) + k) % TWO64 == (n + k) % TWO64
  {
    ModuloSkip(n / TWO64, n % TWO64 + k);
  }

  lemma ModuloSkip(k: nat, r: nat)
    ensures (k * TWO64 + r) % TWO64 == r % TWO64
  {
    if k > 0 {
      ModuloSkip(k - 1, r);
      assert k * TWO64 + r == ((k - 1) * TWO64 + r) + TWO64;
    }
  }

  // Filling the block up completes one more block of the message.
  lemma BlockCompleted(f: Compression, message: seq<Byte>, used: nat, piece: seq<Byte>, block: seq<Byte>)
    requires used == |message| % BUFFERSIZE && used + |piece| == BUFFERSIZE
    requires block == message[|message| - used..] + piece
    ensures var m := message + piece;
      && |m| % BUFFERSIZE == 0
      && |block| == BUFFERSIZE
      && Absorb(f, m, |m| / BUFFERSIZE) == f(Absorb(f, message, |message| / BUFFERSIZE), Words(block))
  {
    var m := message + piece;
    var n := |message| / BUFFERSIZE;
    assert |m| == (n + 1) * BUFFERSIZE;
    assert m[n * BUFFERSIZE..(n + 1) * BUFFERSIZE] == block;
    AbsorbPrefix(f, message, piece, n);
  }

  // A piece that does not fill the block leaves the blocks as they were.
  lemma BlockExtended(f: Compression, message: seq<Byte>, used: nat, piece: seq<Byte>, block: seq<Byte>)
    requires used == |message| % BUFFERSIZE && used + |piece| < BUFFERSIZE
    requires block == message[|message| - used..] + piece
    ensures var m := message + piece;
      && |m| % BUFFERSIZE == used + |piece|
      && block == m[|m| - used - |piece|..]
      && Absorb(f, m, |m| / BUFFERSIZE) == Absorb(f, message, |message| / BUFFERSIZE)
  {
    var m := message + piece;
    var n := |message| / BUFFERSIZE;
    assert |m| == n * BUFFERSIZE + (used + |piece|);
    assert |m| / BUFFERSIZE == n && |m| % BUFFERSIZE == used + |piece|;
    AbsorbPrefix(f, message, piece, n);
  }
}
