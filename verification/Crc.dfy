// Table-driven CRC-32 and its sliding-window form.
//
// The reference is the bitwise definition: xor the byte into the low end, then shift out eight
// bits.  The table form computes the same, and sliding the window by one byte with the two
// tables and the mask computes the same as starting over at the next byte.
module Crc {
  import opened Bits

  const POLYNOMIAL: Word := 0xEDB88320
  const ONES: Word := 0xFFFF_FFFF

  // ---------- bit by bit ----------

  function ShiftOut(polynomial: Word, crc: Word): Word {
    Xor(Half(crc), if crc & 1 == 1 then polynomial else 0)
  }

  function ShiftOutMany(polynomial: Word, crc: Word, n: nat): Word {
    if n == 0 then crc else ShiftOut(polynomial, ShiftOutMany(polynomial, crc, n - 1))
  }

  const CHAR_BIT: nat := 8

  // The bitwise CRC of one more byte, and of a block.
  function BitwiseChar(crc: Word, ch: Byte): Word {
    ShiftOutMany(POLYNOMIAL, Xor(crc, ch as Word), CHAR_BIT)
  }

  function Block(crc: Word, data: seq<Byte>): Word {
    if |data| == 0 then crc else BitwiseChar(Block(crc, data[..|data| - 1]), data[|data| - 1])
  }

  // The checksum of a block of data.
  function Checksum(data: seq<Byte>): Word {
    Xor(ONES, Block(ONES, data))
  }

  // The polynomial is that of IEEE 802.3, the coefficient of the highest power in the lowest bit.
  lemma PolynomialIs()
    ensures POLYNOMIAL == At(26) | At(23) | At(22) | At(16) | At(12) | At(11) | At(10) | At(8) | At(7) | At(5) | At(4) | At(2) | At(1) | At(0)
  {
  }

  // The bit of a power.
  function At(power: nat): Word
    requires power < 32
  {
    1 << (31 - power)
  }

  // A known checksum: that of the letter a.
  lemma ChecksumOfA()
    ensures Checksum([0x61]) == 0xe8b7be43
  {
    var p := POLYNOMIAL;
    var start := Xor(ONES, 0x61);
    assert Block(ONES, []) == ONES && [0x61 as Byte][..0] == [];
    assert ShiftOutMany(p, start, 1) == 0x7fffffcf;
    assert ShiftOutMany(p, start, 2) == 0xd2477cc7;
    assert ShiftOutMany(p, start, 3) == 0x849b3d43;
    assert ShiftOutMany(p, start, 4) == 0xaff51d81;
    assert ShiftOutMany(p, start, 5) == 0xba420de0;
    assert ShiftOutMany(p, start, 6) == 0x5d2106f0;
    assert ShiftOutMany(p, start, 7) == 0x2e908378;
    assert ShiftOutMany(p, start, 8) == 0x174841bc;
  }

  lemma ShiftOutLinear(polynomial: Word, a: Word, b: Word)
    ensures ShiftOut(polynomial, Xor(a, b)) == Xor(ShiftOut(polynomial, a), ShiftOut(polynomial, b))
  {
    hide Xor, Half;
    HalfXor(a, b);
    LowBitXor(a, b);
    var pa: Word := if a & 1 == 1 then polynomial else 0;
    var pb: Word := if b & 1 == 1 then polynomial else 0;
    XorSwap(Half(a), pa, Half(b), pb);
    XorSelf(polynomial);
    XorSelf(0);
    XorSelf(1);
    assert Xor(pa, pb) == if Xor(a, b) & 1 == 1 then polynomial else 0;
  }

  lemma {:induction false} ShiftOutManyLinear(polynomial: Word, a: Word, b: Word, n: nat)
    ensures ShiftOutMany(polynomial, Xor(a, b), n) == Xor(ShiftOutMany(polynomial, a, n), ShiftOutMany(polynomial, b, n))
  {
    hide Xor, ShiftOut;
    if n > 0 {
      ShiftOutManyLinear(polynomial, a, b, n - 1);
      ShiftOutLinear(polynomial, ShiftOutMany(polynomial, a, n - 1), ShiftOutMany(polynomial, b, n - 1));
    }
  }

  lemma {:induction false} ShiftOutManyAdd(polynomial: Word, crc: Word, m: nat, n: nat)
    ensures ShiftOutMany(polynomial, crc, m + n) == ShiftOutMany(polynomial, ShiftOutMany(polynomial, crc, m), n)
  {
    hide ShiftOut;
    if n > 0 { ShiftOutManyAdd(polynomial, crc, m, n - 1); }
  }

  // Zero low bits are simply shifted out: one, two, four, and eight of them.
  lemma ShiftOutZero1(polynomial: Word, x: Word)
    requires x & 1 == 0
    ensures ShiftOutMany(polynomial, x, 1) == x >> 1
  {
    XorSelf(x >> 1);
    assert ShiftOutMany(polynomial, x, 0) == x;
  }

  lemma ShiftOutZero2(polynomial: Word, x: Word)
    requires x & 3 == 0
    ensures ShiftOutMany(polynomial, x, 2) == x >> 2
  {
    hide ShiftOutMany;
    Bits2(x);
    ShiftOutZero1(polynomial, x);
    ShiftOutZero1(polynomial, x >> 1);
    ShiftOutManyAdd(polynomial, x, 1, 1);
  }

  lemma ShiftOutZero4(polynomial: Word, x: Word)
    requires x & 15 == 0
    ensures ShiftOutMany(polynomial, x, 4) == x >> 4
  {
    hide ShiftOutMany;
    Bits4(x);
    ShiftOutZero2(polynomial, x);
    ShiftOutZero2(polynomial, x >> 2);
    ShiftOutManyAdd(polynomial, x, 2, 2);
  }

  lemma ShiftOutZeros(polynomial: Word, x: Word)
    requires x & 255 == 0
    ensures ShiftOutMany(polynomial, x, CHAR_BIT) == x >> 8
  {
    hide ShiftOutMany;
    Bits8(x);
    ShiftOutZero4(polynomial, x);
    ShiftOutZero4(polynomial, x >> 4);
    ShiftOutManyAdd(polynomial, x, 4, 4);
  }

  // ---------- the table ----------

  function Entry(b: Byte): Word {
    ShiftOutMany(POLYNOMIAL, b as Word, CHAR_BIT)
  }

  ghost predicate IsTable(t: seq<Word>) {
    |t| == 256 && forall b: Byte :: t[b as int] == Entry(b)
  }

  function CRCUpdateChar(table: seq<Word>, crc: Word, ch: Byte): Word
    requires |table| == 256
  {
    Xor(High(crc), table[Low(crc, ch) as int])
  }

  lemma HighPart(crc: Word)
    ensures ShiftOutMany(POLYNOMIAL, crc & 0xFFFF_FF00, CHAR_BIT) == High(crc)
  {
    hide ShiftOutMany, Xor;
    SplitLow(crc, 0);
    ShiftOutZeros(POLYNOMIAL, crc & 0xFFFF_FF00);
  }

  // One table step is the bitwise CRC of one byte.
  lemma TableIsBitwise(table: seq<Word>, crc: Word, ch: Byte)
    requires IsTable(table)
    ensures CRCUpdateChar(table, crc, ch) == BitwiseChar(crc, ch)
  {
    hide Xor, ShiftOutMany, High, Low;
    calc {
      BitwiseChar(crc, ch);
      ShiftOutMany(POLYNOMIAL, Xor(crc, ch as Word), CHAR_BIT);
      { SplitLow(crc, ch); }
      ShiftOutMany(POLYNOMIAL, Xor(crc & 0xFFFF_FF00, Low(crc, ch) as Word), CHAR_BIT);
      { ShiftOutManyLinear(POLYNOMIAL, crc & 0xFFFF_FF00, Low(crc, ch) as Word, CHAR_BIT); }
      Xor(ShiftOutMany(POLYNOMIAL, crc & 0xFFFF_FF00, CHAR_BIT), Entry(Low(crc, ch)));
      { HighPart(crc); }
      Xor(High(crc), Entry(Low(crc, ch)));
      { assert table[Low(crc, ch) as int] == Entry(Low(crc, ch)); }
      CRCUpdateChar(table, crc, ch);
    }
  }

  method GenerateCRC32Table(polynomial: Word, table: array<Word>)
    requires table.Length == 256
    modifies table
    ensures forall k :: 0 <= k < 256 ==> table[k] == ShiftOutMany(polynomial, k as Word, CHAR_BIT)
    ensures polynomial == POLYNOMIAL ==> IsTable(table[..])
  {
    for i := 0 to 256
      invariant forall k :: 0 <= k < i ==> table[k] == ShiftOutMany(polynomial, k as Word, CHAR_BIT)
    {
      var crc := i as Word;
      for j := 0 to CHAR_BIT
        invariant crc == ShiftOutMany(polynomial, i as Word, j)
      {
        crc := Xor(Half(crc), if crc & 1 == 1 then polynomial else 0);
      }
      table[i] := crc;
    }
    if polynomial == POLYNOMIAL {
      forall b: Byte
        ensures table[..][b as int] == Entry(b)
      {
        ByteToWord(b);
      }
    }
  }

  method CRCUpdateBlock(table: seq<Word>, crc0: Word, data: seq<Byte>) returns (crc: Word)
    requires IsTable(table)
    ensures crc == Block(crc0, data)
  {
    hide Xor, ShiftOutMany, High, Low, BitwiseChar;
    crc := crc0;
    for i := 0 to |data|
      invariant crc == Block(crc0, data[..i])
    {
      TableIsBitwise(table, crc, data[i]);
      assert data[..i + 1][..i] == data[..i];
      crc := Xor(High(crc), table[Low(crc, data[i]) as int]);
    }
    assert data[..|data|] == data;
  }

  function Zeros(n: nat): seq<Byte> {
    if n == 0 then [] else Zeros(n - 1) + [0]
  }

  lemma {:induction false} ZerosAre(n: nat)
    ensures |Zeros(n)| == n && forall k :: 0 <= k < n ==> Zeros(n)[k] == 0
  {
    if n > 0 { ZerosAre(n - 1); }
  }

  // One table step on a zero byte lengthens a block of zeros by one.
  lemma ZerosStep(table: seq<Word>, start: Word, n: nat)
    requires IsTable(table)
    ensures var crc := Block(start, Zeros(n));
      Block(start, Zeros(n + 1)) == Xor(High(crc), table[Low(crc, 0) as int])
  {
    hide Xor, ShiftOutMany, High, Low, BitwiseChar;
    var crc := Block(start, Zeros(n));
    TableIsBitwise(table, crc, 0);
    assert Zeros(n + 1)[..|Zeros(n)|] == Zeros(n);
  }

  // The form of CRCUpdateBlock that takes zero bytes.
  method CRCUpdateZeros(table: seq<Word>, crc0: Word, length: nat) returns (crc: Word)
    requires IsTable(table)
    ensures crc == Block(crc0, Zeros(length))
  {
    hide Xor, ShiftOutMany, High, Low, BitwiseChar;
    crc := crc0;
    var left := length;
    while left > 0
      invariant 0 <= left <= length
      invariant crc == Block(crc0, Zeros(length - left))
    {
      ZerosStep(table, crc0, length - left);
      left := left - 1;
      crc := Xor(High(crc), table[Low(crc, 0) as int]);
    }
  }

  // ---------- blocks are linear ----------

  function XorAll(a: seq<Byte>, b: seq<Byte>): seq<Byte>
    requires |a| == |b|
  {
    seq(|a|, i requires 0 <= i < |a| => a[i] ^ b[i])
  }

  lemma BitwiseCharLinear(c: Word, d: Word, x: Byte, y: Byte)
    ensures BitwiseChar(Xor(c, d), x ^ y) == Xor(BitwiseChar(c, x), BitwiseChar(d, y))
  {
    hide Xor, ShiftOutMany;
    XorBytes(c, d, x, y);
    ShiftOutManyLinear(POLYNOMIAL, Xor(c, x as Word), Xor(d, y as Word), CHAR_BIT);
  }

  lemma {:induction false} BlockLinear(c: Word, d: Word, a: seq<Byte>, b: seq<Byte>)
    requires |a| == |b|
    ensures Block(Xor(c, d), XorAll(a, b)) == Xor(Block(c, a), Block(d, b))
  {
    hide Xor, BitwiseChar;
    if |a| > 0 {
      var n := |a| - 1;
      assert XorAll(a, b)[..n] == XorAll(a[..n], b[..n]);
      BlockLinear(c, d, a[..n], b[..n]);
      BitwiseCharLinear(Block(c, a[..n]), Block(d, b[..n]), a[n], b[n]);
    }
  }

  // A block may be taken in two pieces.
  lemma {:induction false} BlockAppend(crc: Word, a: seq<Byte>, b: seq<Byte>)
    ensures Block(crc, a + b) == Block(Block(crc, a), b)
  {
    hide Xor, BitwiseChar;
    if |b| == 0 {
      assert a + b == a;
    } else {
      var n := |b| - 1;
      assert (a + b)[..|a + b| - 1] == a + b[..n];
      BlockAppend(crc, a, b[..n]);
    }
  }

  // ---------- the window ----------

  // The window table takes a byte back out after `window` further bytes.
  ghost predicate IsWindowTable(t: seq<Word>, window: nat) {
    |t| == 256 && forall b: Byte :: t[b as int] == Block(Entry(b), Zeros(window))
  }

  function Mask(window: nat): Word {
    Xor(ONES, Block(ONES, Zeros(window)))
  }

  method GenerateWindowTable(table: seq<Word>, window: nat, target: array<Word>)
    requires IsTable(table) && target.Length == 256
    modifies target
    ensures IsWindowTable(target[..], window)
  {
    hide Xor, ShiftOutMany, High, Low, BitwiseChar;
    for i := 0 to 256
      invariant forall k :: 0 <= k < i ==> target[k] == Block(table[k], Zeros(window))
    {
      var crc := table[i];
      assert Block(crc, []) == crc;
      for j := 0 to window
        invariant crc == Block(table[i], Zeros(j))
        invariant forall k :: 0 <= k < i ==> target[k] == Block(table[k], Zeros(window))
      {
        ZerosStep(table, table[i], j);
        crc := Xor(High(crc), table[Low(crc, 0) as int]);
      }
      assert crc == Block(table[i], Zeros(window));
      target[i] := crc;
      assert target[i] == Block(table[i], Zeros(window));
    }
    forall b: Byte
      ensures target[..][b as int] == Block(Entry(b), Zeros(window))
    {
      ByteToWord(b);
      assert table[b as int] == Entry(b);
    }
  }

  method ComputeWindowMask(table: seq<Word>, window: nat) returns (result: Word)
    requires IsTable(table)
    ensures result == Mask(window)
  {
    hide Xor, ShiftOutMany, High, Low, BitwiseChar;
    result := ONES;
    var left := window;
    while left > 0
      invariant 0 <= left <= window
      invariant result == Block(ONES, Zeros(window - left))
    {
      ZerosStep(table, ONES, window - left);
      assert CRCUpdateChar(table, result, 0) == Xor(High(result), table[Low(result, 0) as int]);
      result := CRCUpdateChar(table, result, 0);
      left := left - 1;
    }
    XorCommutes(ONES, result);
    result := Xor(result, ONES);
  }

  function CRCSlideChar(table: seq<Word>, windowtable: seq<Word>, crc: Word, chNew: Byte, chOld: Byte): Word
    requires |table| == |windowtable| == 256
  {
    Xor(Xor(High(crc), table[Low(crc, chNew) as int]), windowtable[chOld as int])
  }

  // The mask takes the all-ones start value out of a checksum, and puts it back.
  lemma MaskRemovesStart(data: seq<Byte>)
    ensures Xor(Mask(|data|), Checksum(data)) == Block(0, data)
    ensures Xor(Mask(|data|), Block(0, data)) == Checksum(data)
  {
    hide Xor, BitwiseChar;
    var z := Zeros(|data|);
    ZerosAre(|data|);
    assert XorAll(z, data) == data;
    BlockLinear(ONES, 0, z, data);
    XorSelf(ONES);
    var p, q := Block(ONES, z), Block(0, data);
    XorSwap(ONES, p, ONES, Xor(p, q));
    XorCancel(p, q);
    XorAssociates(ONES, p, q);
    XorSelf(q);
  }

  // The window table holds what a byte contributes once `window` bytes have followed it.
  lemma OldByteContributes(b: Byte, window: nat)
    ensures Block(Entry(b), Zeros(window)) == Block(0, [b] + Zeros(window))
  {
    hide Xor, ShiftOutMany;
    BlockAppend(0, [b], Zeros(window));
    XorSelf(b as Word);
    assert [b][..0] == [];
    assert Block(0, []) == 0;
  }

  // A leading zero byte does not show in a block started at zero.
  lemma LeadingZero(rest: seq<Byte>)
    ensures Block(0, [0] + rest) == Block(0, rest)
  {
    hide Xor, ShiftOutMany;
    BlockAppend(0, [0], rest);
    XorSelf(0);
    ShiftOutZeros(POLYNOMIAL, 0);
    assert [0 as Byte][..0] == [];
    assert Block(0, []) == 0;
  }

  // Xoring the first byte with itself clears it and leaves the rest.
  lemma XorFirst(data: seq<Byte>)
    requires |data| > 0
    ensures |Zeros(|data| - 1)| == |data| - 1
    ensures XorAll(data, [data[0]] + Zeros(|data| - 1)) == [0] + data[1..]
  {
    ZerosAre(|data| - 1);
    forall k | 0 <= k < |data|
      ensures XorAll(data, [data[0]] + Zeros(|data| - 1))[k] == ([0] + data[1..])[k]
    {
      if k == 0 { assert data[0] ^ data[0] == 0; } else { assert data[k] ^ 0 == data[k]; }
    }
  }

  // Sliding equals recomputing: for every window size, data and byte moving in, sliding the
  // checksum of the window gives the checksum of the window one byte on.
  lemma SlideIsRecompute(table: seq<Word>, windowtable: seq<Word>, data: seq<Byte>)
    requires |data| > 0
    requires IsTable(table) && IsWindowTable(windowtable, |data| - 1)
    ensures var w := |data| - 1;
      Xor(Mask(w), CRCSlideChar(table, windowtable, Xor(Mask(w), Checksum(data[..w])), data[w], data[0]))
      == Checksum(data[1..])
  {
    hide Xor, ShiftOutMany, BitwiseChar, Low, Mask, Checksum;
    var w := |data| - 1;
    MaskRemovesStart(data[..w]);
    var c := Block(0, data[..w]);
    TableIsBitwise(table, c, data[w]);
    assert CRCUpdateChar(table, c, data[w]) == Block(0, data);
    OldByteContributes(data[0], w);
    ZerosAre(w);
    BlockLinear(0, 0, data, [data[0]] + Zeros(w));
    XorSelf(0);
    XorFirst(data);
    LeadingZero(data[1..]);
    MaskRemovesStart(data[1..]);
  }
}
