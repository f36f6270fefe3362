// Words and bytes, with the laws of the bit operations the checksum uses.
//
// Exclusive or is named, so that the proofs about whole blocks can rest on its laws alone.
module Bits {
  type Byte = bv8
  type Word = bv32

  function Xor(a: Word, b: Word): Word { a ^ b }

  lemma XorCommutes(a: Word, b: Word)
    ensures Xor(a, b) == Xor(b, a)
  {
  }

  lemma AssociatesBits(a: Word, b: Word, c: Word)
    ensures (a ^ b) ^ c == a ^ (b ^ c)
  {
  }

  lemma XorIs(a: Word, b: Word)
    ensures Xor(a, b) == a ^ b
  {
  }

  lemma XorAssociates(a: Word, b: Word, c: Word)
    ensures Xor(Xor(a, b), c) == Xor(a, Xor(b, c))
  {
    hide Xor;
    XorIs(a, b);
    XorIs(b, c);
    XorIs(Xor(a, b), c);
    XorIs(a, Xor(b, c));
    AssociatesBits(a, b, c);
  }

  lemma XorSelf(a: Word)
    ensures Xor(a, a) == 0 && Xor(a, 0) == a && Xor(0, a) == a
  {
  }

  // Four terms may be paired the other way round.
  lemma XorSwap(a: Word, b: Word, c: Word, d: Word)
    ensures Xor(Xor(a, b), Xor(c, d)) == Xor(Xor(a, c), Xor(b, d))
  {
    hide Xor;
    calc {
      Xor(Xor(a, b), Xor(c, d));
      { XorAssociates(a, b, Xor(c, d)); XorAssociates(b, c, d); }
      Xor(a, Xor(Xor(b, c), d));
      { XorCommutes(b, c); XorAssociates(c, b, d); }
      Xor(a, Xor(c, Xor(b, d)));
      { XorAssociates(a, c, Xor(b, d)); }
      Xor(Xor(a, c), Xor(b, d));
    }
  }

  // A term occurring twice cancels.
  lemma XorCancel(a: Word, b: Word)
    ensures Xor(a, Xor(a, b)) == b
  {
    hide Xor;
    XorAssociates(a, a, b);
    XorSelf(a);
    XorSelf(b);
  }

  // One bit shifted out at the low end.
  function Half(a: Word): Word { a >> 1 }

  lemma HalfXor(a: Word, b: Word)
    ensures Half(Xor(a, b)) == Xor(Half(a), Half(b))
  {
    calc {
      Half(Xor(a, b));
      (a ^ b) >> 1;
      (a >> 1) ^ (b >> 1);
      Xor(Half(a), Half(b));
    }
  }

  lemma LowBits(a: Word, b: Word)
    ensures (a ^ b) & 1 == (a & 1) ^ (b & 1)
    ensures (a & 1 == 0 || a & 1 == 1) && (b & 1 == 0 || b & 1 == 1)
  {
  }

  lemma LowBitXor(a: Word, b: Word)
    ensures Xor(a, b) & 1 == Xor(a & 1, b & 1)
    ensures (a & 1 == 0 || a & 1 == 1) && (b & 1 == 0 || b & 1 == 1)
  {
    LowBits(a, b);
  }

  lemma Bits2(x: Word)
    requires x & 3 == 0
    ensures x & 1 == 0 && (x >> 1) & 1 == 0 && (x >> 1) >> 1 == x >> 2
  {
  }

  lemma Bits4(x: Word)
    requires x & 15 == 0
    ensures x & 3 == 0 && (x >> 2) & 3 == 0 && (x >> 2) >> 2 == x >> 4
  {
  }

  lemma Bits8(x: Word)
    requires x & 255 == 0
    ensures x & 15 == 0 && (x >> 4) & 15 == 0 && (x >> 4) >> 4 == x >> 8
  {
  }

  // The high three bytes, moved down.
  function High(crc: Word): Word {
    (crc >> 8) & 0x00ffffff
  }

  // The low byte, with the incoming byte.
  function Low(crc: Word, ch: Byte): Byte {
    ((crc & 0xFF) as Byte) ^ ch
  }

  lemma SplitBits(crc: Word, ch: Byte)
    ensures crc ^ (ch as Word) == (crc & 0xFFFF_FF00) ^ ((((crc & 0xFF) as Byte) ^ ch) as Word)
    ensures (crc & 0xFFFF_FF00) & 0xFF == 0
    ensures (crc & 0xFFFF_FF00) >> 8 == (crc >> 8) & 0x00ffffff
  {
  }

  lemma SplitLow(crc: Word, ch: Byte)
    ensures Xor(crc, ch as Word) == Xor(crc & 0xFFFF_FF00, Low(crc, ch) as Word)
    ensures (crc & 0xFFFF_FF00) & 0xFF == 0
    ensures (crc & 0xFFFF_FF00) >> 8 == High(crc)
  {
    SplitBits(crc, ch);
  }

  lemma ByteIndex(b: Byte)
    ensures 0 <= b as int < 256 && (b as Word) as int == b as int
  {
  }

  lemma WordIndex(w: Word)
    ensures (w as int) as Word == w
  {
  }

  lemma ByteToWord(b: Byte)
    ensures 0 <= b as int < 256 && (b as int) as Word == b as Word
  {
    ByteIndex(b);
    WordIndex(b as Word);
  }

  lemma ByteBits(c: Word, d: Word, x: Byte, y: Byte)
    ensures (c ^ d) ^ ((x ^ y) as Word) == (c ^ (x as Word)) ^ (d ^ (y as Word))
  {
  }

  lemma XorBytes(c: Word, d: Word, x: Byte, y: Byte)
    ensures Xor(Xor(c, d), (x ^ y) as Word) == Xor(Xor(c, x as Word), Xor(d, y as Word))
  {
    calc {
      Xor(Xor(c, d), (x ^ y) as Word);
      (c ^ d) ^ ((x ^ y) as Word);
      { ByteBits(c, d, x, y); }
      (c ^ (x as Word)) ^ (d ^ (y as Word));
      Xor(Xor(c, x as Word), Xor(d, y as Word));
    }
  }

  // Every number below 256 is that of a byte, found by counting up.
  lemma {:induction false} SomeByte(x: nat) returns (b: Byte)
    requires x < 256
    ensures b as nat == x
  {
    if x == 0 {
      b := 0;
    } else {
      var c := SomeByte(x - 1);
      NextByte(c);
      b := c + 1;
    }
  }

  lemma NextByte(b: Byte)
    ensures b as nat < 255 ==> (b + 1) as nat == b as nat + 1
  {
  }

  lemma ByteBack(b: Byte)
    ensures (b as nat) as Byte == b
  {
  }

  lemma ToByte(x: nat)
    requires x < 256
    ensures (x as Byte) as nat == x
  {
    var b := SomeByte(x);
    ByteBack(b);
  }
}
