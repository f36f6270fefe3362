// Looking for PAR2 packets in a file: a buffered search that picks up again after damage.
module PacketScan {
  import opened Bits
  import opened Common
  import opened FileCheckSummer
  import Md5
  import HashOrder

  const HEADERSIZE: nat := 64
  const SETIDOFFSET: nat := 32
  const MAGIC: seq<Byte> := [0x50, 0x41, 0x52, 0x32, 0x00, 0x50, 0x4B, 0x54]    // PAR2\0PKT
  const TWO64: nat := 0x1_0000_0000_0000_0000

  // ---------- packets ----------

  // The fields of a packet header.
  datatype Header = Header(magic: seq<Byte>, length: nat, hash: seq<Byte>, setid: seq<Byte>)

  function HeaderOf(bytes: seq<Byte>): Header
    requires |bytes| == HEADERSIZE
  {
    Header(bytes[..8], HashOrder.Value(bytes[8..16]), bytes[16..32], bytes[32..48])
  }

  function HeaderAt(file: seq<Byte>, o: nat): Header
    requires o + HEADERSIZE <= |file|
  {
    HeaderOf(file[o..o + HEADERSIZE])
  }

  // A whole packet, with the hash its header says.
  ghost predicate IsPacket(f: Md5.Compression, file: seq<Byte>, o: nat) {
    && o + HEADERSIZE <= |file|
    && var h := HeaderAt(file, o);
    && h.magic == MAGIC && HEADERSIZE <= h.length && h.length % 4 == 0 && o + h.length <= |file|
    && Md5.Digest(f, file[o + SETIDOFFSET..o + h.length]) == h.hash
  }

  // Byte by byte: where there is a packet, take it and go on behind it.
  ghost function Greedy(f: Md5.Compression, file: seq<Byte>, o: nat): seq<nat>
    decreases |file| - o
  {
    if o + HEADERSIZE > |file| then []
    else if IsPacket(f, file, o) then [o] + Greedy(f, file, o + HeaderAt(file, o).length)
    else Greedy(f, file, o + 1)
  }

  ghost predicate NoMagic(file: seq<Byte>, from: nat, to: nat) {
    forall p: nat :: from <= p < to && p + HEADERSIZE <= |file| ==> HeaderAt(file, p).magic != MAGIC
  }

  // Without the magic value there is nothing to find.
  lemma {:induction false} NothingSkipped(f: Md5.Compression, file: seq<Byte>, from: nat, to: nat)
    requires from <= to <= |file| && NoMagic(file, from, to)
    ensures Greedy(f, file, from) == Greedy(f, file, to)
    decreases |file| - from
  {
    if from < to && from + HEADERSIZE <= |file| {
      assert HeaderAt(file, from).magic != MAGIC;
      NothingSkipped(f, file, from + 1, to);
    } else if from < to {
      assert Greedy(f, file, to) == [];
    }
  }

  // Packets taken one behind the other.
  ghost predicate Apart(file: seq<Byte>, os: seq<nat>) {
    && (forall k :: 0 <= k < |os| ==> os[k] + HEADERSIZE <= |file|)
    && forall i, j :: 0 <= i < j < |os| ==> os[i] + HeaderAt(file, os[i]).length <= os[j]
  }

  ghost predicate Before(file: seq<Byte>, os: seq<nat>, o: nat) {
    forall k :: 0 <= k < |os| ==> os[k] + HEADERSIZE <= |file| && os[k] + HeaderAt(file, os[k]).length <= o
  }

  // The packets of a set.
  ghost function OfSet(file: seq<Byte>, os: seq<nat>, setid: seq<Byte>): seq<nat>
    requires forall k :: 0 <= k < |os| ==> os[k] + HEADERSIZE <= |file|
  {
    if |os| == 0 then []
    else
      var n := |os| - 1;
      OfSet(file, os[..n], setid) + (if HeaderAt(file, os[n]).setid == setid then [os[n]] else [])
  }

  // ---------- the scan ----------

  ghost predicate AllReadable(file: DiskFile) {
    forall o: nat, n: nat :: o + n <= |file.contents| ==> file.readable(o, n)
  }

  // The size of a file is a signed 64-bit number.
  const MAXFILE: nat := 0x7fff_ffff_ffff_ffff

  // The end of a candidate, as the unsigned 64-bit sum the scan computes.
  function End(o: nat, length: nat): nat { (o + length) % TWO64 }

  // The scan's own checks on the place o, when all reads succeed.  What is hashed ends at the computed
  // end, but the rest of the header always is.
  ghost predicate Accepts(f: Md5.Compression, file: seq<Byte>, o: nat) {
    && o + HEADERSIZE <= |file|
    && var h := HeaderAt(file, o);
    && h.magic == MAGIC && HEADERSIZE <= h.length && h.length % 4 == 0 && End(o, h.length) <= |file|
    && Md5.Digest(f, file[o + SETIDOFFSET..Later(o + HEADERSIZE, End(o, h.length))]) == h.hash
  }

  function Later(a: nat, b: nat): nat { if b < a then a else b }

  // A candidate whose end exceeds 64 bits, with the hash of the rest of its header as its own.
  ghost predicate WrapsAround(f: Md5.Compression, file: seq<Byte>, o: nat) {
    && o + HEADERSIZE <= |file|
    && var h := HeaderAt(file, o);
    && h.magic == MAGIC && HEADERSIZE <= h.length && h.length % 4 == 0 && o + h.length >= TWO64
    && Md5.Digest(f, file[o + SETIDOFFSET..o + HEADERSIZE]) == h.hash
  }

  // Where the scan goes on from o, and where the byte-by-byte search does.
  ghost function ScanNext(f: Md5.Compression, file: seq<Byte>, o: nat): nat
    requires o + HEADERSIZE <= |file|
  {
    if Accepts(f, file, o) then End(o, HeaderAt(file, o).length) else o + 1
  }

  ghost function GreedyNext(f: Md5.Compression, file: seq<Byte>, o: nat): nat
    requires o + HEADERSIZE <= |file|
  {
    if IsPacket(f, file, o) then o + HeaderAt(file, o).length else o + 1
  }

  lemma {:induction false} ValueBound(h: seq<Byte>)
    ensures HashOrder.Value(h) < Md5.Power256(|h|)
  {
    if |h| > 0 { ValueBound(h[1..]); }
  }

  lemma LengthBound(file: seq<Byte>, o: nat)
    requires o + HEADERSIZE <= |file|
    ensures HeaderAt(file, o).length < TWO64
  {
    ValueBound(file[o..o + HEADERSIZE][8..16]);
    EightBytes();
  }

  lemma EightBytes()
    ensures Md5.Power256(8) == TWO64
  {
    assert Md5.Power256(4) == 0x1_0000_0000;
  }

  // One step of the scan is a step of the byte-by-byte search exactly when the candidate does not wrap
  // around; if it does, the scan takes what is no packet, and goes back.
  lemma StepAgreesIff(f: Md5.Compression, file: seq<Byte>, o: nat)
    requires o + HEADERSIZE <= |file| <= MAXFILE
    ensures (Accepts(f, file, o) <==> IsPacket(f, file, o)) && ScanNext(f, file, o) == GreedyNext(f, file, o)
            <==> !WrapsAround(f, file, o)
    ensures WrapsAround(f, file, o) ==> Accepts(f, file, o) && !IsPacket(f, file, o) && ScanNext(f, file, o) < o
    ensures Accepts(f, file, o) ==> IsPacket(f, file, o) || WrapsAround(f, file, o)
  {
    hide Md5.Digest, HeaderAt;
    LengthBound(file, o);
    WrappedEnd(o, HeaderAt(file, o).length);
  }

  lemma WrappedEnd(o: nat, length: nat)
    requires o < TWO64 && length < TWO64
    ensures o + length < TWO64 ==> End(o, length) == o + length
    ensures o + length >= TWO64 ==> End(o, length) < o
  {
    if o + length >= TWO64 { assert o + length == TWO64 + (o + length - TWO64); }
  }

  // No place the byte-by-byte search visits from o on wraps around.
  ghost predicate NoneWraps(f: Md5.Compression, file: seq<Byte>, o: nat)
    decreases |file| - o
  {
    o + HEADERSIZE > |file| || (!WrapsAround(f, file, o) && NoneWraps(f, file, GreedyNext(f, file, o)))
  }

  // The packets taken in the first n steps of the scan, and where it is then.
  ghost function ScanRun(f: Md5.Compression, file: seq<Byte>, n: nat): (seq<nat>, nat) {
    if n == 0 then ([], 0)
    else
      var (os, o) := ScanRun(f, file, n - 1);
      if o + HEADERSIZE > |file| then (os, o)
      else (if Accepts(f, file, o) then os + [o] else os, ScanNext(f, file, o))
  }

  ghost predicate Ended(f: Md5.Compression, file: seq<Byte>, n: nat) {
    ScanRun(f, file, n).1 + HEADERSIZE > |file|
  }

  // The scan ends with what the byte-by-byte search finds exactly when no place that search visits
  // wraps around.
  lemma ScanIsGreedyIff(f: Md5.Compression, file: seq<Byte>)
    requires |file| <= MAXFILE
    ensures (exists n :: Ended(f, file, n) && ScanRun(f, file, n).0 == Greedy(f, file, 0)) <==> NoneWraps(f, file, 0)
  {
    hide Accepts, IsPacket, WrapsAround, Greedy, NoneWraps;
    if NoneWraps(f, file, 0) {
      var n := GoodRun(f, file, 0);
      assert [] + Greedy(f, file, 0) == Greedy(f, file, 0);
    } else {
      var n, o := BadRun(f, file, 0);
      if m :| Ended(f, file, m) && ScanRun(f, file, m).0 == Greedy(f, file, 0) {
        if m < n { Stays(f, file, m, n); } else { Kept(f, file, n, m); }
        GreedyPackets(f, file, 0, o);
        StepAgreesIff(f, file, o);
      }
    }
  }

  lemma {:induction false} GoodRun(f: Md5.Compression, file: seq<Byte>, n: nat) returns (m: nat)
    requires |file| <= MAXFILE && NoneWraps(f, file, ScanRun(f, file, n).1)
    ensures Ended(f, file, m) && ScanRun(f, file, m).0 == ScanRun(f, file, n).0 + Greedy(f, file, ScanRun(f, file, n).1)
    decreases |file| - ScanRun(f, file, n).1
  {
    hide Accepts, IsPacket, WrapsAround;
    var (os, o) := ScanRun(f, file, n);
    if o + HEADERSIZE > |file| {
      m := n;
    } else {
      StepAgreesIff(f, file, o);
      Forward(f, file, o);
      m := GoodRun(f, file, n + 1);
      if IsPacket(f, file, o) { Assoc(os, [o], Greedy(f, file, GreedyNext(f, file, o))); }
    }
  }

  lemma Forward(f: Md5.Compression, file: seq<Byte>, o: nat)
    requires o + HEADERSIZE <= |file|
    ensures o < GreedyNext(f, file, o) <= |file|
  {
    hide HeaderAt;
  }

  // The scan comes to the first place that wraps around, and takes it.
  lemma {:induction false} BadRun(f: Md5.Compression, file: seq<Byte>, n: nat) returns (m: nat, o: nat)
    requires |file| <= MAXFILE && !NoneWraps(f, file, ScanRun(f, file, n).1)
    ensures o + HEADERSIZE <= |file| && WrapsAround(f, file, o) && o in ScanRun(f, file, m).0
    decreases |file| - ScanRun(f, file, n).1
  {
    hide Accepts, IsPacket, WrapsAround;
    o := ScanRun(f, file, n).1;
    StepAgreesIff(f, file, o);
    if WrapsAround(f, file, o) {
      m := n + 1;
    } else {
      Forward(f, file, o);
      m, o := BadRun(f, file, n + 1);
    }
  }

  lemma {:induction false} Stays(f: Md5.Compression, file: seq<Byte>, m: nat, n: nat)
    requires m <= n && Ended(f, file, m)
    ensures ScanRun(f, file, n) == ScanRun(f, file, m)
  {
    if m < n { Stays(f, file, m, n - 1); }
  }

  lemma {:induction false} Kept(f: Md5.Compression, file: seq<Byte>, n: nat, m: nat)
    requires n <= m
    ensures ScanRun(f, file, n).0 <= ScanRun(f, file, m).0
  {
    if n < m { Kept(f, file, n, m - 1); }
  }

  lemma {:induction false} GreedyPackets(f: Md5.Compression, file: seq<Byte>, o: nat, p: nat)
    requires p in Greedy(f, file, o)
    ensures IsPacket(f, file, p)
    decreases |file| - o
  {
    if p != o || !IsPacket(f, file, o) { GreedyPackets(f, file, GreedyNext(f, file, o), p); }
  }

  // Four bytes, then a header whose length is 2^64 - 4 and whose hash is right: the search finds
  // nothing, and the scan goes from 4 back to 0 and round for ever.
  function EndlessFile(f: Md5.Compression): seq<Byte> {
    var rest: seq<Byte> := Md5.ZeroBytes(32);
    Md5.ZeroBytes(4) + MAGIC + [0xfc, 0xff, 0xff, 0xff, 0xff, 0xff, 0xff, 0xff] + Md5.Digest(f, rest) + rest
  }

  lemma EndlessHeader(f: Md5.Compression)
    ensures var file := EndlessFile(f); |file| == 68 && WrapsAround(f, file, 4) && HeaderAt(file, 4).length == TWO64 - 4
    ensures forall o: nat :: o < 4 ==> HeaderAt(EndlessFile(f), o).magic != MAGIC
  {
    hide Md5.Digest, HashOrder.Value, WrapsAround, HeaderAt;
    var file := EndlessFile(f);
    var rest: seq<Byte> := Md5.ZeroBytes(32);
    var length: seq<Byte> := [0xfc, 0xff, 0xff, 0xff, 0xff, 0xff, 0xff, 0xff];
    DigestLength(f, rest);
    FiveParts(Md5.ZeroBytes(4), MAGIC, length, Md5.Digest(f, rest), rest, file);
    EndlessLength(length);
    PartsWrap(f, file, length, rest);
    forall o: nat | o < 4
      ensures HeaderAt(file, o).magic != MAGIC
    {
      FirstByte(file, o);
    }
  }

  lemma PartsWrap(f: Md5.Compression, file: seq<Byte>, length: seq<Byte>, rest: seq<Byte>)
    requires |file| == 68 && file[4..68][..8] == MAGIC && file[4..68][8..16] == length && file[36..68] == rest
    requires file[4..68][16..32] == Md5.Digest(f, rest) && HashOrder.Value(length) == TWO64 - 4
    ensures WrapsAround(f, file, 4) && HeaderAt(file, 4).length == TWO64 - 4
  {
    hide Md5.Digest, HashOrder.Value;
    assert (TWO64 - 4) % 4 == 0;
  }

  lemma FirstByte(file: seq<Byte>, o: nat)
    requires o + HEADERSIZE <= |file| && file[o] != 0x50
    ensures HeaderAt(file, o).magic != MAGIC
  {
    assert HeaderAt(file, o).magic[0] == file[o];
  }

  lemma FiveParts(a: seq<Byte>, magic: seq<Byte>, length: seq<Byte>, hash: seq<Byte>, rest: seq<Byte>, file: seq<Byte>)
    requires |a| == 4 && |magic| == |length| == 8 && |hash| == 16 && |rest| == 32 && file == a + magic + length + hash + rest
    ensures |file| == 68 && (forall o :: 0 <= o < 4 ==> file[o] == a[o])
    ensures var h := file[4..68]; h[..8] == magic && h[8..16] == length && h[16..32] == hash
    ensures file[36..68] == rest
  {
    assert file[4..68] == magic + length + hash + rest;
  }

  lemma DigestLength(f: Md5.Compression, message: seq<Byte>)
    ensures |Md5.Digest(f, message)| == 16
  {
  }

  lemma EndlessLength(l: seq<Byte>)
    requires l == [0xfc, 0xff, 0xff, 0xff, 0xff, 0xff, 0xff, 0xff]
    ensures HashOrder.Value(l) == TWO64 - 4
  {
    assert l[1..] == [0xff, 0xff, 0xff, 0xff, 0xff, 0xff, 0xff];
    SevenBytes(l[1..]);
  }

  lemma SevenBytes(l: seq<Byte>)
    requires l == [0xff, 0xff, 0xff, 0xff, 0xff, 0xff, 0xff]
    ensures HashOrder.Value(l) == 0xff_ffff_ffff_ffff
  {
    FullBytes(l);
    assert Md5.Power256(4) == 0x1_0000_0000;
    assert Md5.Power256(7) == 0x100_0000_0000_0000;
  }

  // Bytes that are all 0xff are one less than a power.
  lemma {:induction false} FullBytes(l: seq<Byte>)
    requires forall k :: 0 <= k < |l| ==> l[k] == 0xff
    ensures HashOrder.Value(l) == Md5.Power256(|l|) - 1
  {
    if |l| > 0 { FullBytes(l[1..]); }
  }

  lemma ScanMayNotEnd(f: Md5.Compression, n: nat)
    ensures !Ended(f, EndlessFile(f), n) && ScanRun(f, EndlessFile(f), n).1 == n % 5
    ensures Greedy(f, EndlessFile(f), 0) == []
  {
    hide EndlessFile, Ended, ScanRun, Greedy;
    EndlessRun(f, n);
    NothingIsFound(f);
  }

  lemma {:induction false} EndlessRun(f: Md5.Compression, n: nat)
    ensures !Ended(f, EndlessFile(f), n) && ScanRun(f, EndlessFile(f), n).1 == n % 5
  {
    EndlessRoom(f);
    hide EndlessFile, Accepts, WrapsAround, IsPacket, Greedy, ScanNext, HeaderAt;
    if n > 0 {
      EndlessRun(f, n - 1);
      EndlessStep(f, (n - 1) % 5);
    }
  }

  lemma EndlessRoom(f: Md5.Compression)
    ensures |EndlessFile(f)| == 4 + HEADERSIZE
  {
    EndlessHeader(f);
  }

  // From 0 to 4 byte by byte, and from 4 back to 0.
  lemma EndlessStep(f: Md5.Compression, o: nat)
    requires o < 5
    ensures |EndlessFile(f)| == 4 + HEADERSIZE && ScanNext(f, EndlessFile(f), o) == (o + 1) % 5
  {
    var file := EndlessFile(f);
    EndlessHeader(f);
    hide EndlessFile, Accepts, WrapsAround, IsPacket, Greedy;
    StepAgreesIff(f, file, o);
    if o < 4 {
      assert HeaderAt(file, o).magic != MAGIC;
      NotTaken(f, file, o);
    } else {
      assert End(4, TWO64 - 4) == 0;
    }
  }

  lemma NothingIsFound(f: Md5.Compression)
    ensures Greedy(f, EndlessFile(f), 0) == []
  {
    var file := EndlessFile(f);
    EndlessHeader(f);
    hide EndlessFile, Accepts, WrapsAround, IsPacket;
    StepAgreesIff(f, file, 4);
    assert NoMagic(file, 0, 4);
    NothingSkipped(f, file, 0, 4);
    assert Greedy(f, file, 4) == Greedy(f, file, 5);
  }

  lemma NotTaken(f: Md5.Compression, file: seq<Byte>, o: nat)
    requires o + HEADERSIZE <= |file| && HeaderAt(file, o).magic != MAGIC
    ensures !Accepts(f, file, o) && !IsPacket(f, file, o) && !WrapsAround(f, file, o)
  {
  }

  method Read(file: DiskFile, offset: nat, buffer: array<Byte>, length: nat) returns (ok: bool)
    requires length <= buffer.Length && offset + length <= |file.contents|
    modifies buffer
    ensures ok == file.readable(offset, length)
    ensures ok ==> buffer[..length] == file.contents[offset..offset + length]
  {
    ok := file.readable(offset, length);
    if ok {
      forall k | 0 <= k < length {
        buffer[k] := file.contents[offset + k];
      }
    }
  }

  // Find the magic value at offset or later, a buffer at a time.
  method FindMagic(file: DiskFile, start: nat, buffer: array<Byte>) returns (found: bool, offset: nat, header: seq<Byte>)
    requires start <= |file.contents|
    requires HEADERSIZE <= buffer.Length <= |file.contents|
    modifies buffer
    ensures found ==> start <= offset && offset + HEADERSIZE <= |file.contents|
    ensures found ==> header == file.contents[offset..offset + HEADERSIZE] && HeaderOf(header).magic == MAGIC
    ensures found ==> NoMagic(file.contents, start, offset)
    ensures !found && AllReadable(file) ==> NoMagic(file.contents, start, |file.contents|)
  {
    var filesize := |file.contents|;
    offset, header := start, [];
    while offset + HEADERSIZE <= filesize
      invariant start <= offset <= filesize
      invariant NoMagic(file.contents, start, offset)
      decreases filesize - offset
    {
      var want := Min(buffer.Length, filesize - offset);
      var ok := Read(file, offset, buffer, want);
      if !ok {
        return false, filesize, [];
      }
      var limit := want - HEADERSIZE;
      var current := ScanBuffer(buffer, want);
      BufferScanned(buffer[..want], file.contents, start, offset, current);
      offset := offset + current;
      if current <= limit {
        header := buffer[current..current + HEADERSIZE];
        assert header == HeaderBytes(buffer[..want], current);
        return true, offset, header;
      }
    }
    found := false;
  }

  // Scan the buffer for the magic value: where it is first, or one past the last place for a header.
  method ScanBuffer(buffer: array<Byte>, want: nat) returns (current: nat)
    requires HEADERSIZE <= want <= buffer.Length
    ensures current <= want - HEADERSIZE + 1
    ensures forall p: nat :: p < current ==> HeaderBytes(buffer[..want], p)[..8] != MAGIC
    ensures current <= want - HEADERSIZE ==> HeaderBytes(buffer[..want], current)[..8] == MAGIC
  {
    current := 0;
    var limit := want - HEADERSIZE;
    while current <= limit && buffer[current..current + 8] != MAGIC
      invariant current <= limit + 1
      invariant forall p: nat :: p < current ==> HeaderBytes(buffer[..want], p)[..8] != MAGIC
    {
      MagicBytes(buffer[..], want, current);
      assert buffer[..][current..current + 8] == buffer[current..current + 8] && buffer[..][..want] == buffer[..want];
      current := current + 1;
    }
    if current <= limit {
      MagicBytes(buffer[..], want, current);
      assert buffer[..][current..current + 8] == buffer[current..current + 8] && buffer[..][..want] == buffer[..want];
    }
  }

  lemma MagicBytes(buf: seq<Byte>, want: nat, current: nat)
    requires current + HEADERSIZE <= want <= |buf|
    ensures HeaderBytes(buf[..want], current)[..8] == buf[current..current + 8]
  {
    forall k | 0 <= k < 8
      ensures HeaderBytes(buf[..want], current)[..8][k] == buf[current..current + 8][k]
    {
      assert buf[..want][current + k] == buf[current + k];
    }
  }

  lemma HeaderInBuffer(buf: seq<Byte>, file: seq<Byte>, offset: nat, current: nat)
    requires offset + |buf| <= |file| && buf == file[offset..offset + |buf|] && current + HEADERSIZE <= |buf|
    ensures HeaderBytes(buf, current) == file[offset + current..offset + current + HEADERSIZE]
  {
    forall k | 0 <= k < HEADERSIZE
      ensures HeaderBytes(buf, current)[k] == file[offset + current..offset + current + HEADERSIZE][k]
    {
      assert buf[current + k] == file[offset..offset + |buf|][current + k];
    }
  }

  lemma BufferScanned(buf: seq<Byte>, file: seq<Byte>, start: nat, offset: nat, current: nat)
    requires HEADERSIZE <= |buf| && offset + |buf| <= |file| && buf == file[offset..offset + |buf|]
    requires current <= |buf| - HEADERSIZE + 1 && NoMagic(file, start, offset)
    requires forall p: nat :: p < current ==> HeaderBytes(buf, p)[..8] != MAGIC
    ensures NoMagic(file, start, offset + current)
    ensures current <= |buf| - HEADERSIZE ==>
      HeaderBytes(buf, current) == file[offset + current..offset + current + HEADERSIZE]
      && HeaderOf(HeaderBytes(buf, current)).magic == HeaderBytes(buf, current)[..8]
  {
    forall p: nat | offset <= p < offset + current
      ensures HeaderAt(file, p).magic != MAGIC
    {
      HeaderInBuffer(buf, file, offset, p - offset);
    }
    if current <= |buf| - HEADERSIZE { HeaderInBuffer(buf, file, offset, current); }
  }

  function HeaderBytes(buf: seq<Byte>, current: nat): seq<Byte>
    requires current + HEADERSIZE <= |buf|
  {
    buf[current..current + HEADERSIZE]
  }

  lemma HeaderTail(file: seq<Byte>, offset: nat, header: seq<Byte>)
    requires offset + HEADERSIZE <= |file| && header == file[offset..offset + HEADERSIZE]
    ensures header[SETIDOFFSET..] == file[offset + SETIDOFFSET..offset + HEADERSIZE]
    ensures [] + header[SETIDOFFSET..] == header[SETIDOFFSET..]
  {
  }

  lemma Slices(file: seq<Byte>, a: nat, b: nat, c: nat)
    requires a <= b <= c <= |file|
    ensures file[a..b] + file[b..c] == file[a..c]
  {
  }

  // The hash of the packet at offset, whose header has been read, up to limit; whole unless a read fails.
  method HashPacket(f: Md5.Compression, file: DiskFile, offset: nat, header: seq<Byte>, limit: nat, buffer: array<Byte>)
    returns (whole: bool, hash: seq<Byte>)
    requires offset + HEADERSIZE <= |file.contents| && limit <= |file.contents| && buffer.Length > 0
    requires header == file.contents[offset..offset + HEADERSIZE]
    modifies buffer
    ensures AllReadable(file) ==> whole
    ensures whole ==> hash == Md5.Digest(f, file.contents[offset + SETIDOFFSET..Later(offset + HEADERSIZE, limit)])
  {
    hide Md5.Digest, Md5.MD5Context.Valid, HeaderAt, HeaderOf, End, AllReadable;
    ghost var from := offset + SETIDOFFSET;
    var context := new Md5.MD5Context(f);
    context.Update(header[SETIDOFFSET..]);
    var current := offset + HEADERSIZE;
    HeaderTail(file.contents, offset, header);
    while current < limit
      invariant offset + HEADERSIZE <= current <= Later(offset + HEADERSIZE, limit)
      invariant fresh(context) && fresh(context.block) && context.Valid() && context.compress == f
      invariant context.message == file.contents[from..current]
    {
      var want := Min(buffer.Length, limit - current);
      var ok := Read(file, current, buffer, want);
      if !ok {
        Unreadable(file, current, want);
        break;
      }
      context.Update(buffer[..want]);
      Slices(file.contents, from, current, current + want);
      current := current + want;
    }
    whole, hash := current >= limit, [];
    if whole {
      hash := context.Final();
    }
  }

  // The scan has come to o, having taken the packets in os; n steps when all reads succeed.
  ghost predicate Scanned(f: Md5.Compression, file: DiskFile, os: seq<nat>, o: nat, n: nat) {
    && o <= |file.contents|
    && (forall k :: 0 <= k < |os| ==> IsPacket(f, file.contents, os[k]))
    && Apart(file.contents, os) && Before(file.contents, os, o)
    && (AllReadable(file) ==> AsGreedy(f, file.contents, os, o) && AsRun(f, file.contents, os, o, n))
  }

  // What is found, and whether something wraps around, depends on the rest only.
  ghost predicate AsGreedy(f: Md5.Compression, file: seq<Byte>, os: seq<nat>, o: nat) {
    && Greedy(f, file, 0) == os + Greedy(f, file, o)
    && (NoneWraps(f, file, 0) <==> NoneWraps(f, file, o))
  }

  ghost predicate AsRun(f: Md5.Compression, file: seq<Byte>, os: seq<nat>, o: nat, n: nat) {
    var run := ScanRun(f, file, n);
    run.0 == os && (run.1 == o || (run.1 + HEADERSIZE > |file| && o + HEADERSIZE > |file|))
  }

  lemma ScanStart(f: Md5.Compression, file: DiskFile)
    ensures Scanned(f, file, [], 0, 0)
  {
    assert [] + Greedy(f, file.contents, 0) == Greedy(f, file.contents, 0);
  }

  lemma ScanSkipped(f: Md5.Compression, file: DiskFile, os: seq<nat>, from: nat, to: nat, n: nat)
    requires Scanned(f, file, os, from, n) && from <= to <= |file.contents|
    requires AllReadable(file) ==> NoMagic(file.contents, from, to)
    ensures Scanned(f, file, os, to, n + (to - from))
  {
    hide IsPacket, AllReadable, NoMagic, Apart, AsGreedy, AsRun;
    if AllReadable(file) {
      GreedySkips(f, file.contents, os, from, to);
      RunSkips(f, file.contents, os, from, to, n);
    }
  }

  lemma GreedySkips(f: Md5.Compression, file: seq<Byte>, os: seq<nat>, from: nat, to: nat)
    requires AsGreedy(f, file, os, from) && from <= to <= |file| && NoMagic(file, from, to)
    ensures AsGreedy(f, file, os, to)
  {
    hide NoMagic, Greedy, NoneWraps;
    NothingSkipped(f, file, from, to);
    NothingWraps(f, file, from, to);
  }

  lemma {:induction false} NothingWraps(f: Md5.Compression, file: seq<Byte>, from: nat, to: nat)
    requires from <= to <= |file| && NoMagic(file, from, to)
    ensures NoneWraps(f, file, from) <==> NoneWraps(f, file, to)
    decreases |file| - from
  {
    hide Accepts, WrapsAround, IsPacket;
    if from < to && from + HEADERSIZE <= |file| {
      assert HeaderAt(file, from).magic != MAGIC;
      NotTaken(f, file, from);
      NothingWraps(f, file, from + 1, to);
    }
  }

  lemma {:induction false} RunSkips(f: Md5.Compression, file: seq<Byte>, os: seq<nat>, from: nat, to: nat, n: nat)
    requires AsRun(f, file, os, from, n) && from <= to <= |file| && NoMagic(file, from, to)
    ensures AsRun(f, file, os, to, n + (to - from))
    decreases |file| - from
  {
    hide Accepts, WrapsAround, IsPacket;
    if from < to {
      if from + HEADERSIZE <= |file| {
        assert HeaderAt(file, from).magic != MAGIC;
        NotTaken(f, file, from);
      }
      RunSkips(f, file, os, from + 1, to, n + 1);
    }
  }

  lemma Unreadable(file: DiskFile, o: nat, n: nat)
    requires o + n <= |file.contents| && !file.readable(o, n)
    ensures !AllReadable(file)
  {
  }

  lemma MagicAt(file: seq<Byte>, o: nat)
    requires o + HEADERSIZE <= |file| && HeaderAt(file, o).magic != MAGIC
    ensures NoMagic(file, o, o + 1)
  {
  }

  lemma ScanRejected(f: Md5.Compression, file: DiskFile, os: seq<nat>, o: nat, n: nat)
    requires Scanned(f, file, os, o, n) && o + HEADERSIZE <= |file.contents| <= MAXFILE
    requires AllReadable(file) ==> !Accepts(f, file.contents, o)
    ensures Scanned(f, file, os, o + 1, n + 1)
  {
    hide IsPacket, Accepts, WrapsAround, AllReadable, Apart;
    StepAgreesIff(f, file.contents, o);
  }

  lemma ScanAccepted(f: Md5.Compression, file: DiskFile, os: seq<nat>, o: nat, n: nat)
    requires Scanned(f, file, os, o, n) && IsPacket(f, file.contents, o) && |file.contents| <= MAXFILE
    ensures Scanned(f, file, os + [o], o + HeaderAt(file.contents, o).length, n + 1)
  {
    hide AllReadable, HeaderAt, Apart, Before, Accepts, WrapsAround;
    PacketFits(f, file.contents, o);
    ApartMore(file.contents, os, o);
    GreedyTakes(f, file.contents, o);
    StepAgreesIff(f, file.contents, o);
    PacketOrWraps(f, file.contents, o);
    hide IsPacket, Greedy;
    Assoc(os, [o], Greedy(f, file.contents, o + HeaderAt(file.contents, o).length));
  }

  lemma PacketOrWraps(f: Md5.Compression, file: seq<Byte>, o: nat)
    requires IsPacket(f, file, o) && |file| <= MAXFILE
    ensures !WrapsAround(f, file, o)
  {
    hide Md5.Digest, HeaderAt;
  }

  // The scan takes a candidate that wraps around: no packet, and the byte-by-byte search would not.
  lemma ScanWrapped(f: Md5.Compression, file: DiskFile, os: seq<nat>, o: nat, n: nat)
    requires Scanned(f, file, os, o, n) && o + HEADERSIZE <= |file.contents| <= MAXFILE && WrapsAround(f, file.contents, o)
    ensures !IsPacket(f, file.contents, o)
    ensures AllReadable(file) ==> !NoneWraps(f, file.contents, 0) && ScanRun(f, file.contents, n + 1).0 == os + [o]
  {
    hide AllReadable, HeaderAt, Apart, Before, Accepts, WrapsAround, IsPacket, Greedy;
    StepAgreesIff(f, file.contents, o);
  }

  lemma PacketFits(f: Md5.Compression, file: seq<Byte>, o: nat)
    requires IsPacket(f, file, o)
    ensures o + HEADERSIZE <= o + HeaderAt(file, o).length <= |file|
  {
  }

  lemma GreedyTakes(f: Md5.Compression, file: seq<Byte>, o: nat)
    requires IsPacket(f, file, o)
    ensures Greedy(f, file, o) == [o] + Greedy(f, file, o + HeaderAt(file, o).length)
  {
  }

  lemma ApartMore(file: seq<Byte>, os: seq<nat>, o: nat)
    requires Apart(file, os) && Before(file, os, o) && o + HEADERSIZE <= |file|
    ensures Apart(file, os + [o]) && Before(file, os + [o], o + HeaderAt(file, o).length)
  {
    hide HeaderAt;
  }

  lemma ScanDone(f: Md5.Compression, file: DiskFile, os: seq<nat>, o: nat, n: nat)
    requires Scanned(f, file, os, o, n) && o + HEADERSIZE > |file.contents|
    ensures AllReadable(file) ==> os == Greedy(f, file.contents, 0) && NoneWraps(f, file.contents, 0)
    ensures AllReadable(file) ==> Ended(f, file.contents, n) && ScanRun(f, file.contents, n).0 == os
    ensures Apart(file.contents, os) && forall k :: 0 <= k < |os| ==> IsPacket(f, file.contents, os[k])
  {
    hide IsPacket, AllReadable, Apart;
  }

  lemma SetMore(file: seq<Byte>, os: seq<nat>, o: nat, setid: seq<Byte>)
    requires (forall k :: 0 <= k < |os| ==> os[k] + HEADERSIZE <= |file|) && o + HEADERSIZE <= |file|
    ensures OfSet(file, os + [o], setid)
         == if HeaderAt(file, o).setid == setid then OfSet(file, os, setid) + [o] else OfSet(file, os, setid)
  {
    assert (os + [o])[..|os|] == os;
    assert OfSet(file, os, setid) + [] == OfSet(file, os, setid);
  }

  // Which set the repairer is for: the set of the first packet ever found.
  datatype Target = Unknown | Known(setid: seq<Byte>)

  function TargetAfter(t: Target, file: seq<Byte>, os: seq<nat>): Target
    requires forall k :: 0 <= k < |os| ==> os[k] + HEADERSIZE <= |file|
  {
    if t.Unknown? && |os| > 0 then Known(HeaderAt(file, os[0]).setid) else t
  }

  // The set is the first packet's, unless known before, and the packets loaded are those of the set.
  ghost predicate Sorted(before: Target, file: seq<Byte>, os: seq<nat>, loaded: seq<nat>, after: Target) {
    && (forall k :: 0 <= k < |os| ==> os[k] + HEADERSIZE <= |file|)
    && after == TargetAfter(before, file, os)
    && loaded == if after.Known? then OfSet(file, os, after.setid) else []
  }

  lemma SortedMore(before: Target, file: seq<Byte>, os: seq<nat>, loaded: seq<nat>, now: Target, o: nat)
    requires Sorted(before, file, os, loaded, now) && o + HEADERSIZE <= |file|
    ensures var setid := HeaderAt(file, o).setid;
      var after := if now.Unknown? then Known(setid) else now;
      Sorted(before, file, os + [o], if after.setid == setid then loaded + [o] else loaded, after)
  {
    hide HeaderAt, OfSet;
    var setid := HeaderAt(file, o).setid;
    SetMore(file, os, o, if now.Unknown? then setid else now.setid);
    EmptySet(file, setid);
    assert |os| > 0 ==> (os + [o])[0] == os[0];
  }

  lemma SortedStart(target: Target, file: seq<Byte>)
    ensures Sorted(target, file, [], [], target)
  {
  }

  lemma EmptySet(file: seq<Byte>, setid: seq<Byte>)
    ensures OfSet(file, [], setid) == []
  {
  }

  // Load the packets of a file.  When all reads succeed, the packets found are exactly those the
  // byte-by-byte search finds; those of the right set are handed on.  If reads fail there may be
  // fewer, but still whole packets one behind the other.
  //
  // The one exception is a candidate that wraps around.  The scan takes it, goes back, and may come
  // there again for ever (ScanMayNotEnd); the run is followed up to there, and `back` says where.
  method LoadPackets(f: Md5.Compression, file: DiskFile, maxbuffer: nat, target: Target)
    returns (packets: seq<nat>, loaded: seq<nat>, newtarget: Target, back: Option<nat>, ghost rounds: nat)
    requires HEADERSIZE <= maxbuffer && |file.contents| <= MAXFILE
    ensures AllReadable(file) ==> (back.None? <==> NoneWraps(f, file.contents, 0))
    ensures AllReadable(file) && back.None? ==> packets == Greedy(f, file.contents, 0) && Ended(f, file.contents, rounds)
    ensures AllReadable(file) ==> packets == ScanRun(f, file.contents, rounds).0
    ensures back.Some? ==> |packets| > 0 && packets[|packets| - 1] == back.value && WrapsAround(f, file.contents, back.value)
    ensures var whole := if back.Some? then packets[..|packets| - 1] else packets;
      Apart(file.contents, whole) && forall k :: 0 <= k < |whole| ==> IsPacket(f, file.contents, whole[k])
    ensures Sorted(target, file.contents, packets, loaded, newtarget)
  {
    hide Greedy, IsPacket, WrapsAround, Accepts, NoneWraps, ScanRun, NoMagic, AllReadable, Before, Apart, Md5.Digest, Scanned, Sorted;
    var filesize := |file.contents|;
    packets, loaded, newtarget, back, rounds := [], [], target, None, 0;
    ScanStart(f, file);
    SortedStart(target, file.contents);
    if filesize > 0 {
      var buffer := new Byte[Min(maxbuffer, filesize)];
      var headerbuffer := new Byte[HEADERSIZE];
      var offset := 0;
      while offset + HEADERSIZE <= filesize
        invariant fresh(buffer) && fresh(headerbuffer)
        invariant Scanned(f, file, packets, offset, rounds) && offset <= filesize && back.None?
        invariant Sorted(target, file.contents, packets, loaded, newtarget)
        decreases filesize - offset
      {
        var found, next, bytes := NextCandidate(file, offset, headerbuffer, buffer);
        if !found {
          ScanSkipped(f, file, packets, offset, filesize, rounds);
          rounds := rounds + (filesize - offset);
          offset := filesize;
          break;
        }
        ScanSkipped(f, file, packets, offset, next, rounds);
        rounds := rounds + (next - offset);
        offset := next;
        var good := CheckPacket(f, file, offset, bytes, buffer);
        if !good {
          ScanRejected(f, file, packets, offset, rounds);
          offset, rounds := offset + 1, rounds + 1;
          continue;
        }
        var header := HeaderOf(bytes);
        SortedMore(target, file.contents, packets, loaded, newtarget, offset);
        if newtarget.Unknown? {
          newtarget := Known(header.setid);
        }
        if newtarget.setid == header.setid {
          loaded := loaded + [offset];
        }
        if End(offset, header.length) <= offset {   // it goes back: not followed further
          Back(f, file, packets, offset, rounds);
          packets, back, rounds := packets + [offset], Some(offset), rounds + 1;
          return;
        }
        Ahead(f, file.contents, offset);
        ScanAccepted(f, file, packets, offset, rounds);
        packets, rounds := packets + [offset], rounds + 1;
        offset := End(offset, header.length);
      }
      ScanDone(f, file, packets, offset, rounds);
    } else {
      ScanDone(f, file, packets, 0, rounds);
    }
  }

  // The next place with the magic value: here, or further on.
  method NextCandidate(file: DiskFile, offset: nat, headerbuffer: array<Byte>, buffer: array<Byte>)
    returns (found: bool, next: nat, bytes: seq<Byte>)
    requires offset + HEADERSIZE <= |file.contents|
    requires headerbuffer.Length == HEADERSIZE <= buffer.Length <= |file.contents|
    modifies headerbuffer, buffer
    ensures found ==> offset <= next && next + HEADERSIZE <= |file.contents|
    ensures found ==> bytes == file.contents[next..next + HEADERSIZE] && HeaderOf(bytes).magic == MAGIC
    ensures found ==> NoMagic(file.contents, offset, next)
    ensures !found && AllReadable(file) ==> NoMagic(file.contents, offset, |file.contents|)
  {
    hide AllReadable;
    next := offset;
    var ok := Read(file, offset, headerbuffer, HEADERSIZE);
    if !ok {
      Unreadable(file, offset, HEADERSIZE);
      return false, offset, [];
    }
    found, bytes := true, headerbuffer[..];
    if bytes[..8] != MAGIC {
      found, next, bytes := FindMagic(file, offset + 1, buffer);
    }
  }

  lemma Back(f: Md5.Compression, file: DiskFile, os: seq<nat>, o: nat, n: nat)
    requires Scanned(f, file, os, o, n) && |file.contents| <= MAXFILE && o + HEADERSIZE <= |file.contents|
    requires IsPacket(f, file.contents, o) || WrapsAround(f, file.contents, o)
    requires End(o, HeaderAt(file.contents, o).length) <= o
    ensures WrapsAround(f, file.contents, o)
    ensures AllReadable(file) ==> !NoneWraps(f, file.contents, 0) && ScanRun(f, file.contents, n + 1).0 == os + [o]
    ensures Apart(file.contents, os) && forall k :: 0 <= k < |os| ==> IsPacket(f, file.contents, os[k])
  {
    hide HeaderAt, AllReadable, Apart, Before, AsGreedy, AsRun, IsPacket, WrapsAround;
    if IsPacket(f, file.contents, o) {
      PacketFits(f, file.contents, o);
      assert false;
    }
    ScanWrapped(f, file, os, o, n);
  }

  lemma Ahead(f: Md5.Compression, file: seq<Byte>, o: nat)
    requires |file| <= MAXFILE && o + HEADERSIZE <= |file|
    requires IsPacket(f, file, o) || WrapsAround(f, file, o)
    requires End(o, HeaderAt(file, o).length) > o
    ensures IsPacket(f, file, o) && End(o, HeaderAt(file, o).length) == o + HeaderAt(file, o).length <= |file|
  {
    hide HeaderAt, Md5.Digest;
    LengthBound(file, o);
    WrappedEnd(o, HeaderAt(file, o).length);
  }

  // The length and hash checks on a candidate.
  method CheckPacket(f: Md5.Compression, file: DiskFile, offset: nat, bytes: seq<Byte>, buffer: array<Byte>) returns (good: bool)
    requires offset + HEADERSIZE <= |file.contents| <= MAXFILE && buffer.Length > 0
    requires bytes == file.contents[offset..offset + HEADERSIZE] && HeaderOf(bytes).magic == MAGIC
    modifies buffer
    ensures good ==> IsPacket(f, file.contents, offset) || WrapsAround(f, file.contents, offset)
    ensures AllReadable(file) ==> (good <==> Accepts(f, file.contents, offset))
  {
    hide Md5.Digest, AllReadable;
    var header := HeaderOf(bytes);
    assert header == HeaderAt(file.contents, offset);
    if HEADERSIZE > header.length || header.length % 4 != 0 || |file.contents| < End(offset, header.length) {
      return false;
    }
    var whole, hash := HashPacket(f, file, offset, bytes, End(offset, header.length), buffer);
    good := whole && hash == header.hash;
    StepAgreesIff(f, file.contents, offset);
  }
}
