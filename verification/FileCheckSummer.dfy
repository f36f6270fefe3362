// A window sliding over a file.  The buffer holds two blocks; the checksum of the window is kept
// up to date while the window moves, and every byte read is hashed once, in order.
module FileCheckSummer {
  import opened Bits
  import Crc
  import Md5

  // A file on disk.  A read of `length` bytes at `offset` succeeds if readable says so.
  datatype DiskFile = DiskFile(contents: seq<Byte>, readable: (nat, nat) -> bool)

  const SIXTEEN_K: nat := 16384

  function Min(a: int, b: int): int { if a < b then a else b }

  // A stretch of the loaded part of a buffer is a stretch of the file.
  lemma LoadedSlice(buf: seq<Byte>, tail: nat, file: seq<Byte>, base: nat, from: nat, to: nat)
    requires tail <= |buf| && base + tail <= |file| && buf[..tail] == file[base..base + tail]
    requires from <= to <= tail
    ensures buf[from..to] == file[base + from..base + to]
  {
    forall k | 0 <= k < to - from
      ensures buf[from..to][k] == file[base + from..base + to][k]
    {
      assert buf[..tail][from + k] == file[base..base + tail][from + k];
    }
  }

  // Loaded data and what follows it in the file.
  lemma LoadedMore(buf: seq<Byte>, tail: nat, file: seq<Byte>, base: nat, want: nat)
    requires tail + want <= |buf| && base + tail + want <= |file|
    requires buf[..tail] == file[base..base + tail]
    requires buf[tail..tail + want] == file[base + tail..base + tail + want]
    ensures buf[..tail + want] == file[base..base + tail + want]
  {
    assert buf[..tail + want] == buf[..tail] + buf[tail..tail + want];
  }

  class CheckSummer {
    const diskfile: DiskFile
    const blocksize: nat
    const table: seq<Word>
    const windowtable: seq<Word>
    const windowmask: Word
    const filesize: nat
    var currentoffset: nat      // file offset of the window
    const buffer: array<Byte>
    var outpointer: nat         // start of the window in the buffer
    var inpointer: nat          // end of the window
    var tailpointer: nat        // end of the data read from the file
    var readoffset: nat         // file offset for the next read
    var checksum: Word
    const contextfull: Md5.MD5Context
    const context16k: Md5.MD5Context

    ghost function Repr(): set<object> {
      {this, buffer, contextfull, contextfull.block, context16k, context16k.block}
    }

    function File(): seq<Byte> { diskfile.contents }

    ghost predicate Sizes() {
      blocksize > 0 && buffer.Length == 2 * blocksize && filesize == |File()|
    }

    ghost predicate Tables() {
      Crc.IsTable(table) && Crc.IsWindowTable(windowtable, blocksize) && windowmask == Crc.Mask(blocksize)
    }

    ghost predicate Apart() {
      && contextfull != context16k && contextfull.block != context16k.block
      && buffer != contextfull.block && buffer != context16k.block
    }

    ghost predicate Fixed() {
      Sizes() && Tables() && Apart()
    }

    // Exactly the first n bytes of the file have been hashed, the 16k context stopping at 16384.
    ghost predicate Hashed(n: nat)
      reads contextfull, contextfull.block, context16k, context16k.block
    {
      && contextfull.Valid() && context16k.Valid() && contextfull.compress == context16k.compress
      && n <= |File()|
      && context16k.message == File()[..Min(n, SIXTEEN_K)]
      && (n >= SIXTEEN_K ==> contextfull.message == File()[..n])
    }

    // The data in the buffer is the file up to the next read.
    ghost predicate Loaded()
      reads this`tailpointer, this`readoffset, buffer
    {
      && buffer.Length == 2 * blocksize && filesize == |File()|
      && tailpointer <= 2 * blocksize && tailpointer <= readoffset <= filesize
      && buffer[..tailpointer] == File()[readoffset - tailpointer..readoffset]
    }

    // The window lies in the buffer, which is full unless the file has been read to its end.
    ghost predicate Placed()
      reads this
    {
      && outpointer < blocksize && outpointer < tailpointer && inpointer == outpointer + blocksize
      && currentoffset + tailpointer == readoffset + outpointer
      && (readoffset < filesize ==> tailpointer == 2 * blocksize)
    }

    ghost predicate Valid()
      reads this, buffer, contextfull, contextfull.block, context16k, context16k.block
    {
      && Fixed() && Loaded() && Hashed(readoffset)
      && currentoffset <= filesize
      && (currentoffset < filesize ==> Placed() && checksum == Crc.Checksum(buffer[outpointer..inpointer]))
      && (currentoffset == filesize ==> readoffset == filesize)
    }

    constructor (file: DiskFile, size: nat, tab: seq<Word>, wtab: seq<Word>, wmask: Word, f: Md5.Compression)
      requires size > 0
      requires Crc.IsTable(tab) && Crc.IsWindowTable(wtab, size) && wmask == Crc.Mask(size)
      ensures Fixed() && Hashed(0) && diskfile == file && blocksize == size && contextfull.compress == f
      ensures fresh(Repr())
    {
      hide Crc.IsTable, Crc.IsWindowTable, Crc.Mask, Md5.MD5Context.Valid;
      diskfile := file;
      blocksize := size;
      table, windowtable, windowmask := tab, wtab, wmask;
      filesize := |file.contents|;
      buffer := new Byte[2 * size];
      contextfull := new Md5.MD5Context(f);
      context16k := new Md5.MD5Context(f);
      currentoffset := 0;
      outpointer, inpointer, tailpointer, readoffset, checksum := 0, 0, 0, 0, 0;
    }

    // Start reading at the beginning; once per object, since the hashes are not reset.
    method Start() returns (ok: bool)
      requires Fixed() && Hashed(0)
      modifies Repr()
      ensures ok ==> Valid() && currentoffset == 0
      ensures ok <==> filesize == 0 || diskfile.readable(0, Min(filesize, 2 * blocksize))
    {
      hide Hashed, Fixed, Loaded, Valid, Crc.Checksum;
      FixedIs();
      currentoffset, readoffset := 0, 0;
      tailpointer, outpointer := 0, 0;
      inpointer := blocksize;
      NothingLoaded();
      ok := Fill();
      if !ok { return; }
      checksum := Direct(buffer[..blocksize]);
      AtStart();
    }

    lemma FixedIs()
      requires Fixed()
      ensures Sizes() && Tables() && Apart()
    {
      hide Tables;
    }

    lemma NothingLoaded()
      requires Sizes() && tailpointer == readoffset == 0
      ensures Loaded()
    {
    }

    lemma AtStart()
      requires Fixed() && Loaded() && Hashed(readoffset)
      requires currentoffset == 0 && outpointer == 0 && inpointer == blocksize && readoffset == tailpointer
      requires readoffset < filesize ==> tailpointer == 2 * blocksize
      requires buffer.Length == 2 * blocksize && checksum == Crc.Checksum(buffer[..blocksize])
      ensures Valid()
    {
      hide Hashed, Tables, Crc.Checksum;
      assert buffer[0..blocksize] == buffer[..blocksize];
    }

    // Step forward one byte.
    method Step() returns (ok: bool)
      requires Valid()
      modifies Repr()
      ensures ok ==> Valid() && old(currentoffset) < filesize && currentoffset == old(currentoffset) + 1
      ensures !ok && old(currentoffset) < filesize ==> exists n :: !diskfile.readable(old(readoffset), n)
    {
      hide Hashed, Tables, Crc.Checksum;
      if currentoffset >= filesize { return false; }
      currentoffset := currentoffset + 1;
      if currentoffset >= filesize {
        currentoffset := filesize;
        AtEnd();
        return true;
      }
      SlideWindow();
      if outpointer < blocksize { return true; }
      ok := Recycle();
    }

    // Take the incoming byte into the window and the checksum, and the outgoing byte out.
    method SlideWindow()
      requires Sizes() && Tables()
      requires outpointer < blocksize && inpointer == outpointer + blocksize
      requires checksum == Crc.Checksum(buffer[outpointer..inpointer])
      modifies this`inpointer, this`outpointer, this`checksum
      ensures outpointer == old(outpointer) + 1 && inpointer == old(inpointer) + 1
      ensures checksum == Crc.Checksum(buffer[outpointer..inpointer])
    {
      hide Tables, Crc.Checksum, Crc.CRCSlideChar, Xor;
      ghost var data := buffer[outpointer..inpointer + 1];
      assert data[..blocksize] == buffer[outpointer..inpointer];
      assert data[1..] == buffer[outpointer + 1..inpointer + 1];
      Slide(data);
      var inch, outch := buffer[inpointer], buffer[outpointer];
      inpointer, outpointer := inpointer + 1, outpointer + 1;
      checksum := Xor(windowmask, Crc.CRCSlideChar(table, windowtable, Xor(windowmask, checksum), inch, outch));
    }

    // One slide of the running checksum.
    lemma Slide(data: seq<Byte>)
      requires Tables() && |data| == blocksize + 1
      ensures |table| == |windowtable| == 256
      ensures Xor(windowmask, Crc.CRCSlideChar(table, windowtable, Xor(windowmask, Crc.Checksum(data[..blocksize])), data[blocksize], data[0]))
              == Crc.Checksum(data[1..])
    {
      hide Crc.IsTable, Crc.IsWindowTable, Crc.Checksum, Crc.CRCSlideChar, Xor, Crc.Mask;
      TableSizes();
      Crc.SlideIsRecompute(table, windowtable, data);
    }

    lemma TableSizes()
      requires Tables()
      ensures |table| == |windowtable| == 256
    {
    }

    // Computing a checksum afresh.
    method Direct(data: seq<Byte>) returns (crc: Word)
      requires Tables()
      ensures crc == Crc.Checksum(data)
    {
      hide Crc.IsTable, Crc.IsWindowTable, Crc.Mask, Crc.Block, Xor;
      crc := Crc.CRCUpdateBlock(table, Crc.ONES, data);
      crc := Xor(Crc.ONES, crc);
    }

    // At the end of the file nothing is left in the window.
    method AtEnd()
      requires Fixed() && Loaded() && Hashed(readoffset)
      requires currentoffset == filesize && readoffset == filesize
      modifies this, buffer
      ensures Valid() && unchanged(this`currentoffset)
    {
      hide Hashed, Tables;
      tailpointer, outpointer := 0, 0;
      forall k | 0 <= k < blocksize {
        buffer[k] := 0;
      }
      checksum := 0;
    }

    // The window has reached the second block: move it back to the beginning.
    method Recycle() returns (ok: bool)
      requires Fixed() && Loaded() && Hashed(readoffset)
      requires outpointer == blocksize < tailpointer && inpointer == 2 * blocksize
      requires currentoffset < filesize && currentoffset + tailpointer == readoffset + outpointer
      requires readoffset < filesize ==> tailpointer == 2 * blocksize
      requires checksum == Crc.Checksum(buffer[outpointer..inpointer])
      modifies Repr()
      ensures ok ==> Valid() && currentoffset == old(currentoffset)
      ensures !ok ==> exists n :: !diskfile.readable(old(readoffset), n)
    {
      hide Hashed, Tables, Crc.Checksum;
      ghost var window := buffer[outpointer..inpointer];
      Wrap();
      ok := Fill();
      assert ok ==> buffer[..blocksize] == window;
    }

    method Wrap()
      requires Sizes() && Loaded() && outpointer == blocksize <= tailpointer && inpointer == 2 * blocksize
      modifies this`outpointer, this`inpointer, this`tailpointer, buffer
      ensures Loaded() && outpointer == 0 && inpointer == blocksize && tailpointer == old(tailpointer) - blocksize
      ensures buffer[..blocksize] == old(buffer[blocksize..2 * blocksize])
    {
      ghost var window := buffer[outpointer..inpointer];
      LoadedSlice(buffer[..], tailpointer, File(), readoffset - tailpointer, outpointer, tailpointer);
      assert buffer[..][outpointer..tailpointer] == window[..tailpointer - blocksize];
      MoveDown(blocksize);
      inpointer := outpointer;
      outpointer := 0;
      tailpointer := tailpointer - blocksize;
      assert buffer[..tailpointer] == window[..tailpointer];
    }

    // memmove from the window to the beginning of the buffer.
    method MoveDown(keep: nat)
      requires outpointer + keep <= buffer.Length
      modifies buffer
      ensures buffer[..keep] == old(buffer[outpointer..outpointer + keep])
    {
      forall k | 0 <= k < keep {
        buffer[k] := buffer[outpointer + k];
      }
    }

    // Jump ahead.
    method Jump(distance0: nat) returns (ok: bool)
      requires Valid()
      modifies Repr()
      ensures ok ==> Valid() && currentoffset == Min(old(currentoffset) + Min(distance0, blocksize), filesize)
      ensures ok ==> old(currentoffset) < filesize && distance0 > 0
      ensures !ok && old(currentoffset) < filesize && distance0 > 0 ==> exists n :: !diskfile.readable(old(readoffset), n)
    {
      hide Hashed, Tables, Crc.Checksum;
      var distance := distance0;
      if currentoffset >= filesize { return false; }
      if distance == 0 { return false; }
      if distance == 1 {
        ok := Step();
        return;
      }
      if distance > blocksize { distance := blocksize; }
      currentoffset := currentoffset + distance;
      if currentoffset >= filesize {
        currentoffset := filesize;
        AtEnd();
        return true;
      }
      Discard(distance);
      ok := Reload();
    }

    // Fill the buffer behind a window at its beginning, and compute the checksum afresh.
    method Reload() returns (ok: bool)
      requires Fixed() && Loaded() && Hashed(readoffset)
      requires outpointer == 0 && inpointer == blocksize
      requires currentoffset < filesize && currentoffset + tailpointer == readoffset
      modifies Repr()
      ensures ok ==> Valid() && currentoffset == old(currentoffset)
      ensures !ok ==> exists n :: !diskfile.readable(old(readoffset), n)
    {
      hide Hashed, Tables, Crc.Checksum;
      ok := Fill();
      if !ok { return; }
      checksum := Direct(buffer[..blocksize]);
    }

    // Move past data at the beginning of the window, and the rest back to the beginning of the buffer.
    method Discard(distance: nat)
      requires Sizes() && Loaded()
      requires outpointer + distance <= tailpointer
      modifies this`outpointer, this`inpointer, this`tailpointer, buffer
      ensures Loaded() && outpointer == 0 && inpointer == blocksize
      ensures tailpointer == old(tailpointer) - old(outpointer) - distance
    {
      hide Tables, Hashed;
      outpointer := outpointer + distance;
      var keep := tailpointer - outpointer;
      LoadedSlice(buffer[..], tailpointer, File(), readoffset - tailpointer, outpointer, tailpointer);
      assert buffer[..][outpointer..tailpointer] == buffer[outpointer..tailpointer];
      if keep > 0 {
        MoveDown(keep);
        tailpointer := keep;
      } else {
        tailpointer := 0;
      }
      outpointer := 0;
      inpointer := blocksize;
    }

    // Fill the rest of the buffer from disk, blanking what the file does not fill.
    method Fill() returns (ok: bool)
      requires Fixed() && Loaded() && Hashed(readoffset)
      modifies Repr() - {this}, this`readoffset, this`tailpointer
      ensures ok <==> old(readoffset) >= filesize || old(tailpointer) == 2 * blocksize
                      || diskfile.readable(old(readoffset), Min(filesize - old(readoffset), 2 * blocksize - old(tailpointer)))
      ensures ok ==> Loaded() && Hashed(readoffset)
      ensures ok ==> readoffset - tailpointer == old(readoffset) - old(tailpointer)
      ensures ok && readoffset < filesize ==> tailpointer == 2 * blocksize
      ensures ok ==> tailpointer >= old(tailpointer) && buffer[..old(tailpointer)] == old(buffer[..tailpointer])
      ensures ok && old(readoffset) >= filesize ==> buffer[..] == old(buffer[..])
      ensures ok && old(readoffset) < filesize ==> forall k :: tailpointer <= k < 2 * blocksize ==> buffer[k] == 0
    {
      hide Hashed, Tables;
      if readoffset >= filesize { return true; }
      var want := Min(filesize - readoffset, 2 * blocksize - tailpointer);
      if want > 0 {
        if !diskfile.readable(readoffset, want) { return false; }
        ReadAndHash(want);
      }
      want := 2 * blocksize - tailpointer;
      if want > 0 {
        Blank();
      }
      return true;
    }

    method ReadAndHash(want: nat)
      requires Fixed() && Loaded() && Hashed(readoffset)
      requires tailpointer + want <= 2 * blocksize && readoffset + want <= filesize
      modifies Repr() - {this}, this`readoffset, this`tailpointer
      ensures Loaded() && Hashed(readoffset)
      ensures readoffset == old(readoffset) + want && tailpointer == old(tailpointer) + want
      ensures buffer[..old(tailpointer)] == old(buffer[..tailpointer])
    {
      hide Hashed, Tables;
      ReadIn(want);
      LoadedMore(buffer[..], tailpointer, File(), readoffset - tailpointer, want);
      UpdateHashes(readoffset, buffer[tailpointer..tailpointer + want]);
      readoffset := readoffset + want;
      tailpointer := tailpointer + want;
    }

    // A successful read to the end of the data in the buffer.
    method ReadIn(want: nat)
      requires tailpointer + want <= buffer.Length && readoffset + want <= |File()|
      modifies buffer
      ensures buffer[..tailpointer] == old(buffer[..tailpointer])
      ensures buffer[tailpointer..tailpointer + want] == File()[readoffset..readoffset + want]
    {
      forall k | 0 <= k < want {
        buffer[tailpointer + k] := File()[readoffset + k];
      }
    }

    method Blank()
      requires tailpointer <= buffer.Length
      modifies buffer
      ensures buffer[..tailpointer] == old(buffer[..tailpointer])
      ensures forall k :: tailpointer <= k < buffer.Length ==> buffer[k] == 0
    {
      forall k | tailpointer <= k < buffer.Length {
        buffer[k] := 0;
      }
    }

    // Hash new data, keeping the hash of the first 16k apart.
    method UpdateHashes(offset: nat, data: seq<Byte>)
      requires Fixed() && Hashed(offset)
      requires offset + |data| <= |File()| && data == File()[offset..offset + |data|]
      modifies contextfull, contextfull.block, context16k, context16k.block
      ensures Hashed(offset + |data|)
    {
      hide Tables, Sizes, Md5.MD5Context.Valid;
      if offset >= SIXTEEN_K {
        contextfull.Update(data);
        assert File()[..offset] + data == File()[..offset + |data|];
      } else if offset + |data| >= SIXTEEN_K {
        var first := SIXTEEN_K - offset;
        context16k.Update(data[..first]);
        assert File()[..offset] + data[..first] == File()[..SIXTEEN_K];
        contextfull.CopyFrom(context16k);
        if offset + |data| > SIXTEEN_K {
          contextfull.Update(data[first..]);
          assert File()[..SIXTEEN_K] + data[first..] == File()[..offset + |data|];
        }
      } else {
        context16k.Update(data);
        assert File()[..offset] + data == File()[..offset + |data|];
      }
    }

    // At the end of the file the hashes are those of the whole file and of its first 16k.
    method GetFileHashes() returns (hashfull: seq<Byte>, hash16k: seq<Byte>)
      requires Valid() && currentoffset == filesize
      ensures hashfull == Md5.Digest(contextfull.compress, File())
      ensures hash16k == Md5.Digest(contextfull.compress, File()[..Min(filesize, SIXTEEN_K)])
    {
      hide Tables, Md5.MD5Context.Valid, Md5.Digest, Placed;
      var context := new Md5.MD5Context(context16k.compress);
      context.CopyFrom(context16k);
      hash16k := context.Final();
      if filesize < SIXTEEN_K {
        hashfull := hash16k;
        assert File()[..filesize] == File();
      } else {
        context := new Md5.MD5Context(contextfull.compress);
        context.CopyFrom(contextfull);
        hashfull := context.Final();
        assert File()[..filesize] == File();
      }
    }

    function Offset(): nat
      reads this
    {
      currentoffset
    }

    function BlockLength(): int
      reads this
    {
      Min(blocksize, filesize - currentoffset)
    }

    predicate ShortBlock()
      reads this
    {
      BlockLength() < blocksize
    }

    // A full window holds the file's bytes, so the running checksum is the direct one.
    lemma WindowIsFile()
      requires Valid() && currentoffset + blocksize <= filesize
      ensures !ShortBlock()
      ensures buffer[outpointer..inpointer] == File()[currentoffset..currentoffset + blocksize]
      ensures checksum == Crc.Checksum(File()[currentoffset..currentoffset + blocksize])
    {
      hide Hashed, Tables, Crc.Checksum;
      LoadedSlice(buffer[..], tailpointer, File(), readoffset - tailpointer, outpointer, inpointer);
      assert buffer[..][outpointer..inpointer] == buffer[outpointer..inpointer];
    }

    // The hash of a full window is that of the file's bytes.
    method Hash() returns (hash: seq<Byte>)
      requires Valid() && currentoffset < filesize
      ensures hash == Md5.Digest(contextfull.compress, buffer[outpointer..outpointer + blocksize])
      ensures currentoffset + blocksize <= filesize
              ==> hash == Md5.Digest(contextfull.compress, File()[currentoffset..currentoffset + blocksize])
    {
      hide Hashed, Tables, Crc.Checksum, Md5.MD5Context.Valid, Md5.Digest;
      var context := new Md5.MD5Context(contextfull.compress);
      context.Update(buffer[outpointer..outpointer + blocksize]);
      assert context.message == buffer[outpointer..outpointer + blocksize];
      hash := context.Final();
      if currentoffset + blocksize <= filesize { WindowIsFile(); }
    }

    // A short block is taken as if it were followed by zero bytes.
    method ShortChecksum(blocklength: nat) returns (crc: Word)
      requires Valid() && currentoffset < filesize && blocklength <= blocksize
      ensures crc == Crc.Checksum(buffer[outpointer..outpointer + blocklength] + Crc.Zeros(blocksize - blocklength))
      ensures currentoffset + blocklength <= filesize
              ==> crc == Crc.Checksum(File()[currentoffset..currentoffset + blocklength] + Crc.Zeros(blocksize - blocklength))
    {
      hide Hashed, Crc.IsTable, Crc.IsWindowTable, Crc.Mask, Crc.Block, Xor;
      var data := buffer[outpointer..outpointer + blocklength];
      crc := Crc.CRCUpdateBlock(table, Crc.ONES, data);
      Crc.BlockAppend(Crc.ONES, data, Crc.Zeros(blocksize - blocklength));
      if blocksize > blocklength {
        crc := Crc.CRCUpdateZeros(table, crc, blocksize - blocklength);
      } else {
        assert data + Crc.Zeros(0) == data;
      }
      XorCommutes(crc, Crc.ONES);
      crc := Xor(crc, Crc.ONES);
      if currentoffset + blocklength <= filesize { ShortWindowIsFile(blocklength); }
    }

    lemma ShortWindowIsFile(blocklength: nat)
      requires Valid() && currentoffset < filesize && blocklength <= blocksize
      requires currentoffset + blocklength <= filesize
      ensures buffer[outpointer..outpointer + blocklength] == File()[currentoffset..currentoffset + blocklength]
    {
      hide Hashed, Tables, Crc.Checksum;
      LoadedSlice(buffer[..], tailpointer, File(), readoffset - tailpointer, outpointer, outpointer + blocklength);
      assert buffer[..][outpointer..outpointer + blocklength] == buffer[outpointer..outpointer + blocklength];
    }

    method ShortHash(blocklength: nat) returns (hash: seq<Byte>)
      requires Valid() && currentoffset < filesize && blocklength <= blocksize
      ensures currentoffset + blocklength <= filesize
              ==> hash == Md5.Digest(contextfull.compress,
                            File()[currentoffset..currentoffset + blocklength] + Md5.ZeroBytes(blocksize - blocklength))
    {
      hide Hashed, Tables, Crc.Checksum, Md5.MD5Context.Valid, Md5.Digest;
      var context := new Md5.MD5Context(contextfull.compress);
      ghost var data := buffer[outpointer..outpointer + blocklength];
      context.Update(buffer[outpointer..outpointer + blocklength]);
      assert [] + data == data;
      if blocksize > blocklength {
        context.UpdateZeros(blocksize - blocklength);
      }
      assert context.message == data + Md5.ZeroBytes(blocksize - blocklength);
      hash := context.Final();
      if currentoffset + blocklength <= filesize { ShortWindowIsFile(blocklength); }
    }
  }

  // What a scan looked at: where the window was, and its running checksum.
  datatype Look = Look(offset: nat, checksum: Word)

  // Every full window was looked at with its direct checksum.
  ghost predicate DirectLooks(file: seq<Byte>, blocksize: nat, looks: seq<Look>) {
    forall k :: 0 <= k < |looks| && looks[k].offset + blocksize <= |file|
      ==> looks[k].checksum == Crc.Checksum(file[looks[k].offset..looks[k].offset + blocksize])
  }

  // How far a scan goes on from a look.
  function Advance(l: Look, answer: (nat, Word) -> nat, blocksize: nat): nat {
    var distance := answer(l.offset, l.checksum);
    if distance == 0 then 1 else Min(distance, blocksize)
  }

  // The looks are one behind the other, from the beginning of the file; the next one would be at `end`.
  ghost predicate OneByOne(looks: seq<Look>, answer: (nat, Word) -> nat, blocksize: nat, filesize: nat, end: nat) {
    && (|looks| == 0 ==> end == 0)
    && (|looks| > 0 ==> looks[0].offset == 0 && end == Min(looks[|looks| - 1].offset + Advance(looks[|looks| - 1], answer, blocksize), filesize))
    && forall k :: 0 < k < |looks| ==> looks[k].offset == looks[k - 1].offset + Advance(looks[k - 1], answer, blocksize)
  }

  // A place was looked at, or lies inside a distance jumped.
  ghost predicate LookedAt(looks: seq<Look>, answer: (nat, Word) -> nat, blocksize: nat, o: nat) {
    exists k :: 0 <= k < |looks| &&
      (looks[k].offset == o || looks[k].offset < o < looks[k].offset + Min(answer(looks[k].offset, looks[k].checksum), blocksize))
  }

  // No place is passed over.
  lemma {:induction false} NothingPassed(looks: seq<Look>, answer: (nat, Word) -> nat, blocksize: nat, filesize: nat, end: nat, o: nat)
    requires OneByOne(looks, answer, blocksize, filesize, end) && o < end
    ensures LookedAt(looks, answer, blocksize, o)
    decreases |looks|
  {
    var n := |looks| - 1;
    if o >= looks[n].offset {
      assert looks[n].offset == o || looks[n].offset < o < looks[n].offset + Min(answer(looks[n].offset, looks[n].checksum), blocksize);
    } else {
      var before := looks[..n];
      assert OneByOne(before, answer, blocksize, looks[n].offset, looks[n].offset);
      NothingPassed(before, answer, blocksize, looks[n].offset, looks[n].offset, o);
      var k :| 0 <= k < |before| && (before[k].offset == o
        || before[k].offset < o < before[k].offset + Min(answer(before[k].offset, before[k].checksum), blocksize));
      assert looks[k] == before[k];
    }
  }

  // The scan loop.  What the table of known blocks answers is a parameter: 0 for no match, so that
  // the window steps on by one byte, or the distance to jump.  Whatever the answers, every full
  // window is looked at with its direct checksum; the scan ends; every place of the file is looked at
  // unless it lies inside a jump; and the hashes are those of the whole file and of its first 16k.  For an
  // empty file none are computed.
  method ScanDataFile(cs: CheckSummer, answer: (nat, Word) -> nat)
    returns (ok: bool, hashfull: seq<Byte>, hash16k: seq<Byte>, looks: seq<Look>)
    requires cs.Fixed() && cs.Hashed(0)
    modifies cs.Repr()
    ensures DirectLooks(cs.File(), cs.blocksize, looks)
    ensures ok ==> OneByOne(looks, answer, cs.blocksize, cs.filesize, cs.filesize)
    ensures ok ==> forall o: nat :: o < cs.filesize ==> LookedAt(looks, answer, cs.blocksize, o)
    ensures cs.filesize == 0 ==> ok && hashfull == hash16k == [] && looks == []
    ensures ok && cs.filesize > 0 ==> hashfull == Md5.Digest(cs.contextfull.compress, cs.File())
    ensures ok && cs.filesize > 0 ==> hash16k == Md5.Digest(cs.contextfull.compress, cs.File()[..Min(cs.filesize, SIXTEEN_K)])
  {
    hide Crc.Checksum, Md5.Digest, CheckSummer.Hashed, CheckSummer.Tables, CheckSummer.Loaded, CheckSummer.Placed, CheckSummer.Apart, LookedAt;
    hashfull, hash16k, looks := [], [], [];
    if cs.filesize == 0 { return true, [], [], []; }
    ok := cs.Start();
    if !ok { return; }
    while cs.currentoffset < cs.filesize
      invariant cs.Valid()
      invariant DirectLooks(cs.File(), cs.blocksize, looks)
      invariant OneByOne(looks, answer, cs.blocksize, cs.filesize, cs.currentoffset)
      decreases cs.filesize - cs.currentoffset
    {
      ghost var before, seen := cs.currentoffset, looks;
      if cs.currentoffset + cs.blocksize <= cs.filesize { cs.WindowIsFile(); }
      looks := looks + [Look(cs.currentoffset, cs.checksum)];
      var distance := answer(cs.currentoffset, cs.checksum);
      OneLookMore(seen, answer, cs.blocksize, cs.filesize, looks[|seen|]);
      if distance == 0 {
        ok := cs.Step();
      } else {
        ok := cs.Jump(distance);
      }
      if !ok { return; }
      assert cs.currentoffset > before;
    }
    forall o: nat | o < cs.filesize
      ensures LookedAt(looks, answer, cs.blocksize, o)
    {
      NothingPassed(looks, answer, cs.blocksize, cs.filesize, cs.filesize, o);
    }
    hashfull, hash16k := cs.GetFileHashes();
  }

  lemma OneLookMore(looks: seq<Look>, answer: (nat, Word) -> nat, blocksize: nat, filesize: nat, l: Look)
    requires OneByOne(looks, answer, blocksize, filesize, l.offset) && l.offset < filesize
    ensures OneByOne(looks + [l], answer, blocksize, filesize, Min(l.offset + Advance(l, answer, blocksize), filesize))
  {
  }
}
