// Buffered reading through a ring buffer: lines and tokens come out the same however the source
// hands out its bytes.
module Buffy {
  import opened Common
  import opened Lines

  const BUFSIZE: nat := 2048

  // The bytes from head up to tail, going round at the end.
  function Ring(b: seq<char>, head: nat, tail: nat): string
    requires |b| == BUFSIZE && head < BUFSIZE && tail < BUFSIZE
  {
    if tail >= head then b[head..tail] else b[head..] + b[..tail]
  }

  // What is left when the byte at the head is taken, the head being moved to next.
  ghost predicate Taken(b: seq<char>, head: nat, next: nat, tail: nat)
    requires |b| == BUFSIZE && head < BUFSIZE && next < BUFSIZE && tail < BUFSIZE
  {
    |Ring(b, head, tail)| > 0 && Ring(b, head, tail)[0] == b[head] && Ring(b, head, tail)[1..] == Ring(b, next, tail)
  }

  lemma TakenBelow(b: seq<char>, head: nat, tail: nat)
    requires |b| == BUFSIZE && head < tail < BUFSIZE
    ensures Taken(b, head, head + 1, tail)
  {
    SliceNext(b, head, tail);
  }

  lemma TakenAbove(b: seq<char>, head: nat, tail: nat)
    requires |b| == BUFSIZE && tail < head && head + 1 < BUFSIZE
    ensures Taken(b, head, head + 1, tail)
  {
    DropNext(b, head);
    TailOfSum(b[head..], b[..tail]);
  }

  lemma TakenRound(b: seq<char>, tail: nat)
    requires |b| == BUFSIZE && tail < BUFSIZE - 1
    ensures Taken(b, BUFSIZE - 1, 0, tail)
  {
    DropNext(b, BUFSIZE - 1);
    TailOfSum(b[BUFSIZE - 1..], b[..tail]);
    assert b[BUFSIZE..] + b[..tail] == b[0..tail];
  }

  lemma RingNext(b: seq<char>, head: nat, tail: nat)
    requires |b| == BUFSIZE && head < BUFSIZE && tail < BUFSIZE && head != tail
    ensures Taken(b, head, (head + 1) % BUFSIZE, tail)
  {
    hide Taken;
    if head < tail { TakenBelow(b, head, tail); }
    else if head + 1 < BUFSIZE { TakenAbove(b, head, tail); }
    else { TakenRound(b, tail); }
  }

  lemma DropNext(b: seq<char>, i: nat)
    requires i < |b|
    ensures |b[i..]| > 0 && b[i..][0] == b[i] && b[i..][1..] == b[i + 1..]
  {
  }

  lemma SliceNext(b: seq<char>, i: nat, j: nat)
    requires i < j <= |b|
    ensures b[i..j][0] == b[i] && b[i..j][1..] == b[i + 1..j]
  {
  }

  lemma TailOfSum(a: string, b: string)
    requires |a| > 0
    ensures (a + b)[0] == a[0] && (a + b)[1..] == a[1..] + b
  {
  }

  // An empty ring filled from its head with the first i bytes of a source.
  lemma RingFilled(b: seq<char>, head: nat, i: nat, source: string)
    requires |b| == BUFSIZE && head < BUFSIZE && 0 < i <= |source| && head + i <= BUFSIZE && (head == 0 ==> i < BUFSIZE)
    requires b[head..head + i] == source[..i]
    ensures (head + i) % BUFSIZE != head && b[head] == source[0]
    ensures Ring(b, head, (head + i) % BUFSIZE) + source[i..] == source
  {
    assert b[head..head + i][0] == source[..i][0];
    if head + i == BUFSIZE { assert b[head..] + b[..0] == b[head..head + i]; }
    assert source[..i] + source[i..] == source;
  }

  lemma RingEmpty(b: seq<char>, head: nat)
    requires |b| == BUFSIZE && head < BUFSIZE
    ensures Ring(b, head, head) == ""
  {
  }

  class RingBuffer {
    const buf: array<char>
    var bhead: nat
    var btail: nat
    var source: string      // what the source has not handed out yet

    ghost predicate Valid()
      reads this
    {
      buf.Length == BUFSIZE && bhead < BUFSIZE && btail < BUFSIZE
    }

    // What is in the buffer.
    ghost function Held(): string
      requires Valid()
      reads this, buf
    {
      Ring(buf[..], bhead, btail)
    }

    // All that is still to be read.
    ghost function Remaining(): string
      requires Valid()
      reads this, buf
    {
      Held() + source
    }

    constructor (source: string)
      ensures Valid() && Remaining() == source && fresh(buf)
    {
      buf := new char[BUFSIZE](_ => '\0');
      bhead, btail := 0, 0;
      this.source := source;
      new;
      assert buf[0..0] == [];
    }

    // Free places after the tail that can be filled in one go.
    method BufTailFree() returns (n: nat)
      requires Valid()
      ensures btail >= bhead ==> n == BUFSIZE - btail - (if bhead == 0 then 1 else 0)
      ensures btail < bhead ==> n == bhead - btail - 1
    {
      if btail >= bhead {
        n := BUFSIZE - btail - (if bhead == 0 then 1 else 0);
      } else {
        n := bhead - btail - 1;
      }
    }

    // Read up to l bytes from the source: at least one unless it is at its end, otherwise as many as it likes.
    method Bfill(at: nat, l: nat) returns (i: nat)
      requires Valid() && l > 0 && at + l <= BUFSIZE
      modifies buf, `source
      ensures i <= l && (i == 0 <==> |old(source)| == 0) && i <= |old(source)|
      ensures source == old(source)[i..] && buf[at..at + i] == old(source)[..i]
      ensures buf[..at] == old(buf[..at])
    {
      if |source| == 0 { return 0; }
      i :| 1 <= i <= l && i <= |source|;
      forall k | 0 <= k < i {
        buf[at + k] := source[k];
      }
      source := source[i..];
    }

    // Fill the empty buffer again.
    method Dofill() returns (i: nat)
      requires Valid() && bhead == btail
      modifies this, buf
      ensures Valid() && Remaining() == old(Remaining()) && bhead == old(bhead)
      ensures i == 0 <==> |Remaining()| == 0
      ensures i > 0 ==> bhead != btail && buf[bhead] == Remaining()[0]
      ensures i == 0 ==> bhead == btail
    {
      hide Ring;
      RingEmpty(buf[..], bhead);
      ghost var rest := source;
      var n := BufTailFree();
      i := Bfill(btail, n);
      RingEmpty(buf[..], bhead);
      if i > 0 {
        assert buf[..][bhead..bhead + i] == buf[bhead..bhead + i];
        RingFilled(buf[..], bhead, i, rest);
        btail := (btail + i) % BUFSIZE;
      }
    }

    // At the end?
    method Beof() returns (eof: bool)
      requires Valid()
      modifies this, buf
      ensures Valid() && Remaining() == old(Remaining()) && (eof <==> |Remaining()| == 0)
    {
      if btail != bhead {
        HeldSome();
        return false;
      }
      var i := Dofill();
      return i == 0;
    }

    // A buffer whose ends differ holds the byte at its head first.
    lemma HeldSome()
      requires Valid() && bhead != btail
      ensures |Held()| > 0 && Held()[0] == buf[bhead] && Remaining()[0] == buf[bhead]
      ensures Ring(buf[..], (bhead + 1) % BUFSIZE, btail) == Held()[1..]
    {
      hide Ring;
      RingNext(buf[..], bhead, btail);
    }

    // The next byte, left where it is.
    method Bpeek() returns (r: Option<char>)
      requires Valid()
      modifies this, buf
      ensures Valid() && Remaining() == old(Remaining())
      ensures r == if |Remaining()| == 0 then None else Some(Remaining()[0])
    {
      if bhead == btail {
        var i := Dofill();
        if i == 0 { return None; }
      }
      HeldSome();
      r := Some(buf[bhead]);
    }

    // The next byte.
    method Bget() returns (r: Option<char>)
      requires Valid()
      modifies this, buf
      ensures Valid()
      ensures |old(Remaining())| == 0 ==> r == None && Remaining() == ""
      ensures |old(Remaining())| > 0 ==> r == Some(old(Remaining())[0]) && Remaining() == old(Remaining())[1..]
    {
      if bhead == btail {
        var i := Dofill();
        if i == 0 { return None; }
      }
      hide Ring;
      HeldSome();
      ghost var held := Held();
      assert (held + source)[1..] == held[1..] + source;
      r := Some(buf[bhead]);
      bhead := (bhead + 1) % BUFSIZE;
    }
  
    // Read a line.  Returns its text and how many bytes were swallowed.
    method Bgets() returns (text: string, rcount: nat)
      requires Valid()
      modifies this, buf
      ensures Valid() && Remaining() == AfterLine(old(Remaining()))
      ensures text == NoCr(RawLine(old(Remaining())))
      ensures rcount == |old(Remaining())| - |Remaining()|
    {
      hide Held, Ring, NoCr, LineEnd, RawLine, AfterLine;
      ghost var line, all := "", Remaining();
      text, rcount := "", 0;
      assert NoCr("") == "" by { NoCrNone(""); }
      while true
        invariant Valid() && all == line + Remaining() && '\n' !in line
        invariant text == NoCr(line) && rcount == |line|
        decreases |Remaining()|
      {
        ghost var rest := Remaining();
        var i := Bget();
        if i.None? {
          LineSplit(line, rest);
          return;
        }
        rcount := rcount + 1;
        if i.value == '\n' {
          LineSplit(line, rest);
          return;
        }
        NoCrMore(line, i.value);
        OneConsumed(line, rest);
        line := line + [i.value];
        if i.value == '\r' {
          continue;
        }
        text := text + [i.value];
      }
    }

    // Read a line and take it apart at the separators: how many tokens there are, and up to max of them.
    method Btoks(tok: char, max: nat) returns (num: nat, toks: seq<string>)
      requires Valid() && max > 0 && tok != '\r' && tok != '\n'
      modifies this, buf
      ensures Valid() && Remaining() == AfterLine(old(Remaining()))
      ensures num == |Tokens(old(Remaining()), tok)|
      ensures toks == FirstTokens(Tokens(old(Remaining()), tok), max)
    {
      hide Held, Ring, NoCr, LineEnd, RawLine, AfterLine, Split;
      ghost var line, all := "", Remaining();
      var kept := [""];
      num := 1;
      assert NoCr("") == "" by { NoCrNone(""); }
      NothingSplit(tok);
      while true
        invariant Valid() && all == line + Remaining() && '\n' !in line
        invariant num == |Split(NoCr(line), tok)| && kept == Split(NoCr(line), tok)[..if num < max then num else max]
        decreases |Remaining()|
      {
        ghost var rest := Remaining();
        var i := Bget();
        if i.None? {
          LineSplit(line, rest);
          break;
        }
        if i.value == '\n' {
          LineSplit(line, rest);
          break;
        }
        NoCrMore(line, i.value);
        OneConsumed(line, rest);
        SplitOne(NoCr(line), i.value, tok);
        line := line + [i.value];
        if i.value == tok {
          if num < max {
            kept := kept + [""];
          }
          num := num + 1;
          continue;
        } else if i.value == '\r' {
          continue;
        }
        if num <= max {
          kept := kept[num - 1 := kept[num - 1] + [i.value]];
        }
      }
      toks := CStrs(kept);
    }
  }

  lemma OneConsumed(line: string, rest: string)
    requires |rest| > 0
    ensures line + rest == (line + [rest[0]]) + rest[1..]
  {
  }

  lemma NothingSplit(tok: char)
    ensures Split("", tok) == [""]
  {
  }

  // The tokens of the first line.
  function Tokens(s: string, tok: char): (r: seq<string>)
    ensures |r| > 0
  {
    Split(NoCr(RawLine(s)), tok)
  }

  function CStrs(ts: seq<string>): seq<string> {
    seq(|ts|, k requires 0 <= k < |ts| => CStr(ts[k]))
  }

  function FirstTokens(ts: seq<string>, max: nat): seq<string> {
    CStrs(if |ts| < max then ts else ts[..max])
  }
}
