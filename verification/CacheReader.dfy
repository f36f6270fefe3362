// Saving a header cache and reading it back through the ring buffer.
module CacheReader {
  import opened Common
  import opened FileOrder
  import opened CacheFiles
  import opened Lines
  import opened Buffy
  import opened Cache
  import opened CacheText
  import CacheShape

  // ---------- saving ----------

  method SavePart(p: Part) returns (text: string)
    ensures text == PartText(p)
  {
    hide Line, ArticleFields, PartFields;
    text := Line(PartFields(p));
    ghost var lines := ArticleLines(p.articles);
    assert lines[..0] == [] && text + "" == text;
    for i := 0 to |p.articles|
      invariant text == Line(PartFields(p)) + Concat(lines[..i])
    {
      ConcatMore(lines[..i], lines[i]);
      assert lines[..i + 1] == lines[..i] + [lines[i]];
      text := text + Line(ArticleFields(p.articles[i]));
    }
    assert lines[..|lines|] == lines;
    text := text + ".\n";
  }

  method SaveFile(f: File) returns (text: string)
    ensures text == FileText(f)
  {
    hide Line, FileFields, PartText, Escaped;
    text := Line(FileFields(f));
    ghost var lines := RefLines(f.key.references);
    assert lines[..0] == [] && text + "" == text;
    for i := 0 to |f.key.references|
      invariant text == Line(FileFields(f)) + Concat(lines[..i])
    {
      ConcatMore(lines[..i], lines[i]);
      assert lines[..i + 1] == lines[..i] + [lines[i]];
      text := text + (Escaped(f.key.references[i]) + "\n");
    }
    assert lines[..|lines|] == lines;
    text := text + ".\n";
    ghost var before, parts := text, PartTexts(f.parts);
    assert parts[..0] == [] && text + "" == text;
    for i := 0 to |f.parts|
      invariant text == before + Concat(parts[..i])
    {
      ConcatMore(parts[..i], parts[i]);
      assert parts[..i + 1] == parts[..i] + [parts[i]];
      var part := SavePart(f.parts[i]);
      text := text + part;
    }
    assert parts[..|parts|] == parts;
    text := text + ".\n";
  }

  method Save(c: Saved) returns (text: string)
    ensures text == TextOf(c)
  {
    hide Line, HeadFields, ServerFields, FileText;
    text := Line(HeadFields(c.totalnum));
    ghost var lines := ServerLines(c.servers);
    assert lines[..0] == [] && text + "" == text;
    for i := 0 to |c.servers|
      invariant text == Line(HeadFields(c.totalnum)) + Concat(lines[..i])
    {
      ConcatMore(lines[..i], lines[i]);
      assert lines[..i + 1] == lines[..i] + [lines[i]];
      text := text + Line(ServerFields(c.servers[i]));
    }
    assert lines[..|lines|] == lines;
    text := text + ".\n";
    ghost var before, files := text, FileTexts(c.files);
    assert files[..0] == [] && text + "" == text;
    for i := 0 to |c.files|
      invariant text == before + Concat(files[..i])
    {
      ConcatMore(files[..i], files[i]);
      assert files[..i + 1] == files[..i] + [files[i]];
      var file := SaveFile(c.files[i]);
      text := text + file;
    }
    assert files[..|files|] == files;
  }

  // ---------- reading ----------

  lemma PeekIsDot(s: string)
    requires |s| > 0
    ensures Dotted(RawLine(s)) <==> s[0] == '.'
  {
  }

  lemma PlaceUnique(ps: seq<Part>, partnum: int, k: nat)
    requires IsPlace(ps, partnum, k)
    ensures Place(ps, partnum) == k
    decreases |ps|
  {
    if |ps| > 0 {
      var rest := ps[1..];
      assert forall i :: 0 <= i < |rest| ==> rest[i] == ps[i + 1];
      if k > 0 { PlaceUnique(rest, partnum, k - 1); }
    }
  }

  // The part with the number is at its place, if there is one.
  lemma AtPlace(ps: seq<Part>, partnum: int)
    requires Sorted(ps)
    ensures var k := Place(ps, partnum); (k < |ps| && ps[k].partnum == partnum) <==> IndexOf(ps, partnum).Some?
  {
    PlaceIs(ps, partnum);
    var k := Place(ps, partnum);
    if i: nat :| i < |ps| && ps[i].partnum == partnum {
      assert k <= i;
      assert partnum <= ps[k].partnum <= ps[i].partnum;
    }
  }

  class Reader {
    const f: RingBuffer
    const ctx: Context

    constructor (f: RingBuffer, ctx: Context)
      ensures this.f == f && this.ctx == ctx
    {
      this.f, this.ctx := f, ctx;
    }

    // A line of an article, or the dot behind the last.
    method ArticleLine(st: Reading) returns (next: Reading)
      requires f.Valid() && |f.Remaining()| > 0 && ReadingOk(st) && st.mode == ServerArticleMode
      modifies f, f.buf
      ensures f.Valid() && f.Remaining() == AfterLine(old(f.Remaining()))
      ensures More(next) == StepArticle(st, RawLine(old(f.Remaining())), ctx)
    {
      hide RingBuffer.Held, Split, NoCr, RawLine, AfterLine, Atoul, CStr;
      PeekIsDot(f.Remaining());
      ghost var raw := RawLine(f.Remaining());
      next := st;
      var c := f.Bpeek();
      if c == Some('.') {
        var text, n := f.Bgets();
        next := next.(mode := PartMode);
      } else {
        var i, t := f.Btoks('\t', 4);
        if i == 4 {
          var serverid := Atoul(t[0]);
          if ctx.known(serverid) {
            var sa := Article(serverid, ctx.group, Atoul(t[1]), Atoul(t[2]), Atoul(t[3]));
            assert sa == ArticleOf(Fields(raw), ctx.group);
            var nf, np := next.nf.value, next.np.value;
            next := next.(nf := Some(nf.(parts := nf.parts[np := nf.parts[np].(articles := nf.parts[np].articles + [sa])])));
          } else {
            next := next.(counts := next.counts.(dead := next.counts.dead + 1));
          }
        }
      }
    }

    // Drop the part just read if it has no articles.
    method DropEmptyPart(st: Reading) returns (next: Reading)
      requires ReadingOk(st) && st.mode == PartMode
      ensures next == DropEmpty(st)
    {
      next := st;
      if st.np.Some? {
        var nf := st.nf.value;
        var p := nf.parts[st.np.value];
        if |p.articles| == 0 {
          IndexIs(nf.parts, st.np.value);
          var parts := RemovePart(nf.parts, p.partnum);
          next := Reading(st.mode, Some(nf.(parts := parts)), None,
                          Counts(st.counts.count - 1, st.counts.dead, st.counts.gone + [p.mid]));
        }
      }
    }

    // A line of a part, or the dot behind the last.
    method PartLine(st: Reading) returns (next: Next)
      requires f.Valid() && |f.Remaining()| > 0 && ReadingOk(st) && st.mode == PartMode
      modifies f, f.buf
      ensures f.Valid() && f.Remaining() == AfterLine(old(f.Remaining()))
      ensures next == StepPart(st, RawLine(old(f.Remaining())))
    {
      hide RingBuffer.Held, Split, NoCr, RawLine, AfterLine, Atoul, Atoi, CStr, DropEmpty, Place;
      PeekIsDot(f.Remaining());
      ghost var raw := RawLine(f.Remaining());
      DropKeepsOk(st);
      var now := DropEmptyPart(st);
      var nf := now.nf.value;
      var c := f.Bpeek();
      if c == Some('.') {
        var text, n := f.Bgets();
        if |nf.parts| == 0 {
          return More(Reading(FileMode, None, None, now.counts));
        }
        return Done(nf, now.counts);
      }
      var i, t := f.Btoks('\t', 3);
      if i != 3 {
        return More(now);
      }
      var np := Part(Atoi(t[0]), [], Atoul(t[1]), t[2]);
      assert np == PartOf(Fields(raw));
      AtPlace(nf.parts, np.partnum);
      var has := FindPart(nf.parts, np.partnum);
      if has.Some? {
        return Abort;
      }
      ghost var k;
      nf, k := FileAddPart(nf, np);
      PlaceUnique(now.nf.value.parts, np.partnum, k);
      AtPlace(nf.parts, np.partnum);
      var at := FindPart(nf.parts, np.partnum);
      InsertedAtPlace(now.nf.value.parts, np, k);
      next := More(Reading(ServerArticleMode, Some(nf), at, now.counts.(count := now.counts.count + 1)));
    }

    // The line that starts a file.
    method FileLine(st: Reading) returns (next: Reading)
      requires f.Valid() && |f.Remaining()| > 0 && ReadingOk(st) && st.mode == FileMode
      modifies f, f.buf
      ensures f.Valid() && f.Remaining() == AfterLine(old(f.Remaining()))
      ensures More(next) == StepFile(st, RawLine(old(f.Remaining())))
    {
      hide RingBuffer.Held, Split, NoCr, RawLine, AfterLine, Atoul, Atoi, CStr;
      ghost var raw := RawLine(f.Remaining());
      next := st;
      var i, t := f.Btoks('\t', 7);
      if i == 7 {
        var nf := File(Key(Atoi(t[0]), Atoi(t[4]), t[3], t[2], []), [], 0, Atoul(t[1]), Atoi(t[5]), Atoul(t[6]));
        assert nf == FileOf(Fields(raw));
        next := Reading(ReferencesMode, Some(nf), st.np, st.counts);
      }
    }

    // A reference, or the dot behind the last.
    method ReferenceLine(st: Reading) returns (next: Reading)
      requires f.Valid() && |f.Remaining()| > 0 && ReadingOk(st) && st.mode == ReferencesMode
      modifies f, f.buf
      ensures f.Valid() && f.Remaining() == AfterLine(old(f.Remaining()))
      ensures More(next) == StepReference(st, RawLine(old(f.Remaining())))
    {
      hide RingBuffer.Held, NoCr, RawLine, AfterLine, CStr;
      var line, n := f.Bgets();
      var buf := CStr(line);
      if |buf| == 1 && buf[0] == '.' {
        return st.(mode := PartMode, np := None);
      }
      if |buf| > 0 && buf[0] == '.' {
        buf := buf[1..];
      }
      var nf := st.nf.value;
      next := st.(nf := Some(nf.(key := nf.key.(references := nf.key.references + [buf]))));
    }

    // Read lines until a file is complete, or to the end of the text.
    method ReadFile(before: Counts) returns (nf: Option<File>, ok: bool, counts: Counts)
      requires f.Valid()
      modifies f, f.buf
      ensures f.Valid()
      ensures match ReadFrom(Start(before), old(f.Remaining()), ctx)
        case Got(file, c, rest) => ok && nf == Some(file) && counts == c && f.Remaining() == rest
        case AtEnd(c) => ok && nf == None && counts == c
        case UnexpectedEof => !ok && counts == before
        case Aborted => !ok && counts == before
      ensures nf.Some? ==> CacheShape.ReadWell(old(f.Remaining()), before, ctx, nf.value, counts)
    {
      hide RingBuffer.Held, ReadFrom, Step, ReadingOk, RawLine, AfterLine, CacheShape.ReadWell;
      var st := Start(before);
      StartOk(before);
      ghost var all := f.Remaining();
      FileIsWell(before, all, ctx);
      while true
        invariant f.Valid() && ReadingOk(st)
        invariant ReadFrom(st, f.Remaining(), ctx) == ReadFrom(Start(before), all, ctx)
        decreases |f.Remaining()|
      {
        var eof := f.Beof();
        ghost var s := f.Remaining();
        StepOnce(st, s, ctx);
        if eof {
          if st.nf.Some? { return None, false, before; }
          return None, true, st.counts;
        }
        AfterShorter(s);
        var next := NextLine(st);
        if next.Abort? { return None, false, before; }
        if next.Done? { return Some(next.file), true, next.counts; }
        st := next.state;
      }
    }

    // One line, by the reader's mode.
    method NextLine(st: Reading) returns (next: Next)
      requires f.Valid() && |f.Remaining()| > 0 && ReadingOk(st)
      modifies f, f.buf
      ensures f.Valid() && f.Remaining() == AfterLine(old(f.Remaining()))
      ensures next == Step(st, RawLine(old(f.Remaining())), ctx)
    {
      hide RingBuffer.Held, StepArticle, StepPart, StepFile, StepReference, RawLine, AfterLine, ReadingOk;
      var st';
      if st.mode == ServerArticleMode {
        st' := ArticleLine(st);
        next := More(st');
      } else if st.mode == PartMode {
        next := PartLine(st);
      } else if st.mode == FileMode {
        st' := FileLine(st);
        next := More(st');
      } else {
        st' := ReferenceLine(st);
        next := More(st');
      }
    }

    // The server lines, up to their dot.
    method ServerLines() returns (servers: Servers, ok: bool)
      requires f.Valid()
      modifies f, f.buf
      ensures f.Valid()
      ensures var r := ReadServers(map[], old(f.Remaining()), ctx);
        servers == r.servers && ok == r.rest.Some? && (ok ==> f.Remaining() == r.rest.value)
    {
      hide RingBuffer.Held, RawLine, AfterLine, Split, NoCr, Atoul, CStr;
      servers := map[];
      ghost var all := f.Remaining();
      while true
        invariant f.Valid() && ReadServers(servers, f.Remaining(), ctx) == ReadServers(map[], all, ctx)
        decreases |f.Remaining()|
      {
        var eof := f.Beof();
        if eof { return servers, false; }
        ghost var s := f.Remaining();
        AfterShorter(s);
        PeekIsDot(s);
        var c := f.Bpeek();
        if c == Some('.') {
          var text, n := f.Bgets();
          return servers, true;
        }
        var i, t := f.Btoks('\t', 4);
        if i == 4 {
          var serverid := Atoul(t[0]);
          if ctx.known(serverid) {
            servers := Insert(servers, serverid, ServerInfo(Atoul(t[1]), Atoul(t[2]), Atoul(t[3])));
          }
        }
      }
    }
  }

  lemma FileIsWell(c: Counts, s: string, ctx: Context)
    ensures ReadingOk(Start(c))
    ensures ReadFrom(Start(c), s, ctx).Got? ==>
      CacheShape.ReadWell(s, c, ctx, ReadFrom(Start(c), s, ctx).file, ReadFrom(Start(c), s, ctx).counts)
  {
    hide CacheShape.ReadWell, CacheShape.FileIn, ReadFrom;
    CacheShape.ReadIsShape(s, c, ctx);
    if ReadFrom(Start(c), s, ctx).Got? { CacheShape.GotIsWell(s, c, ctx); }
  }

  // Open a cache file: whatever the source hands out at a time, the result depends on its text alone.
  method LoadCache(source: string, ctx: Context) returns (l: Loaded)
    ensures l == Load(source, ctx)
    ensures CacheShape.LoadedWell(l, ctx)
  {
    CacheShape.LoadIsWell(source, ctx);
    hide CacheShape.LoadedWell;
    hide RingBuffer.Held, RawLine, AfterLine, Split, NoCr, CStr, ReadServers, ReadFrom, InsertedFile, SortVersion;
    var f := new RingBuffer(source);
    var reader := new Reader(f, ctx);
    var eof := f.Beof();
    if eof { return Loaded(false, false, 0, map[], []); }
    var i, t := f.Btoks('\t', 2);
    if i != 2 || t[0] != CACHE_VERSION {
      return Loaded(false, false, 0, map[], []);
    }
    var sortver := SortVersion(t[1]);
    var servers, ok := reader.ServerLines();
    if !ok { return Loaded(false, false, 0, servers, []); }
    var files: seq<File> := [];
    var counts := NO_COUNTS;
    ghost var all := f.Remaining();
    while true
      invariant f.Valid() && fresh(f) && fresh(f.buf)
      invariant ReadFiles(files, counts, f.Remaining(), ctx) == ReadFiles([], NO_COUNTS, all, ctx)
      decreases |f.Remaining()|
    {
      ReadShorter(Start(counts), f.Remaining(), ctx);
      var nf;
      nf, ok, counts := reader.ReadFile(counts);
      if !ok { return Loaded(false, false, 0, servers, files); }
      if nf.None? { break; }
      files := InsertedFile(files, nf.value);
    }
    l := Loaded(true, sortver != CACHE_SORTVER, counts.count, servers, files);
  }

  lemma InsertedAtPlace(ps: seq<Part>, p: Part, k: nat)
    requires k <= |ps| && Sorted(ps[..k] + [p] + ps[k..])
    ensures IndexOf(ps[..k] + [p] + ps[k..], p.partnum) == Some(k)
  {
    var r := ps[..k] + [p] + ps[k..];
    assert r[k] == p;
    IndexIs(r, k);
  }
}
