// The shape of a saved cache, block inside block, and what any text gives when it is read line by line.
//
// A file is a line of seven fields, references up to a dot, and parts up to a dot; a part is a line of three
// fields and articles of four fields up to a dot.  Lines that do not fit where they stand are passed over.
module CacheShape {
  import opened Common
  import opened FileOrder
  import opened CacheFiles
  import opened Lines
  import opened CacheText
  import MetaGroup

  // ---------- the blocks ----------

  // Articles, and what follows their dot; None when the text ends before.
  datatype ArticleBlock = ArticleBlock(articles: seq<Article>, rest: Option<string>)

  function Articles(s: string, group: string): (b: ArticleBlock)
    ensures b.rest.Some? ==> |b.rest.value| < |s|
    decreases |s|
  {
    if |s| == 0 then ArticleBlock([], None)
    else
      AfterShorter(s);
      if Dotted(RawLine(s)) then ArticleBlock([], Some(AfterLine(s)))
      else
        var b := Articles(AfterLine(s), group);
        if |Fields(RawLine(s))| == 4 then ArticleBlock([ArticleOf(Fields(RawLine(s)), group)] + b.articles, b.rest) else b
  }

  // A part as it stands in the text, with the articles of all servers.
  datatype RawPart = RawPart(part: Part, articles: seq<Article>)

  datatype PartBlock = PartBlock(parts: seq<RawPart>, rest: Option<string>)

  function Parts(s: string, group: string): (b: PartBlock)
    ensures b.rest.Some? ==> |b.rest.value| < |s|
    decreases |s|
  {
    if |s| == 0 then PartBlock([], None)
    else
      AfterShorter(s);
      if Dotted(RawLine(s)) then PartBlock([], Some(AfterLine(s)))
      else if |Fields(RawLine(s))| == 3 then
        var p, a := PartOf(Fields(RawLine(s))), Articles(AfterLine(s), group);
        if a.rest.None? then PartBlock([RawPart(p, a.articles)], None)
        else
          var b := Parts(a.rest.value, group);
          PartBlock([RawPart(p, a.articles)] + b.parts, b.rest)
      else Parts(AfterLine(s), group)
  }

  datatype ReferenceBlock = ReferenceBlock(references: seq<string>, rest: Option<string>)

  function References(s: string): (b: ReferenceBlock)
    ensures b.rest.Some? ==> |b.rest.value| < |s|
    decreases |s|
  {
    if |s| == 0 then ReferenceBlock([], None)
    else
      AfterShorter(s);
      var line := CStr(NoCr(RawLine(s)));
      if line == "." then ReferenceBlock([], Some(AfterLine(s)))
      else
        var b := References(AfterLine(s));
        ReferenceBlock([if Dotted(line) then line[1..] else line] + b.references, b.rest)
  }

  // The first line that starts a file, and what follows it.
  datatype Head = Head(file: File, rest: string)

  function FirstHead(s: string): (h: Option<Head>)
    ensures h.Some? ==> |h.value.rest| < |s|
    decreases |s|
  {
    if |s| == 0 then None
    else
      AfterShorter(s);
      if |Fields(RawLine(s))| == 7 then Some(Head(FileOf(Fields(RawLine(s))), AfterLine(s))) else FirstHead(AfterLine(s))
  }

  // ---------- putting the parts together ----------

  // The articles on servers that are known.
  function Known(articles: seq<Article>, ctx: Context): seq<Article> {
    if |articles| == 0 then []
    else (if ctx.known(articles[0].serverid) then [articles[0]] else []) + Known(articles[1..], ctx)
  }

  // The parts with articles on known servers, and the messages of those without.
  function Kept(ps: seq<RawPart>, ctx: Context): seq<Part> {
    if |ps| == 0 then []
    else
      var known := Known(ps[0].articles, ctx);
      (if |known| > 0 then [ps[0].part.(articles := known)] else []) + Kept(ps[1..], ctx)
  }

  function Dropped(ps: seq<RawPart>, ctx: Context): seq<string> {
    if |ps| == 0 then []
    else (if |Known(ps[0].articles, ctx)| > 0 then [] else [ps[0].part.mid]) + Dropped(ps[1..], ctx)
  }

  // How many articles are ignored.
  function Ignored(ps: seq<RawPart>, ctx: Context): nat {
    if |ps| == 0 then 0 else |ps[0].articles| - KnownCount(ps[0].articles, ctx) + Ignored(ps[1..], ctx)
  }

  function KnownCount(articles: seq<Article>, ctx: Context): (n: nat)
    ensures n == |Known(articles, ctx)| <= |articles|
  {
    if |articles| == 0 then 0 else (if ctx.known(articles[0].serverid) then 1 else 0) + KnownCount(articles[1..], ctx)
  }

  // How many of the parts, dropped or not, count.
  function RawCounted(ps: seq<RawPart>, req: int): nat {
    if |ps| == 0 then 0 else (if CountPartnum(ps[0].part.partnum, req) then 1 else 0) + RawCounted(ps[1..], req)
  }

  datatype Assembly = Assembly(file: File, counts: Counts)

  function OneMore(f: File, c: Counts, p: RawPart, ctx: Context): Option<Assembly> {
    var k := Place(f.parts, p.part.partnum);
    if k < |f.parts| && f.parts[k].partnum == p.part.partnum then None
    else
      var known := Known(p.articles, ctx);
      var g := f.(have := if CountPartnum(p.part.partnum, f.key.req) then f.have + 1 else f.have);
      var dead := c.dead + (|p.articles| - KnownCount(p.articles, ctx));
      if |known| == 0 then Some(Assembly(g, Counts(c.count, dead, c.gone + [p.part.mid])))
      else
        Some(Assembly(g.(parts := f.parts[..k] + [p.part.(articles := known)] + f.parts[k..]), Counts(c.count + 1, dead, c.gone)))
  }

  // The parts added one by one; None when a number comes that is taken.
  function Assemble(f: File, c: Counts, ps: seq<RawPart>, ctx: Context): Option<Assembly>
    decreases |ps|
  {
    if |ps| == 0 then Some(Assembly(f, c))
    else
      match OneMore(f, c, ps[0], ctx)
      case None => None
      case Some(a) => Assemble(a.file, a.counts, ps[1..], ctx)
  }

  // The next file with any parts left.
  function FileIn(s: string, c: Counts, ctx: Context): Outcome
    decreases |s|
  {
    match FirstHead(s)
    case None => AtEnd(c)
    case Some(h) =>
      var refs := References(h.rest);
      if refs.rest.None? then UnexpectedEof
      else
        var parts := Parts(refs.rest.value, ctx.group);
        match Assemble(h.file.(key := h.file.key.(references := refs.references)), c, parts.parts, ctx)
        case None => Aborted
        case Some(a) =>
          if parts.rest.None? then UnexpectedEof
          else if |a.file.parts| == 0 then FileIn(parts.rest.value, a.counts, ctx)
          else Got(a.file, a.counts, parts.rest.value)
  }

  // ---------- reading line by line gives that ----------

  function WithKnown(st: Reading, articles: seq<Article>, ctx: Context): Reading
    requires st.nf.Some? && st.np.Some? && st.np.value < |st.nf.value.parts|
  {
    var f, k := st.nf.value, st.np.value;
    Reading(PartMode, Some(f.(parts := f.parts[k := f.parts[k].(articles := f.parts[k].articles + Known(articles, ctx))])), st.np,
            st.counts.(dead := st.counts.dead + (|articles| - KnownCount(articles, ctx))))
  }

  lemma WithKnownOk(st: Reading, articles: seq<Article>, ctx: Context)
    requires ReadingOk(st) && st.mode == ServerArticleMode
    ensures ReadingOk(WithKnown(st, articles, ctx))
  {
    hide Known;
  }

  lemma {:induction false} ArticlesRead(st: Reading, s: string, ctx: Context)
    requires ReadingOk(st) && st.mode == ServerArticleMode
    ensures ReadingOk(WithKnown(st, Articles(s, ctx.group).articles, ctx))
    ensures ReadFrom(st, s, ctx) == var b := Articles(s, ctx.group);
      if b.rest.None? then UnexpectedEof else ReadFrom(WithKnown(st, b.articles, ctx), b.rest.value, ctx)
    decreases |s|
  {
    hide ReadFrom, RawLine, AfterLine, Fields, ArticleOf, Known;
    WithKnownOk(st, Articles(s, ctx.group).articles, ctx);
    StepOnce(st, s, ctx);
    if |s| > 0 {
      AfterShorter(s);
      var line := RawLine(s);
      if Dotted(line) {
        NoneKnown(st, ctx);
      } else {
        ArticleKeepsOk(st, line, ctx);
        var next := StepArticle(st, line, ctx).state;
        ArticlesRead(next, AfterLine(s), ctx);
        if |Fields(line)| == 4 {
          OneArticleMore(st, ArticleOf(Fields(line), ctx.group), next, Articles(AfterLine(s), ctx.group).articles, ctx);
        }
      }
    }
  }

  lemma NoneKnown(st: Reading, ctx: Context)
    requires ReadingOk(st) && st.mode == ServerArticleMode
    ensures WithKnown(st, [], ctx) == st.(mode := PartMode)
  {
    var f, k := st.nf.value, st.np.value;
    assert f.parts[k].articles + [] == f.parts[k].articles;
    assert f.parts[k := f.parts[k]] == f.parts;
  }

  lemma OneArticleMore(st: Reading, a: Article, next: Reading, articles: seq<Article>, ctx: Context)
    requires ReadingOk(st) && st.mode == ServerArticleMode
    requires next == var f, k := st.nf.value, st.np.value;
      if ctx.known(a.serverid) then st.(nf := Some(f.(parts := f.parts[k := f.parts[k].(articles := f.parts[k].articles + [a])])))
      else st.(counts := st.counts.(dead := st.counts.dead + 1))
    ensures WithKnown(next, articles, ctx) == WithKnown(st, [a] + articles, ctx)
  {
    var f, k := st.nf.value, st.np.value;
    assert ([a] + articles)[0] == a && ([a] + articles)[1..] == articles;
    var known := Known(articles, ctx);
    assert (f.parts[k].articles + [a]) + known == f.parts[k].articles + ([a] + known);
    assert [] + known == known;
    var x := f.parts[k].(articles := f.parts[k].articles + [a]);
    var y := f.parts[k].(articles := f.parts[k].articles + ([a] + known));
    assert f.parts[k := x][k := y] == f.parts[k := y];
    assert KnownCount([a] + articles, ctx) == (if ctx.known(a.serverid) then 1 else 0) + KnownCount(articles, ctx);
  }

  // What the parts block leaves, however the reader came to it.
  ghost function AfterParts(f: File, c: Counts, b: PartBlock, ctx: Context): Outcome {
    match Assemble(f, c, b.parts, ctx)
    case None => Aborted
    case Some(a) =>
      if b.rest.None? then UnexpectedEof
      else if |a.file.parts| == 0 then StartOk(a.counts); ReadFrom(Start(a.counts), b.rest.value, ctx)
      else Got(a.file, a.counts, b.rest.value)
  }

  lemma {:induction false} PartsRead(st: Reading, s: string, ctx: Context)
    requires ReadingOk(st) && st.mode == PartMode
    ensures DropEmpty(st).nf.Some?
    ensures ReadFrom(st, s, ctx) == AfterParts(DropEmpty(st).nf.value, DropEmpty(st).counts, Parts(s, ctx.group), ctx)
    decreases |s|
  {
    hide ReadFrom, RawLine, AfterLine, Fields, PartOf, Place, DropEmpty, OneMore, Assemble;
    DropKeepsOk(st);
    var d := DropEmpty(st);
    StepOnce(st, s, ctx);
    NoPartsLeft(d.nf.value, d.counts, ctx);
    if |s| > 0 {
      AfterShorter(s);
      var line := RawLine(s);
      if !Dotted(line) {
        if |Fields(line)| == 3 {
          OnePartRead(st, s, ctx);
        } else {
          DroppedAlready(st);
          PartsRead(d, AfterLine(s), ctx);
        }
      }
    }
  }

  lemma NoPartsLeft(f: File, c: Counts, ctx: Context)
    ensures Assemble(f, c, [], ctx) == Some(Assembly(f, c))
  {
  }

  lemma DroppedAlready(st: Reading)
    requires ReadingOk(st) && st.mode == PartMode
    ensures DropEmpty(DropEmpty(st)) == DropEmpty(st)
  {
  }

  // A part line with its articles, and then the rest of the parts.
  lemma {:induction false} OnePartRead(st: Reading, s: string, ctx: Context)
    requires ReadingOk(st) && st.mode == PartMode && |s| > 0 && DropEmpty(st).nf.Some?
    requires !Dotted(RawLine(s)) && |Fields(RawLine(s))| == 3
    ensures ReadFrom(st, s, ctx) == AfterParts(DropEmpty(st).nf.value, DropEmpty(st).counts, Parts(s, ctx.group), ctx)
    decreases |s|, 0
  {
    hide ReadFrom, RawLine, AfterLine, Fields, PartOf, DropEmpty, Place, Known, KnownCount;
    AfterShorter(s);
    StepOnce(st, s, ctx);
    DropKeepsOk(st);
    var d, p := DropEmpty(st), PartOf(Fields(RawLine(s)));
    var f, c := d.nf.value, d.counts;
    var articles := Articles(AfterLine(s), ctx.group);
    var raw := RawPart(p, articles.articles);
    var k := Place(f.parts, p.partnum);
    var b := Parts(s, ctx.group);
    PartsStart(s, ctx.group);
    assert b.parts[0] == raw;
    if !(k < |f.parts| && f.parts[k].partnum == p.partnum) {
      PartKeepsOk(st, RawLine(s));
      var next := StepPart(st, RawLine(s)).state;
      ArticlesRead(next, AfterLine(s), ctx);
      PartIsEmpty(RawLine(s));
      var after := WithKnown(next, articles.articles, ctx);
      PartComplete(f, c, raw, k, next, ctx);
      assert after.mode == PartMode && ReadingOk(after);
      if articles.rest.Some? {
        PartsRead(after, articles.rest.value, ctx);
        assert b.parts[1..] == Parts(articles.rest.value, ctx.group).parts;
      } else {
        NoPartsLeft(OneMore(f, c, raw, ctx).value.file, OneMore(f, c, raw, ctx).value.counts, ctx);
        assert b.parts[1..] == [];
      }
    }
  }

  lemma PartsStart(s: string, group: string)
    requires |s| > 0 && !Dotted(RawLine(s)) && |Fields(RawLine(s))| == 3
    ensures var p, a := PartOf(Fields(RawLine(s))), Articles(AfterLine(s), group);
      Parts(s, group) == if a.rest.None? then PartBlock([RawPart(p, a.articles)], None)
        else PartBlock([RawPart(p, a.articles)] + Parts(a.rest.value, group).parts, Parts(a.rest.value, group).rest)
  {
    hide RawLine, AfterLine, Fields, PartOf, Articles;
    AfterShorter(s);
  }

  lemma PartIsEmpty(line: string)
    requires |Fields(line)| == 3
    ensures PartOf(Fields(line)).articles == []
  {
  }

  // The part with the articles kept is in its place, or dropped, as when it is added whole.
  lemma PartComplete(f: File, c: Counts, raw: RawPart, k: nat, next: Reading, ctx: Context)
    requires k <= |f.parts| && k == Place(f.parts, raw.part.partnum) && raw.part.articles == []
    requires !(k < |f.parts| && f.parts[k].partnum == raw.part.partnum)
    requires next == Reading(ServerArticleMode,
                             Some(f.(parts := f.parts[..k] + [raw.part] + f.parts[k..],
                                     have := if CountPartnum(raw.part.partnum, f.key.req) then f.have + 1 else f.have)),
                             Some(k), c.(count := c.count + 1))
    ensures var d := DropEmpty(WithKnown(next, raw.articles, ctx));
      d.nf.Some? && OneMore(f, c, raw, ctx) == Some(Assembly(d.nf.value, d.counts))
  {
    hide Known, KnownCount, Place, CountPartnum;
    var g := next.nf.value;
    var known := Known(raw.articles, ctx);
    var p := raw.part.(articles := known);
    assert g.parts[k] == raw.part && [] + known == known;
    var ps := f.parts[..k] + [p] + f.parts[k..];
    assert g.parts[k := p] == ps;
    assert ps[..k] + ps[k + 1..] == f.parts;
    CountIsSize(raw.articles, ctx);
  }

  lemma CountIsSize(articles: seq<Article>, ctx: Context)
    ensures KnownCount(articles, ctx) == |Known(articles, ctx)|
  {
  }

  lemma {:induction false} ReferencesRead(st: Reading, s: string, ctx: Context)
    requires ReadingOk(st) && st.mode == ReferencesMode
    ensures ReadingOk(WithReferences(st, References(s).references)) && ReadingOk(Behind(st, References(s).references))
    ensures ReadFrom(st, s, ctx) == var b := References(s);
      if b.rest.None? then UnexpectedEof else ReadFrom(Behind(st, b.references), b.rest.value, ctx)
    decreases |s|
  {
    hide ReadFrom, RawLine, AfterLine, CStr, NoCr;
    StepOnce(st, s, ctx);
    BehindOk(st, References(s).references);
    if |s| > 0 {
      AfterShorter(s);
      var line := CStr(NoCr(RawLine(s)));
      var f := st.nf.value;
      if line == "." {
        assert f.key.references + [] == f.key.references;
      } else {
        ReferenceKeepsOk(st, RawLine(s));
        var next := StepReference(st, RawLine(s)).state;
        ReferencesRead(next, AfterLine(s), ctx);
        var r := if Dotted(line) then line[1..] else line;
        Assoc(f.key.references, [r], References(AfterLine(s)).references);
      }
    }
  }

  // The reader behind the references of a file.
  function Behind(st: Reading, refs: seq<string>): Reading
    requires st.nf.Some?
  {
    WithReferences(st, refs).(mode := PartMode, np := None)
  }

  lemma BehindOk(st: Reading, refs: seq<string>)
    requires ReadingOk(st) && st.mode == ReferencesMode
    ensures ReadingOk(WithReferences(st, refs)) && ReadingOk(Behind(st, refs))
  {
  }

  // For every text: reading it line by line gives the next file as the blocks have it.
  lemma {:induction false} ReadIsShape(s: string, c: Counts, ctx: Context)
    ensures ReadingOk(Start(c)) && ReadFrom(Start(c), s, ctx) == FileIn(s, c, ctx)
    decreases |s|
  {
    hide ReadFrom, RawLine, AfterLine, Fields, FileOf, References, Parts, Assemble;
    StartOk(c);
    StepOnce(Start(c), s, ctx);
    if |s| > 0 {
      AfterShorter(s);
      var line := RawLine(s);
      if |Fields(line)| == 7 {
        HeadOf(s);
        FileAsShape(s, c, ctx);
        var h := FirstHead(s).value;
        var refs := References(h.rest);
        if refs.rest.Some? {
          var parts := Parts(refs.rest.value, ctx.group);
          var a := Assemble(h.file.(key := h.file.key.(references := refs.references)), c, parts.parts, ctx);
          if a.Some? && parts.rest.Some? && |a.value.file.parts| == 0 {
            ReadIsShape(parts.rest.value, a.value.counts, ctx);
          }
        }
      } else {
        ReadIsShape(AfterLine(s), c, ctx);
        NoHead(s);
      }
    }
  }

  lemma HeadOf(s: string)
    requires |s| > 0 && |Fields(RawLine(s))| == 7
    ensures FirstHead(s) == Some(Head(FileOf(Fields(RawLine(s))), AfterLine(s)))
  {
  }

  lemma NoHead(s: string)
    requires |s| > 0 && |Fields(RawLine(s))| != 7
    ensures FirstHead(s) == FirstHead(AfterLine(s))
  {
    AfterShorter(s);
  }

  // A file from its first line on.
  lemma FileAsShape(s: string, c: Counts, ctx: Context)
    requires |s| > 0 && |Fields(RawLine(s))| == 7 && FirstHead(s) == Some(Head(FileOf(Fields(RawLine(s))), AfterLine(s)))
    ensures ReadingOk(Start(c))
    ensures var h := FirstHead(s).value;
      var refs := References(h.rest);
      ReadFrom(Start(c), s, ctx) == if refs.rest.None? then UnexpectedEof
        else AfterParts(h.file.(key := h.file.key.(references := refs.references)), c, Parts(refs.rest.value, ctx.group), ctx)
  {
    hide ReadFrom, RawLine, AfterLine, Fields, References, Parts, Assemble, FirstHead;
    StartOk(c);
    StepOnce(Start(c), s, ctx);
    NoParts(Fields(RawLine(s)));
    NoReferences(Fields(RawLine(s)));
    hide FileOf;
    var f := FileOf(Fields(RawLine(s)));
    var st := Reading(ReferencesMode, Some(f), None, c);
    ReferencesRead(st, AfterLine(s), ctx);
    var refs := References(AfterLine(s));
    assert [] + refs.references == refs.references;
    if refs.rest.Some? { PartsRead(Behind(st, refs.references), refs.rest.value, ctx); }
  }

  lemma NoReferences(t: seq<string>)
    requires |t| == 7
    ensures FileOf(t).key.references == []
  {
  }

  // ---------- what every text gives ----------

  // The articles kept are those on known servers.
  lemma {:induction false} KnownIs(articles: seq<Article>, ctx: Context)
    ensures forall a :: a in Known(articles, ctx) <==> a in articles && ctx.known(a.serverid)
  {
    if |articles| > 0 {
      KnownIs(articles[1..], ctx);
      assert articles == [articles[0]] + articles[1..];
    }
  }

  ghost predicate OnKnown(ps: seq<Part>, ctx: Context) {
    forall k, a :: 0 <= k < |ps| && a in ps[k].articles ==> ctx.known(a.serverid)
  }

  // All articles on known servers, parts in order and none empty, and the count of parts not too low.
  ghost predicate WellLoaded(f: File, ctx: Context) {
    MetaGroup.Fine(f, false) && OnKnown(f.parts, ctx)
  }

  // How many of the parts dropped count.
  function DroppedCounted(ps: seq<RawPart>, req: int, ctx: Context): nat {
    if |ps| == 0 then 0
    else
      (if |Known(ps[0].articles, ctx)| == 0 && CountPartnum(ps[0].part.partnum, req) then 1 else 0)
      + DroppedCounted(ps[1..], req, ctx)
  }

  // What putting parts together has made of f and c.
  ghost predicate Assembled(f: File, c: Counts, ps: seq<RawPart>, ctx: Context, a: Assembly) {
    && a.file == f.(parts := a.file.parts, have := a.file.have)
    && PartsOk(a.file.parts) && OnKnown(a.file.parts, ctx)
    && multiset(a.file.parts) == multiset(f.parts) + multiset(Kept(ps, ctx))
    && a.file.have - Counted(a.file.parts, f.key.req) == f.have - Counted(f.parts, f.key.req) + DroppedCounted(ps, f.key.req, ctx)
    && a.counts == Counts(c.count + |Kept(ps, ctx)|, c.dead + Ignored(ps, ctx), c.gone + Dropped(ps, ctx))
  }

  lemma OneMoreAssembled(f: File, c: Counts, p: RawPart, ctx: Context)
    requires PartsOk(f.parts) && OnKnown(f.parts, ctx) && OneMore(f, c, p, ctx).Some?
    ensures Assembled(f, c, [p], ctx, OneMore(f, c, p, ctx).value)
  {
    hide Place, CountPartnum, Known, KnownCount, Counted, PartsOk, OnKnown, Kept, Dropped, Ignored, DroppedCounted;
    var a := OneMore(f, c, p, ctx).value;
    var k := Place(f.parts, p.part.partnum);
    var known := Known(p.articles, ctx);
    OnlyOne(p, ctx, f.key.req);
    CountIsSize(p.articles, ctx);
    KnownIs(p.articles, ctx);
    if |known| > 0 {
      OneKept(f.key, f.parts, p.part.(articles := known), ctx);
      assert c.gone + [] == c.gone;
    } else {
      assert multiset(f.parts) + multiset([]) == multiset(f.parts);
    }
  }

  lemma OneKept(key: Key, ps: seq<Part>, q: Part, ctx: Context)
    requires PartsOk(ps) && OnKnown(ps, ctx) && |q.articles| > 0 && forall a :: a in q.articles ==> ctx.known(a.serverid)
    requires var k := Place(ps, q.partnum); k < |ps| ==> ps[k].partnum != q.partnum
    ensures var k := Place(ps, q.partnum);
      var r := ps[..k] + [q] + ps[k..];
      && PartsOk(r) && OnKnown(r, ctx) && multiset(r) == multiset(ps) + multiset([q])
      && Counted(r, key.req) == Counted(ps, key.req) + (if CountPartnum(q.partnum, key.req) then 1 else 0)
  {
    hide Place, CountPartnum, Counted, OnKnown, Sorted;
    PlaceIs(ps, q.partnum);
    AddedPart(key, ps, q, Place(ps, q.partnum), key.req);
    KeptInPlace(ps, q, Place(ps, q.partnum), ctx);
  }

  lemma KeptInPlace(ps: seq<Part>, q: Part, k: nat, ctx: Context)
    requires PartsOk(ps) && OnKnown(ps, ctx) && k <= |ps| && |q.articles| > 0
    requires forall a :: a in q.articles ==> ctx.known(a.serverid)
    requires forall i :: 0 <= i < k ==> ps[i].partnum < q.partnum
    requires forall i :: k <= i < |ps| ==> q.partnum <= ps[i].partnum
    requires k < |ps| ==> ps[k].partnum != q.partnum
    ensures var r := ps[..k] + [q] + ps[k..];
      PartsOk(r) && OnKnown(r, ctx) && multiset(r) == multiset(ps) + multiset([q])
  {
    InsertedSorted(ps, q, k);
    Members(ps, q, k);
    assert ps == ps[..k] + ps[k..];
    var r := ps[..k] + [q] + ps[k..];
    hide Sorted;
    forall i | 0 <= i < |r|
      ensures |r[i].articles| > 0 && forall a :: a in r[i].articles ==> ctx.known(a.serverid)
    {
    }
  }

  lemma Members(ps: seq<Part>, q: Part, k: nat)
    requires k <= |ps|
    ensures var r := ps[..k] + [q] + ps[k..]; forall i :: 0 <= i < |r| ==> r[i] == q || r[i] in ps
  {
  }

  lemma OnlyOne(p: RawPart, ctx: Context, req: int)
    ensures var known := Known(p.articles, ctx);
      && Kept([p], ctx) == (if |known| > 0 then [p.part.(articles := known)] else [])
      && Dropped([p], ctx) == (if |known| > 0 then [] else [p.part.mid])
      && Ignored([p], ctx) == |p.articles| - KnownCount(p.articles, ctx)
      && DroppedCounted([p], req, ctx) == (if |known| == 0 && CountPartnum(p.part.partnum, req) then 1 else 0)
  {
    hide Known, KnownCount, CountPartnum;
    assert [p][1..] == [];
  }

  lemma {:induction false} AssembledIs(f: File, c: Counts, ps: seq<RawPart>, ctx: Context)
    requires PartsOk(f.parts) && OnKnown(f.parts, ctx) && Assemble(f, c, ps, ctx).Some?
    ensures Assembled(f, c, ps, ctx, Assemble(f, c, ps, ctx).value)
    decreases |ps|
  {
    hide OneMore, Counted, PartsOk, OnKnown, Known, KnownCount, CountPartnum;
    if |ps| == 0 {
      assert multiset(f.parts) + multiset([]) == multiset(f.parts) && c.gone + [] == c.gone;
    } else {
      OneMoreAssembled(f, c, ps[0], ctx);
      OnlyOne(ps[0], ctx, f.key.req);
      var a := OneMore(f, c, ps[0], ctx).value;
      AssembledIs(a.file, a.counts, ps[1..], ctx);
      AssembledMore(f, c, ps, a, Assemble(a.file, a.counts, ps[1..], ctx).value, ctx);
    }
  }

  lemma AssembledMore(f: File, c: Counts, ps: seq<RawPart>, a: Assembly, b: Assembly, ctx: Context)
    requires |ps| > 0 && Assembled(f, c, [ps[0]], ctx, a) && Assembled(a.file, a.counts, ps[1..], ctx, b)
    ensures Assembled(f, c, ps, ctx, b)
  {
    hide Counted, PartsOk, OnKnown, Kept, Dropped, Ignored, DroppedCounted;
    var one, rest := [ps[0]], ps[1..];
    assert ps == one + rest;
    RawTogether(one, rest, ctx);
    DroppedTogether(ps, f.key.req, ctx);
    assert multiset(Kept(one, ctx) + Kept(rest, ctx)) == multiset(Kept(one, ctx)) + multiset(Kept(rest, ctx));
    BagsTogether(multiset(f.parts), multiset(Kept(one, ctx)), multiset(Kept(rest, ctx)));
    Assoc(c.gone, Dropped(one, ctx), Dropped(rest, ctx));
  }

  lemma BagsTogether(a: multiset<Part>, b: multiset<Part>, c: multiset<Part>)
    ensures (a + b) + c == a + (b + c)
  {
  }

  lemma DroppedTogether(ps: seq<RawPart>, req: int, ctx: Context)
    requires |ps| > 0
    ensures DroppedCounted(ps, req, ctx) == DroppedCounted([ps[0]], req, ctx) + DroppedCounted(ps[1..], req, ctx)
  {
    hide Known, CountPartnum;
    assert [ps[0]][1..] == [];
  }

  // The parts that stand in the text up to the end of the next file with any left.
  function RawUntil(s: string, ctx: Context): seq<RawPart>
    decreases |s|
  {
    match FirstHead(s)
    case None => []
    case Some(h) =>
      var refs := References(h.rest);
      if refs.rest.None? then []
      else
        var parts := Parts(refs.rest.value, ctx.group);
        parts.parts + (if parts.rest.Some? && |Kept(parts.parts, ctx)| == 0 then RawUntil(parts.rest.value, ctx) else [])
  }

  // Dropping a part does not lower the count of the file: the count is right exactly when no part dropped
  // counts.
  lemma CountRightIff(f: File, c: Counts, ps: seq<RawPart>, ctx: Context)
    requires f.parts == [] && f.have == 0 && Assemble(f, c, ps, ctx).Some?
    ensures var g := Assemble(f, c, ps, ctx).value.file;
      g.have == Counted(g.parts, f.key.req) <==>
        forall k :: 0 <= k < |ps| && CountPartnum(ps[k].part.partnum, f.key.req) ==> |Known(ps[k].articles, ctx)| > 0
  {
    hide Assemble, Kept, Dropped, Ignored, DroppedCounted, Known, CountPartnum;
    EmptyOk(ctx, f.key.req);
    AssembledIs(f, c, ps, ctx);
    NoneDroppedIff(ps, f.key.req, ctx);
  }

  lemma {:induction false} NoneDroppedIff(ps: seq<RawPart>, req: int, ctx: Context)
    ensures DroppedCounted(ps, req, ctx) == 0 <==>
      forall k :: 0 <= k < |ps| && CountPartnum(ps[k].part.partnum, req) ==> |Known(ps[k].articles, ctx)| > 0
  {
    hide Known, CountPartnum;
    if |ps| > 0 {
      var rest := ps[1..];
      NoneDroppedIff(rest, req, ctx);
      assert forall k :: 0 <= k < |rest| ==> rest[k] == ps[k + 1];
    }
  }

  // So a post in two parts, the first on a server no longer known, passes as complete with the second alone.
  lemma CompleteWithoutFirst(f: File, one: Part, two: Part, a: Article, b: Article, ctx: Context)
    requires f.parts == [] && f.have == 0 && f.key.req == 2 && one.partnum == 1 && two.partnum == 2
    requires !ctx.known(a.serverid) && ctx.known(b.serverid)
    ensures var r := Assemble(f, NO_COUNTS, [RawPart(one, [a]), RawPart(two, [b])], ctx);
      r.Some? && var g := r.value.file;
      g.have >= g.key.req && g.parts == [two.(articles := [b])] && 1 !in Numbers(g.parts)
  {
    var ps := [RawPart(one, [a]), RawPart(two, [b])];
    assert [a][1..] == [] && Known([a], ctx) == [];
    assert [b][1..] == [] && Known([b], ctx) == [b];
    var x := OneMore(f, NO_COUNTS, ps[0], ctx).value;
    assert x.file == f.(have := 1);
    var y := OneMore(x.file, x.counts, ps[1], ctx).value;
    assert y.file.parts == [two.(articles := [b])] && y.file.have == 2;
    assert ps[1..] == [ps[1]] && ps[1..][1..] == [];
    assert Assemble(f, NO_COUNTS, ps, ctx) == Assemble(x.file, x.counts, ps[1..], ctx) == Assemble(y.file, y.counts, [], ctx);
  }

  // What a file read says: it is well loaded, it has exactly the parts with articles on known servers,
  // with just these, and the counts have gone up by the parts kept, the articles ignored and the messages of
  // exactly the parts dropped.
  ghost predicate ReadWell(s: string, c: Counts, ctx: Context, f: File, counts: Counts) {
    var ps := RawUntil(s, ctx);
    && WellLoaded(f, ctx)
    && multiset(f.parts) == multiset(Kept(ps, ctx))
    && counts == Counts(c.count + |f.parts|, c.dead + Ignored(ps, ctx), c.gone + Dropped(ps, ctx))
  }

  // For every text.
  lemma {:induction false} GotIsWell(s: string, c: Counts, ctx: Context)
    requires FileIn(s, c, ctx).Got?
    ensures ReadWell(s, c, ctx, FileIn(s, c, ctx).file, FileIn(s, c, ctx).counts)
    decreases |s|
  {
    hide FirstHead, References, Parts, Assemble, Counted, PartsOk, OnKnown, Kept, Dropped, Ignored, DroppedCounted;
    var h := FirstHead(s).value;
    var refs := References(h.rest);
    var parts := Parts(refs.rest.value, ctx.group);
    var f := h.file.(key := h.file.key.(references := refs.references));
    EmptyHead(s);
    EmptyOk(ctx, f.key.req);
    AssembledIs(f, c, parts.parts, ctx);
    var a := Assemble(f, c, parts.parts, ctx).value;
    SameSize(a.file.parts, Kept(parts.parts, ctx));
    if |a.file.parts| == 0 {
      GotIsWell(parts.rest.value, a.counts, ctx);
      var more := RawUntil(parts.rest.value, ctx);
      assert RawUntil(s, ctx) == parts.parts + more;
      RawTogether(parts.parts, more, ctx);
      assert [] + Kept(more, ctx) == Kept(more, ctx);
      Assoc(c.gone, Dropped(parts.parts, ctx), Dropped(more, ctx));
    } else {
      assert parts.parts + [] == parts.parts;
    }
  }

  lemma EmptyHead(s: string)
    requires FirstHead(s).Some?
    ensures FirstHead(s).value.file.parts == [] && FirstHead(s).value.file.have == 0
    decreases |s|
  {
    hide Fields, RawLine, AfterLine;
    AfterShorter(s);
    if |Fields(RawLine(s))| == 7 { NothingYet(Fields(RawLine(s))); } else { EmptyHead(AfterLine(s)); }
  }

  lemma NothingYet(t: seq<string>)
    requires |t| == 7
    ensures FileOf(t).parts == [] && FileOf(t).have == 0
  {
  }

  lemma EmptyOk(ctx: Context, req: int)
    ensures PartsOk([]) && OnKnown([], ctx) && Counted([], req) == 0
  {
  }

  lemma SameSize(a: seq<Part>, b: seq<Part>)
    ensures multiset([]) + multiset(b) == multiset(b)
    ensures multiset(a) == multiset(b) ==> |a| == |b| && (|b| == 0 ==> b == [])
  {
    assert |multiset(a)| == |a| && |multiset(b)| == |b|;
  }

  lemma {:induction false} RawTogether(a: seq<RawPart>, b: seq<RawPart>, ctx: Context)
    ensures Kept(a + b, ctx) == Kept(a, ctx) + Kept(b, ctx)
    ensures Dropped(a + b, ctx) == Dropped(a, ctx) + Dropped(b, ctx)
    ensures Ignored(a + b, ctx) == Ignored(a, ctx) + Ignored(b, ctx)
  {
    hide Known, KnownCount;
    if |a| == 0 {
      assert a + b == b;
    } else {
      assert (a + b)[1..] == a[1..] + b && (a + b)[0] == a[0];
      RawTogether(a[1..], b, ctx);
    }
  }

  // ---------- whole caches ----------

  // A cache loaded: files in order and well loaded, servers known, and the parts counted when it was read
  // to its end.
  ghost predicate LoadedWell(l: Loaded, ctx: Context) {
    && FilesSorted(l.files) && (forall k :: 0 <= k < |l.files| ==> WellLoaded(l.files[k], ctx))
    && (forall sid :: sid in l.servers ==> ctx.known(sid))
    && (l.fileread ==> l.totalnum == TotalParts(l.files))
  }

  lemma {:induction false} FilesWell(fs: seq<File>, c: Counts, s: string, ctx: Context)
    requires FilesSorted(fs) && forall k :: 0 <= k < |fs| ==> WellLoaded(fs[k], ctx)
    ensures var r := ReadFiles(fs, c, s, ctx);
      && FilesSorted(r.files) && (forall k :: 0 <= k < |r.files| ==> WellLoaded(r.files[k], ctx))
      && (r.complete && c.count == TotalParts(fs) ==> r.counts.count == TotalParts(r.files))
    decreases |s|
  {
    hide ReadFrom, FileIn, WellLoaded, FilesSorted, TotalParts, InsertedFile, RawUntil;
    ReadShorter(Start(c), s, ctx);
    ReadIsShape(s, c, ctx);
    match ReadFrom(Start(c), s, ctx)
    case Got(f, counts, rest) =>
      GotIsWell(s, c, ctx);
      FileInserted(fs, f, ctx);
      FilesWell(InsertedFile(fs, f), counts, rest, ctx);
    case AtEnd(counts) => EndCounts(s, c, ctx);
    case _ =>
  }

  // At the end of the text no part has been kept since the last file.
  lemma {:induction false} EndCounts(s: string, c: Counts, ctx: Context)
    requires FileIn(s, c, ctx).AtEnd?
    ensures FileIn(s, c, ctx).counts.count == c.count
    decreases |s|
  {
    hide FirstHead, References, Parts, Assemble, Counted, PartsOk, OnKnown, Kept, Dropped, Ignored, DroppedCounted;
    if FirstHead(s).Some? {
      var h := FirstHead(s).value;
      var refs := References(h.rest);
      var parts := Parts(refs.rest.value, ctx.group);
      var f := h.file.(key := h.file.key.(references := refs.references));
      EmptyHead(s);
      EmptyOk(ctx, f.key.req);
      AssembledIs(f, c, parts.parts, ctx);
      var a := Assemble(f, c, parts.parts, ctx).value;
      SameSize(a.file.parts, Kept(parts.parts, ctx));
      EndCounts(parts.rest.value, a.counts, ctx);
    }
  }

  lemma {:induction false} UpperIs(fs: seq<File>, key: Key)
    requires FilesSorted(fs)
    ensures var k := Upper(fs, key);
      && (forall i :: 0 <= i < k ==> NotAfter(fs[i].key, key))
      && (forall i :: k <= i < |fs| ==> NotAfter(key, fs[i].key))
  {
    hide Less;
    if |fs| > 0 {
      var rest := fs[1..];
      assert forall i :: 0 <= i < |rest| ==> rest[i] == fs[i + 1];
      if Less(key, fs[0].key) {
        LessTotal(key, fs[0].key);
        forall i | 0 <= i < |fs|
          ensures NotAfter(key, fs[i].key)
        {
          if i > 0 { NotAfterTransitive(key, fs[0].key, fs[i].key); }
        }
      } else {
        UpperIs(rest, key);
        assert forall i :: 0 < i < |fs| ==> fs[i] == rest[i - 1];
      }
    }
  }

  lemma FileInserted(fs: seq<File>, f: File, ctx: Context)
    requires FilesSorted(fs) && WellLoaded(f, ctx) && forall k :: 0 <= k < |fs| ==> WellLoaded(fs[k], ctx)
    ensures var r := InsertedFile(fs, f);
      && FilesSorted(r) && (forall k :: 0 <= k < |r| ==> WellLoaded(r[k], ctx))
      && TotalParts(r) == TotalParts(fs) + |f.parts|
  {
    hide Less, WellLoaded, TotalParts, NotAfter, Upper;
    var k := Upper(fs, f.key);
    UpperIs(fs, f.key);
    InsertFile(fs, k, f);
    var r := InsertedFile(fs, f);
    forall i | 0 <= i < |r|
      ensures i < k ==> r[i] == fs[i]
      ensures i == k ==> r[i] == f
      ensures i > k ==> r[i] == fs[i - 1]
    {
    }
  }

  lemma {:induction false} ServersKnown(m: Servers, s: string, ctx: Context)
    requires forall sid :: sid in m ==> ctx.known(sid)
    ensures forall sid :: sid in ReadServers(m, s, ctx).servers ==> ctx.known(sid)
    decreases |s|
  {
    hide RawLine, AfterLine, Fields, CStr, Atoul;
    if |s| > 0 {
      AfterShorter(s);
      ServersKnown(ServerStep(m, RawLine(s), ctx), AfterLine(s), ctx);
    }
  }

  // An entry read for a server stays, whatever later lines say of it.
  lemma {:induction false} FirstEntryStays(m: Servers, s: string, ctx: Context)
    ensures var r := ReadServers(m, s, ctx).servers; forall sid :: sid in m ==> sid in r && r[sid] == m[sid]
    decreases |s|
  {
    hide RawLine, AfterLine, Fields, CStr, Atoul;
    if |s| > 0 {
      AfterShorter(s);
      FirstEntryStays(ServerStep(m, RawLine(s), ctx), AfterLine(s), ctx);
    }
  }

  // Only a text of this version's first line is read to the end; the order to be saved again for is any but
  // this one.
  lemma HeadDecides(s: string, ctx: Context)
    ensures var l, t := Load(s, ctx), Fields(RawLine(s));
      && (l.fileread ==> |s| > 0 && |t| == 2 && CStr(t[0]) == "NGET5" && (l.saveit <==> SortVersion(CStr(t[1])) != 1))
      && (!l.fileread ==> !l.saveit && l.totalnum == 0)
      && (|s| == 0 || |t| != 2 || CStr(t[0]) != "NGET5" ==> l.servers == map[] && l.files == [])
  {
    hide RawLine, AfterLine, Fields, CStr, ReadServers, ReadFiles, SortVersion;
  }

  // Whatever text is loaded.
  lemma LoadIsWell(s: string, ctx: Context)
    ensures LoadedWell(Load(s, ctx), ctx)
  {
    hide RawLine, AfterLine, Fields, CStr, ReadServers, ReadFiles, WellLoaded, SortVersion;
    if |s| > 0 {
      ServersKnown(map[], AfterLine(s), ctx);
      var head := ReadServers(map[], AfterLine(s), ctx);
      if head.rest.Some? { FilesWell([], NO_COUNTS, head.rest.value, ctx); }
    }
  }
}
