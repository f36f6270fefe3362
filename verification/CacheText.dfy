// The text a header cache is saved as, and what reading such text gives.
module CacheText {
  import opened Common
  import opened FileOrder
  import opened CacheFiles
  import opened Lines
  import opened Cache

  const CACHE_VERSION: string := "NGET5"
  const CACHE_SORTVER: int := 1

  // ---------- writing ----------

  function Concat(ss: seq<string>): string {
    if |ss| == 0 then "" else ss[0] + Concat(ss[1..])
  }

  lemma {:induction false} ConcatMore(ss: seq<string>, s: string)
    ensures Concat(ss + [s]) == Concat(ss) + s
  {
    if |ss| == 0 {
      assert ss + [s] == [s] && [s][1..] == [];
      assert "" + s == s && s + "" == s;
    } else {
      assert (ss + [s])[1..] == ss[1..] + [s];
      ConcatMore(ss[1..], s);
      Assoc(ss[0], Concat(ss[1..]), s);
    }
  }

  // A time as printed with %lu.
  function ULong(n: int): nat { n % (ULONG_MAX + 1) }

  function Line(fields: seq<string>): string {
    Join(fields, '\t') + "\n"
  }

  function ArticleFields(a: Article): seq<string> {
    [Unsigned(a.serverid), Unsigned(a.articlenum), Unsigned(a.bytes), Unsigned(a.lines)]
  }

  function ArticleLines(arts: seq<Article>): seq<string> {
    seq(|arts|, i requires 0 <= i < |arts| => Line(ArticleFields(arts[i])))
  }

  function PartFields(p: Part): seq<string> {
    [Signed(p.partnum), Unsigned(ULong(p.date)), p.mid]
  }

  function PartText(p: Part): string {
    Line(PartFields(p)) + Concat(ArticleLines(p.articles)) + ".\n"
  }

  function PartTexts(ps: seq<Part>): seq<string> {
    seq(|ps|, i requires 0 <= i < |ps| => PartText(ps[i]))
  }

  // A reference that starts with a dot gets one more.
  function Escaped(r: string): string {
    if |r| > 0 && r[0] == '.' then "." + r else r
  }

  function RefLines(refs: seq<string>): seq<string> {
    seq(|refs|, i requires 0 <= i < |refs| => Escaped(refs[i]) + "\n")
  }

  function FileFields(f: File): seq<string> {
    [Signed(f.key.req), Unsigned(f.flags), f.key.subject, f.key.author, Signed(f.key.partoff), Signed(f.tailoff),
     Unsigned(ULong(f.update))]
  }

  function FileText(f: File): string {
    Line(FileFields(f)) + Concat(RefLines(f.key.references)) + ".\n" + Concat(PartTexts(f.parts)) + ".\n"
  }

  function FileTexts(fs: seq<File>): seq<string> {
    seq(|fs|, i requires 0 <= i < |fs| => FileText(fs[i]))
  }

  // The lines of the format: a file, a part, an article, a server, and the first line.
  lemma LinesAre(f: File, p: Part, a: Article, e: ServerEntry, totalnum: nat)
    ensures Line(FileFields(f)) == Signed(f.key.req) + "\t" + Unsigned(f.flags) + "\t" + f.key.subject + "\t" + f.key.author + "\t"
      + Signed(f.key.partoff) + "\t" + Signed(f.tailoff) + "\t" + Unsigned(ULong(f.update)) + "\n"
    ensures Line(PartFields(p)) == Signed(p.partnum) + "\t" + Unsigned(ULong(p.date)) + "\t" + p.mid + "\n"
    ensures Line(ArticleFields(a)) == Unsigned(a.serverid) + "\t" + Unsigned(a.articlenum) + "\t" + Unsigned(a.bytes) + "\t"
      + Unsigned(a.lines) + "\n"
    ensures Line(ServerFields(e)) == Unsigned(e.serverid) + "\t" + Unsigned(e.info.high) + "\t" + Unsigned(e.info.low) + "\t"
      + Unsigned(ULong(e.info.num)) + "\n"
    ensures Line(HeadFields(totalnum)) == "NGET5\t" + Unsigned(totalnum) + " 1\n"
  {
    hide Signed, Unsigned, ULong;
    SevenJoined(FileFields(f));
    ThreeJoined(PartFields(p));
    FourJoined(ArticleFields(a));
    FourJoined(ServerFields(e));
    TwoJoined(HeadFields(totalnum));
    assert Signed(1) == "1" by { OneSigned(); }
  }

  lemma OneSigned()
    ensures Signed(1) == "1"
  {
  }

  lemma TwoJoined(t: seq<string>)
    requires |t| == 2
    ensures Join(t, '\t') == t[0] + "\t" + t[1]
  {
    assert t[..1] == [t[0]];
  }

  lemma ThreeJoined(t: seq<string>)
    requires |t| == 3
    ensures Join(t, '\t') == t[0] + "\t" + t[1] + "\t" + t[2]
  {
    TwoJoined(t[..2]);
  }

  lemma FourJoined(t: seq<string>)
    requires |t| == 4
    ensures Join(t, '\t') == t[0] + "\t" + t[1] + "\t" + t[2] + "\t" + t[3]
  {
    ThreeJoined(t[..3]);
  }

  lemma SevenJoined(t: seq<string>)
    requires |t| == 7
    ensures Join(t, '\t') == t[0] + "\t" + t[1] + "\t" + t[2] + "\t" + t[3] + "\t" + t[4] + "\t" + t[5] + "\t" + t[6]
  {
    FourJoined(t[..4]);
    assert t[..6][..5] == t[..5] && t[..5][..4] == t[..4];
    assert Join(t[..5], '\t') == Join(t[..4], '\t') + "\t" + t[4];
    assert Join(t[..6], '\t') == Join(t[..5], '\t') + "\t" + t[5];
  }

  // ---------- reading one file: the reader's modes ----------

  datatype Mode = FileMode | ReferencesMode | PartMode | ServerArticleMode

  // How many parts have been read, how many articles were ignored for their servers, and the messages
  // of parts left without articles.
  datatype Counts = Counts(count: int, dead: nat, gone: seq<string>)

  // nf is the file being read, np the part being read.
  datatype Reading = Reading(mode: Mode, nf: Option<File>, np: Option<nat>, counts: Counts)

  datatype Next = More(state: Reading) | Done(file: File, counts: Counts) | Abort

  // What is known about servers, and the group the cache is for.
  datatype Context = Context(known: nat -> bool, group: string)

  ghost predicate ReadingOk(st: Reading) {
    && (st.mode != FileMode <==> st.nf.Some?)
    && (st.nf.Some? ==> Sorted(st.nf.value.parts))
    && (st.np.Some? ==> st.nf.Some? && st.np.value < |st.nf.value.parts|)
    && (st.mode == ServerArticleMode ==> st.np.Some?)
  }

  predicate Dotted(raw: string) {
    |raw| > 0 && raw[0] == '.'
  }

  function Fields(raw: string): (r: seq<string>)
    ensures |r| > 0
  {
    Split(NoCr(raw), '\t')
  }

  function FileOf(t: seq<string>): File
    requires |t| == 7
  {
    File(Key(Atoi(CStr(t[0])), Atoi(CStr(t[4])), CStr(t[3]), CStr(t[2]), []), [], 0, Atoul(CStr(t[1])), Atoi(CStr(t[5])),
         Atoul(CStr(t[6])))
  }

  function PartOf(t: seq<string>): Part
    requires |t| == 3
  {
    Part(Atoi(CStr(t[0])), [], Atoul(CStr(t[1])), CStr(t[2]))
  }

  function ArticleOf(t: seq<string>, group: string): Article
    requires |t| == 4
  {
    Article(Atoul(CStr(t[0])), group, Atoul(CStr(t[1])), Atoul(CStr(t[2])), Atoul(CStr(t[3])))
  }

  // A part with no articles is dropped again when the next line after it is read.
  function DropEmpty(st: Reading): Reading {
    if st.nf.Some? && st.np.Some? && st.np.value < |st.nf.value.parts| && |st.nf.value.parts[st.np.value].articles| == 0 then
      var f, k := st.nf.value, st.np.value;
      Reading(st.mode, Some(f.(parts := f.parts[..k] + f.parts[k + 1..])), None,
              Counts(st.counts.count - 1, st.counts.dead, st.counts.gone + [f.parts[k].mid]))
    else st
  }

  // The number of parts before a part number.
  function Place(ps: seq<Part>, partnum: int): (k: nat)
    ensures k <= |ps|
  {
    if |ps| == 0 || partnum <= ps[0].partnum then 0 else 1 + Place(ps[1..], partnum)
  }

  function StepArticle(st: Reading, raw: string, ctx: Context): Next
    requires st.nf.Some? && st.np.Some? && st.np.value < |st.nf.value.parts|
  {
    if Dotted(raw) then More(st.(mode := PartMode))
    else if |Fields(raw)| == 4 then
      var a := ArticleOf(Fields(raw), ctx.group);
      var f, k := st.nf.value, st.np.value;
      if ctx.known(a.serverid) then
        More(st.(nf := Some(f.(parts := f.parts[k := f.parts[k].(articles := f.parts[k].articles + [a])]))))
      else More(st.(counts := st.counts.(dead := st.counts.dead + 1)))
    else More(st)
  }

  function StepPart(st0: Reading, raw: string): Next
    requires st0.nf.Some?
  {
    var st := DropEmpty(st0);
    var f := st.nf.value;
    if Dotted(raw) then
      if |f.parts| == 0 then More(Reading(FileMode, None, None, st.counts)) else Done(f, st.counts)
    else if |Fields(raw)| == 3 then
      var p := PartOf(Fields(raw));
      var k := Place(f.parts, p.partnum);
      if k < |f.parts| && f.parts[k].partnum == p.partnum then Abort
      else
        var have := if CountPartnum(p.partnum, f.key.req) then f.have + 1 else f.have;
        More(Reading(ServerArticleMode, Some(f.(parts := f.parts[..k] + [p] + f.parts[k..], have := have)), Some(k),
                     st.counts.(count := st.counts.count + 1)))
    else More(st)
  }

  function StepFile(st: Reading, raw: string): Next {
    if |Fields(raw)| == 7 then More(Reading(ReferencesMode, Some(FileOf(Fields(raw))), st.np, st.counts)) else More(st)
  }

  function StepReference(st: Reading, raw: string): Next
    requires st.nf.Some?
  {
    var buf := CStr(NoCr(raw));
    var f := st.nf.value;
    if buf == "." then More(st.(mode := PartMode, np := None))
    else
      var r := if |buf| > 0 && buf[0] == '.' then buf[1..] else buf;
      More(st.(nf := Some(f.(key := f.key.(references := f.key.references + [r])))))
  }

  function Step(st: Reading, raw: string, ctx: Context): Next
    requires ReadingOk(st)
  {
    match st.mode
    case ServerArticleMode => StepArticle(st, raw, ctx)
    case PartMode => StepPart(st, raw)
    case FileMode => StepFile(st, raw)
    case ReferencesMode => StepReference(st, raw)
  }

  datatype Outcome = Got(file: File, counts: Counts, rest: string) | AtEnd(counts: Counts) | UnexpectedEof | Aborted

  lemma {:induction false} PlaceIs(ps: seq<Part>, partnum: int)
    requires Sorted(ps)
    ensures var k := Place(ps, partnum);
      && (forall i :: 0 <= i < k ==> ps[i].partnum < partnum)
      && (forall i :: k <= i < |ps| ==> partnum <= ps[i].partnum)
  {
    if |ps| > 0 && ps[0].partnum < partnum {
      PlaceIs(ps[1..], partnum);
      var rest := ps[1..];
      assert forall i :: 0 < i < |ps| ==> ps[i] == rest[i - 1];
    }
  }

  lemma StepKeepsOk(st: Reading, raw: string, ctx: Context)
    requires ReadingOk(st) && Step(st, raw, ctx).More?
    ensures ReadingOk(Step(st, raw, ctx).state)
  {
    hide ReadingOk, StepArticle, StepPart, StepFile, StepReference;
    match st.mode
    case ServerArticleMode => ArticleKeepsOk(st, raw, ctx);
    case PartMode => PartKeepsOk(st, raw);
    case FileMode => FileKeepsOk(st, raw);
    case ReferencesMode => ReferenceKeepsOk(st, raw);
  }

  lemma ArticleKeepsOk(st: Reading, raw: string, ctx: Context)
    requires ReadingOk(st) && st.mode == ServerArticleMode
    ensures StepArticle(st, raw, ctx).More? && ReadingOk(StepArticle(st, raw, ctx).state)
  {
    hide Fields, ArticleOf;
  }

  lemma DropKeepsOk(st: Reading)
    requires ReadingOk(st) && st.mode == PartMode
    ensures ReadingOk(DropEmpty(st)) && DropEmpty(st).mode == PartMode && DropEmpty(st).nf.Some?
  {
  }

  lemma PartKeepsOk(st: Reading, raw: string)
    requires ReadingOk(st) && st.mode == PartMode && StepPart(st, raw).More?
    ensures ReadingOk(StepPart(st, raw).state)
  {
    hide DropEmpty, Fields, PartOf, Place;
    DropKeepsOk(st);
    if !Dotted(raw) && |Fields(raw)| == 3 {
      var ps, p := DropEmpty(st).nf.value.parts, PartOf(Fields(raw));
      PlaceIs(ps, p.partnum);
      InsertedSorted(ps, p, Place(ps, p.partnum));
    }
  }

  lemma InsertedSorted(ps: seq<Part>, p: Part, k: nat)
    requires Sorted(ps) && k <= |ps| && (k < |ps| ==> ps[k].partnum != p.partnum)
    requires forall i :: 0 <= i < k ==> ps[i].partnum < p.partnum
    requires forall i :: k <= i < |ps| ==> p.partnum <= ps[i].partnum
    ensures Sorted(ps[..k] + [p] + ps[k..])
  {
    assert forall i :: k <= i < |ps| ==> p.partnum < ps[i].partnum;
  }

  lemma FileKeepsOk(st: Reading, raw: string)
    requires ReadingOk(st) && st.mode == FileMode && StepFile(st, raw).More?
    ensures ReadingOk(StepFile(st, raw).state)
  {
    hide Fields;
    if |Fields(raw)| == 7 { NoParts(Fields(raw)); }
    hide FileOf;
  }

  lemma ReferenceKeepsOk(st: Reading, raw: string)
    requires ReadingOk(st) && st.mode == ReferencesMode && StepReference(st, raw).More?
    ensures ReadingOk(StepReference(st, raw).state)
  {
    hide CStr, NoCr;
  }

  lemma NoParts(t: seq<string>)
    requires |t| == 7
    ensures FileOf(t).parts == []
  {
  }

  // Read lines until a file is complete or the text ends.
  ghost function ReadFrom(st: Reading, s: string, ctx: Context): Outcome
    requires ReadingOk(st)
    decreases |s|
  {
    if |s| == 0 then
      if st.nf.Some? then UnexpectedEof else AtEnd(st.counts)
    else
      AfterShorter(s);
      match Step(st, RawLine(s), ctx)
      case More(next) => StepKeepsOk(st, RawLine(s), ctx); ReadFrom(next, AfterLine(s), ctx)
      case Done(f, counts) => Got(f, counts, AfterLine(s))
      case Abort => Aborted
  }

  // ---------- what is written is read ----------

  ghost predicate WritableArticle(a: Article, ctx: Context) {
    && a.group == ctx.group && ctx.known(a.serverid)
    && a.serverid <= ULONG_MAX && a.articlenum <= ULONG_MAX && a.bytes <= ULONG_MAX && a.lines <= ULONG_MAX
  }

  ghost predicate WritablePart(p: Part, ctx: Context) {
    && 0 <= p.date <= ULONG_MAX && Plain(p.mid) && |p.articles| > 0
    && forall k :: 0 <= k < |p.articles| ==> WritableArticle(p.articles[k], ctx)
  }

  ghost predicate WritableFile(f: File, ctx: Context) {
    && FileOk(f) && f.flags <= ULONG_MAX && 0 <= f.update <= ULONG_MAX
    && Plain(f.key.subject) && Plain(f.key.author)
    && (forall k :: 0 <= k < |f.key.references| ==> Plain(f.key.references[k]))
    && forall k :: 0 <= k < |f.parts| ==> WritablePart(f.parts[k], ctx)
  }

  ghost predicate AllPlain(fs: seq<string>) {
    forall k :: 0 <= k < |fs| ==> Plain(fs[k])
  }

  lemma {:induction false} JoinedWithout(fs: seq<string>, c: char)
    requires c != '\t' && forall k :: 0 <= k < |fs| ==> c !in fs[k]
    ensures c !in Join(fs, '\t')
  {
    if |fs| > 1 { JoinedWithout(fs[..|fs| - 1], c); }
  }

  lemma {:induction false} JoinStarts(fs: seq<string>)
    requires |fs| > 0 && |fs[0]| > 0
    ensures |Join(fs, '\t')| > 0 && Join(fs, '\t')[0] == fs[0][0]
  {
    if |fs| > 1 { JoinStarts(fs[..|fs| - 1]); }
  }

  // The fields of a line are those it was made of.
  lemma FieldsOfLine(fs: seq<string>)
    requires |fs| > 0 && AllPlain(fs)
    ensures '\n' !in Join(fs, '\t') && Fields(Join(fs, '\t')) == fs
    ensures forall k :: 0 <= k < |fs| ==> CStr(fs[k]) == fs[k]
  {
    hide CStr, Join, Split, NoCr;
    JoinedWithout(fs, '\n');
    JoinedWithout(fs, '\r');
    NoCrNone(Join(fs, '\t'));
    SplitJoin(fs, '\t');
    forall k | 0 <= k < |fs|
      ensures CStr(fs[k]) == fs[k]
    {
      CStrAll(fs[k]);
    }
  }

  ghost function Continue(n: Next, rest: string, ctx: Context): Outcome
    requires n.More? ==> ReadingOk(n.state)
  {
    match n
    case More(next) => ReadFrom(next, rest, ctx)
    case Done(f, counts) => Got(f, counts, rest)
    case Abort => Aborted
  }

  // Reading one line.
  lemma LineRead(st: Reading, line: string, rest: string, ctx: Context)
    requires ReadingOk(st) && '\n' !in line
    ensures Step(st, line, ctx).More? ==> ReadingOk(Step(st, line, ctx).state)
    ensures ReadFrom(st, line + "\n" + rest, ctx) == Continue(Step(st, line, ctx), rest, ctx)
  {
    hide Step, ReadingOk;
    if Step(st, line, ctx).More? { StepKeepsOk(st, line, ctx); }
    assert line + "\n" + rest == line + ("\n" + rest);
    assert ("\n" + rest)[1..] == rest;
    LineSplit(line, "\n" + rest);
  }

  lemma FieldsLineRead(st: Reading, fs: seq<string>, rest: string, ctx: Context)
    requires ReadingOk(st) && |fs| > 0 && AllPlain(fs)
    ensures '\n' !in Join(fs, '\t')
    ensures Step(st, Join(fs, '\t'), ctx).More? ==> ReadingOk(Step(st, Join(fs, '\t'), ctx).state)
    ensures ReadFrom(st, Line(fs) + rest, ctx) == Continue(Step(st, Join(fs, '\t'), ctx), rest, ctx)
  {
    hide Step, ReadingOk, Join, ReadFrom;
    FieldsOfLine(fs);
    LineRead(st, Join(fs, '\t'), rest, ctx);
  }

  lemma ArticleFieldsRead(a: Article, ctx: Context)
    requires WritableArticle(a, ctx)
    ensures AllPlain(ArticleFields(a)) && !Dotted(Join(ArticleFields(a), '\t'))
    ensures ArticleOf(ArticleFields(a), ctx.group) == a
  {
    hide Join, Atoul, Unsigned, Signed, CStr, Plain;
    var fs := ArticleFields(a);
    var ns := [a.serverid, a.articlenum, a.bytes, a.lines];
    forall k | 0 <= k < 4
      ensures Plain(fs[k]) && |fs[k]| > 0 && fs[k][0] != '.' && CStr(fs[k]) == fs[k] && Atoul(fs[k]) == ns[k]
    {
      NumberRead(ns[k]);
    }
    JoinStarts(fs);
  }

  lemma NumberRead(n: nat)
    requires n <= ULONG_MAX
    ensures Plain(Unsigned(n)) && |Unsigned(n)| > 0 && Unsigned(n)[0] != '.'
    ensures CStr(Unsigned(n)) == Unsigned(n) && Atoul(Unsigned(n)) == n
  {
    NumbersPlain(n);
    CStrAll(Unsigned(n));
    AtoulUnsigned(n, "");
    assert Unsigned(n) + "" == Unsigned(n);
  }

  lemma SignedRead(n: int)
    ensures Plain(Signed(n)) && |Signed(n)| > 0 && Signed(n)[0] != '.'
    ensures CStr(Signed(n)) == Signed(n) && Atoi(Signed(n)) == n
  {
    NumbersPlain(n);
    CStrAll(Signed(n));
    AtoiSigned(n);
  }

  // More articles for part k of the file being read.
  function WithArticles(st: Reading, arts: seq<Article>): Reading
    requires st.nf.Some? && st.np.Some? && st.np.value < |st.nf.value.parts|
  {
    var f, k := st.nf.value, st.np.value;
    st.(nf := Some(f.(parts := f.parts[k := f.parts[k].(articles := f.parts[k].articles + arts)])))
  }

  lemma WithArticlesOk(st: Reading, arts: seq<Article>)
    requires ReadingOk(st) && st.mode == ServerArticleMode
    ensures st.nf.Some? && st.np.Some? && st.np.value < |st.nf.value.parts|
    ensures ReadingOk(WithArticles(st, arts)) && ReadingOk(WithArticles(st, arts).(mode := PartMode))
  {
  }

  lemma ArticleRead(st: Reading, a: Article, rest: string, ctx: Context)
    requires ReadingOk(st) && st.mode == ServerArticleMode && WritableArticle(a, ctx)
    ensures ReadingOk(WithArticles(st, [a]))
    ensures ReadFrom(st, Line(ArticleFields(a)) + rest, ctx) == ReadFrom(WithArticles(st, [a]), rest, ctx)
  {
    hide Join, ReadFrom, Line, ArticleOf, Fields;
    WithArticlesOk(st, [a]);
    ArticleFieldsRead(a, ctx);
    FieldsOfLine(ArticleFields(a));
    FieldsLineRead(st, ArticleFields(a), rest, ctx);
    assert |ArticleFields(a)| == 4;
    hide ReadingOk;
  }

  lemma DotRead(st: Reading, rest: string, ctx: Context)
    requires ReadingOk(st) && st.mode == ServerArticleMode
    ensures ReadingOk(st.(mode := PartMode))
    ensures ReadFrom(st, ".\n" + rest, ctx) == ReadFrom(st.(mode := PartMode), rest, ctx)
  {
    assert "." + "\n" + rest == ".\n" + rest;
    LineRead(st, ".", rest, ctx);
  }

  lemma WithArticlesTwice(st: Reading, a: seq<Article>, b: seq<Article>)
    requires ReadingOk(st) && st.mode == ServerArticleMode
    ensures ReadingOk(WithArticles(st, a)) && WithArticles(WithArticles(st, a), b) == WithArticles(st, a + b)
  {
    WithArticlesOk(st, a);
    var f, k := st.nf.value, st.np.value;
    Assoc(f.parts[k].articles, a, b);
    var p := f.parts[k].(articles := f.parts[k].articles + (a + b));
    assert f.parts[k := f.parts[k].(articles := f.parts[k].articles + a)][k := p] == f.parts[k := p];
  }

  // The articles of a part, up to their dot.
  lemma {:induction false} ArticlesRead(st: Reading, arts: seq<Article>, rest: string, ctx: Context)
    requires ReadingOk(st) && st.mode == ServerArticleMode && forall k :: 0 <= k < |arts| ==> WritableArticle(arts[k], ctx)
    ensures ReadingOk(WithArticles(st, arts).(mode := PartMode))
    ensures ReadFrom(st, Concat(ArticleLines(arts)) + (".\n" + rest), ctx)
         == ReadFrom(WithArticles(st, arts).(mode := PartMode), rest, ctx)
    decreases |arts|
  {
    hide ReadFrom, ReadingOk, WritableArticle, Line, ArticleFields;
    WithArticlesOk(st, arts);
    var end := ".\n" + rest;
    if |arts| == 0 {
      assert ArticleLines(arts) == [];
      assert "" + end == end;
      DotRead(st, rest, ctx);
      NoArticles(st);
    } else {
      var lines := ArticleLines(arts);
      assert lines[1..] == ArticleLines(arts[1..]);
      Assoc(lines[0], Concat(lines[1..]), end);
      ArticleRead(st, arts[0], Concat(lines[1..]) + end, ctx);
      WithArticlesTwice(st, [arts[0]], arts[1..]);
      assert [arts[0]] + arts[1..] == arts;
      ArticlesRead(WithArticles(st, [arts[0]]), arts[1..], rest, ctx);
    }
  }

  lemma NoArticles(st: Reading)
    requires ReadingOk(st) && st.mode == ServerArticleMode
    ensures WithArticles(st, []) == st
  {
    var f, k := st.nf.value, st.np.value;
    assert f.parts[k].articles + [] == f.parts[k].articles;
    assert f.parts[k := f.parts[k]] == f.parts;
  }

  // ---------- parts ----------

  // Between parts, with nothing to drop.
  ghost predicate AtParts(st: Reading) {
    ReadingOk(st) && st.mode == PartMode && DropEmpty(st) == st
  }

  // The file being read with one part more at the end.
  function WithPart(st: Reading, p: Part): Reading
    requires st.nf.Some?
  {
    var f := st.nf.value;
    var have := if CountPartnum(p.partnum, f.key.req) then f.have + 1 else f.have;
    Reading(PartMode, Some(f.(parts := f.parts + [p], have := have)), Some(|f.parts|), st.counts.(count := st.counts.count + 1))
  }

  ghost predicate Beyond(ps: seq<Part>, partnum: int) {
    forall i :: 0 <= i < |ps| ==> ps[i].partnum < partnum
  }

  lemma WithPartOk(st: Reading, p: Part)
    requires AtParts(st) && Beyond(st.nf.value.parts, p.partnum) && |p.articles| > 0
    ensures AtParts(WithPart(st, p))
  {
  }

  lemma PartFieldsRead(p: Part)
    requires 0 <= p.date <= ULONG_MAX && Plain(p.mid)
    ensures AllPlain(PartFields(p)) && !Dotted(Join(PartFields(p), '\t'))
    ensures PartOf(PartFields(p)) == p.(articles := [])
  {
    hide Join, Atoul, Atoi, Unsigned, Signed, CStr, Plain;
    SignedRead(p.partnum);
    assert ULong(p.date) == p.date;
    NumberRead(ULong(p.date));
    CStrPlain(p.mid);
    JoinStarts(PartFields(p));
  }

  lemma CStrPlain(s: string)
    requires Plain(s)
    ensures CStr(s) == s
  {
    CStrAll(s);
  }

  // The state after the line of a part.
  lemma PartLineStep(st: Reading, p: Part, line: string)
    requires AtParts(st) && Beyond(st.nf.value.parts, p.partnum)
    requires !Dotted(line) && |Fields(line)| == 3 && PartOf(Fields(line)) == p.(articles := [])
    ensures StepPart(st, line) == More(WithPart(st, p.(articles := [])).(mode := ServerArticleMode))
    ensures ReadingOk(WithPart(st, p.(articles := [])).(mode := ServerArticleMode))
  {
    hide Fields, PartOf;
    var ps := st.nf.value.parts;
    PlaceBeyond(ps, p.partnum);
    assert ps[..|ps|] + [p.(articles := [])] + ps[|ps|..] == ps + [p.(articles := [])];
  }

  lemma {:induction false} PlaceBeyond(ps: seq<Part>, partnum: int)
    requires Beyond(ps, partnum)
    ensures Place(ps, partnum) == |ps|
  {
    if |ps| > 0 {
      var rest := ps[1..];
      assert forall i :: 0 <= i < |rest| ==> rest[i] == ps[i + 1];
      PlaceBeyond(rest, partnum);
    }
  }

  lemma PartRead(st: Reading, p: Part, rest: string, ctx: Context)
    requires AtParts(st) && Beyond(st.nf.value.parts, p.partnum) && WritablePart(p, ctx)
    ensures AtParts(WithPart(st, p))
    ensures ReadFrom(st, PartText(p) + rest, ctx) == ReadFrom(WithPart(st, p), rest, ctx)
  {
    hide ReadFrom, Join, Fields, PartOf, PartFields, WritableArticle, Line, ArticleLines, Concat, StepPart, AtParts;
    var empty := p.(articles := []);
    WithPartOk(st, p);
    PartFieldsRead(p);
    PartFieldCount(p);
    FieldsOfLine(PartFields(p));
    AtPartsOk(st);
    PartLineStep(st, p, Join(PartFields(p), '\t'));
    var arts := Concat(ArticleLines(p.articles));
    FieldsLineRead(st, PartFields(p), arts + (".\n" + rest), ctx);
    var reading := WithPart(st, empty).(mode := ServerArticleMode);
    ArticlesRead(reading, p.articles, rest, ctx);
    PartFilled(st, p);
    assert PartText(p) + rest == Line(PartFields(p)) + (arts + (".\n" + rest));
  }

  lemma PartFieldCount(p: Part)
    ensures |PartFields(p)| == 3
  {
  }

  lemma AtPartsOk(st: Reading)
    requires AtParts(st)
    ensures ReadingOk(st) && st.mode == PartMode && st.nf.Some?
  {
  }

  lemma PartFilled(st: Reading, p: Part)
    requires st.nf.Some?
    ensures WithArticles(WithPart(st, p.(articles := [])).(mode := ServerArticleMode), p.articles).(mode := PartMode)
         == WithPart(st, p)
  {
    var ps := st.nf.value.parts;
    assert [] + p.articles == p.articles;
    assert (ps + [p.(articles := [])])[|ps| := p] == ps + [p];
  }

  function MoreParts(f: File, ps: seq<Part>): File {
    f.(parts := f.parts + ps, have := f.have + Counted(ps, f.key.req))
  }

  function MoreCounted(c: Counts, n: nat): Counts {
    c.(count := c.count + n)
  }

  ghost predicate AllBeyond(before: seq<Part>, ps: seq<Part>) {
    forall i :: 0 <= i < |ps| ==> Beyond(before, ps[i].partnum)
  }

  lemma LastDot(st: Reading, rest: string, ctx: Context)
    requires AtParts(st) && |st.nf.value.parts| > 0
    ensures ReadFrom(st, ".\n" + rest, ctx) == Got(st.nf.value, st.counts, rest)
  {
    assert "." + "\n" + rest == ".\n" + rest;
    LineRead(st, ".", rest, ctx);
  }

  lemma FirstPart(st: Reading, ps: seq<Part>)
    requires st.nf.Some? && |ps| > 0
    requires Sorted(ps) && AllBeyond(st.nf.value.parts, ps)
    ensures Beyond(st.nf.value.parts, ps[0].partnum)
    ensures Sorted(ps[1..]) && AllBeyond(st.nf.value.parts + [ps[0]], ps[1..])
    ensures MoreParts(WithPart(st, ps[0]).nf.value, ps[1..]) == MoreParts(st.nf.value, ps)
    ensures MoreCounted(WithPart(st, ps[0]).counts, |ps| - 1) == MoreCounted(st.counts, |ps|)
  {
    var f := st.nf.value;
    assert ps == [ps[0]] + ps[1..];
    Assoc(f.parts, [ps[0]], ps[1..]);
    var rest, all := ps[1..], f.parts + [ps[0]];
    forall i | 0 <= i < |rest|
      ensures Beyond(all, rest[i].partnum)
    {
      assert rest[i] == ps[i + 1];
    }
  }

  // The parts of a file, up to the dot that ends it.
  lemma {:induction false} PartsRead(st: Reading, ps: seq<Part>, rest: string, ctx: Context)
    requires AtParts(st) && |st.nf.value.parts| + |ps| > 0
    requires Sorted(ps) && AllBeyond(st.nf.value.parts, ps)
    requires forall k :: 0 <= k < |ps| ==> WritablePart(ps[k], ctx)
    ensures ReadFrom(st, Concat(PartTexts(ps)) + (".\n" + rest), ctx)
         == Got(MoreParts(st.nf.value, ps), MoreCounted(st.counts, |ps|), rest)
    decreases |ps|
  {
    hide ReadFrom, ReadingOk, WritablePart, PartText, AtParts, Sorted;
    AtPartsOk(st);
    var end := ".\n" + rest;
    if |ps| == 0 {
      assert PartTexts(ps) == [];
      assert "" + end == end && st.nf.value.parts + [] == st.nf.value.parts;
      LastDot(st, rest, ctx);
    } else {
      var texts := PartTexts(ps);
      assert texts[1..] == PartTexts(ps[1..]);
      Assoc(texts[0], Concat(texts[1..]), end);
      FirstPart(st, ps);
      PartRead(st, ps[0], Concat(texts[1..]) + end, ctx);
      PartsRead(WithPart(st, ps[0]), ps[1..], rest, ctx);
    }
  }

  // ---------- references ----------

  function WithReferences(st: Reading, refs: seq<string>): Reading
    requires st.nf.Some?
  {
    var f := st.nf.value;
    st.(nf := Some(f.(key := f.key.(references := f.key.references + refs))))
  }

  function References(st: Reading): Reading {
    st.(mode := PartMode, np := None)
  }

  lemma WithReferencesOk(st: Reading, refs: seq<string>)
    requires ReadingOk(st) && st.mode == ReferencesMode
    ensures st.nf.Some? && ReadingOk(WithReferences(st, refs)) && ReadingOk(References(WithReferences(st, refs)))
  {
  }

  lemma EscapedRead(r: string)
    requires Plain(r)
    ensures '\n' !in Escaped(r) && CStr(NoCr(Escaped(r))) == Escaped(r) && Escaped(r) != "."
    ensures r == if |Escaped(r)| > 0 && Escaped(r)[0] == '.' then Escaped(r)[1..] else Escaped(r)
  {
    NoCrNone(Escaped(r));
    CStrAll(Escaped(r));
    if |r| > 0 && r[0] == '.' { assert ("." + r)[1..] == r; }
  }

  lemma ReferenceRead(st: Reading, r: string, rest: string, ctx: Context)
    requires ReadingOk(st) && st.mode == ReferencesMode && Plain(r)
    ensures ReadingOk(WithReferences(st, [r]))
    ensures ReadFrom(st, Escaped(r) + "\n" + rest, ctx) == ReadFrom(WithReferences(st, [r]), rest, ctx)
  {
    hide ReadFrom, Escaped, CStr, NoCr;
    WithReferencesOk(st, [r]);
    EscapedRead(r);
    LineRead(st, Escaped(r), rest, ctx);
    hide ReadingOk;
  }

  lemma EndOfReferences(st: Reading, rest: string, ctx: Context)
    requires ReadingOk(st) && st.mode == ReferencesMode
    ensures ReadingOk(References(st)) && WithReferences(st, []) == st
    ensures ReadFrom(st, ".\n" + rest, ctx) == ReadFrom(References(st), rest, ctx)
  {
    hide ReadFrom;
    assert "." + "\n" + rest == ".\n" + rest;
    DotIsDot();
    hide NoCr, CStr;
    LineRead(st, ".", rest, ctx);
    var f := st.nf.value;
    assert f.key.references + [] == f.key.references;
  }

  lemma DotIsDot()
    ensures CStr(NoCr(".")) == "."
  {
    NoCrNone(".");
    CStrAll(".");
  }

  lemma {:induction false} ReferencesRead(st: Reading, refs: seq<string>, rest: string, ctx: Context)
    requires ReadingOk(st) && st.mode == ReferencesMode && AllPlain(refs)
    ensures st.nf.Some? && ReadingOk(References(WithReferences(st, refs)))
    ensures ReadFrom(st, Concat(RefLines(refs)) + (".\n" + rest), ctx)
         == ReadFrom(References(WithReferences(st, refs)), rest, ctx)
    decreases |refs|
  {
    hide ReadFrom, ReadingOk, Escaped, Plain;
    WithReferencesOk(st, refs);
    var end := ".\n" + rest;
    if |refs| == 0 {
      assert RefLines(refs) == [];
      assert "" + end == end;
      EndOfReferences(st, rest, ctx);
    } else {
      var lines := RefLines(refs);
      assert lines[1..] == RefLines(refs[1..]);
      Assoc(lines[0], Concat(lines[1..]), end);
      ReferenceRead(st, refs[0], Concat(lines[1..]) + end, ctx);
      Assoc(st.nf.value.key.references, [refs[0]], refs[1..]);
      assert [refs[0]] + refs[1..] == refs;
      ReferencesRead(WithReferences(st, [refs[0]]), refs[1..], rest, ctx);
    }
  }

  // ---------- files ----------

  function Start(c: Counts): Reading {
    Reading(FileMode, None, None, c)
  }

  lemma FileFieldsRead(f: File, ctx: Context)
    requires WritableFile(f, ctx)
    ensures AllPlain(FileFields(f)) && |FileFields(f)| == 7
    ensures FileOf(FileFields(f)) == f.(key := f.key.(references := []), parts := [], have := 0)
  {
    hide Join, Atoul, Atoi, Unsigned, Signed, CStr, Plain;
    SignedRead(f.key.req);
    SignedRead(f.key.partoff);
    SignedRead(f.tailoff);
    NumberRead(f.flags);
    assert ULong(f.update) == f.update;
    NumberRead(ULong(f.update));
    CStrPlain(f.key.subject);
    CStrPlain(f.key.author);
  }

  lemma FileLineStep(c: Counts, f: File, line: string)
    requires |Fields(line)| == 7 && FileOf(Fields(line)) == f.(key := f.key.(references := []), parts := [], have := 0)
    ensures StepFile(Start(c), line)
         == More(Reading(ReferencesMode, Some(f.(key := f.key.(references := []), parts := [], have := 0)), None, c))
  {
    hide Fields, FileOf;
  }

  // The text of a file is read as the file.
  lemma FileRead(f: File, c: Counts, rest: string, ctx: Context)
    requires WritableFile(f, ctx)
    ensures ReadingOk(Start(c))
    ensures ReadFrom(Start(c), FileText(f) + rest, ctx) == Got(f, MoreCounted(c, |f.parts|), rest)
  {
    hide ReadFrom, Join, Fields, FileOf, FileFields, Line, RefLines, PartTexts, Concat, StepFile, WritablePart;
    FileFieldsRead(f, ctx);
    FieldsOfLine(FileFields(f));
    FileLineStep(c, f, Join(FileFields(f), '\t'));
    var refs, parts := Concat(RefLines(f.key.references)), Concat(PartTexts(f.parts));
    FieldsLineRead(Start(c), FileFields(f), refs + (".\n" + (parts + (".\n" + rest))), ctx);
    var reading := Reading(ReferencesMode, Some(f.(key := f.key.(references := []), parts := [], have := 0)), None, c);
    ReferencesRead(reading, f.key.references, parts + (".\n" + rest), ctx);
    assert [] + f.key.references == f.key.references;
    var st := References(WithReferences(reading, f.key.references));
    PartsRead(st, f.parts, rest, ctx);
    assert [] + f.parts == f.parts;
    assert FileText(f) + rest == Line(FileFields(f)) + (refs + (".\n" + (parts + (".\n" + rest))));
  }

  // ---------- the whole cache ----------

  datatype ServerEntry = ServerEntry(serverid: nat, info: ServerInfo)

  // The servers are in the order of their ids.
  datatype Saved = Saved(totalnum: nat, servers: seq<ServerEntry>, files: seq<File>)

  function HeadFields(totalnum: nat): seq<string> {
    [CACHE_VERSION, Unsigned(totalnum) + " " + Signed(CACHE_SORTVER)]
  }

  function ServerFields(e: ServerEntry): seq<string> {
    [Unsigned(e.serverid), Unsigned(e.info.high), Unsigned(e.info.low), Unsigned(ULong(e.info.num))]
  }

  function ServerLines(es: seq<ServerEntry>): seq<string> {
    seq(|es|, i requires 0 <= i < |es| => Line(ServerFields(es[i])))
  }

  function TextOf(c: Saved): string {
    Line(HeadFields(c.totalnum)) + Concat(ServerLines(c.servers)) + ".\n" + Concat(FileTexts(c.files))
  }

  type Servers = map<nat, ServerInfo>

  // A map insert does not replace an entry.
  function Insert(m: Servers, sid: nat, info: ServerInfo): Servers {
    if sid in m then m else m[sid := info]
  }

  function AsMap(es: seq<ServerEntry>): Servers {
    if |es| == 0 then map[] else AsMap(es[..|es| - 1])[es[|es| - 1].serverid := es[|es| - 1].info]
  }

  function SortVersion(t: string): int {
    if |t| == 0 then -1 else if t[0] == ' ' then Atoi(t) else SortVersion(t[1..])
  }

  // The server lines up to their dot, and what follows it; None when the text ends before.
  datatype ServersRead = ServersRead(servers: Servers, rest: Option<string>)

  function ReadServers(m: Servers, s: string, ctx: Context): ServersRead
    decreases |s|
  {
    if |s| == 0 then ServersRead(m, None)
    else
      AfterShorter(s);
      if Dotted(RawLine(s)) then ServersRead(m, Some(AfterLine(s)))
      else ReadServers(ServerStep(m, RawLine(s), ctx), AfterLine(s), ctx)
  }

  function ServerStep(m: Servers, raw: string, ctx: Context): Servers {
    var t := Fields(raw);
    if |t| == 4 && ctx.known(Atoul(CStr(t[0]))) then
      Insert(m, Atoul(CStr(t[0])), ServerInfo(Atoul(CStr(t[1])), Atoul(CStr(t[2])), Atoul(CStr(t[3]))))
    else m
  }

  // Where a multimap puts a new file: behind those not after it.
  function Upper(fs: seq<File>, key: Key): (k: nat)
    ensures k <= |fs|
  {
    if |fs| == 0 || Less(key, fs[0].key) then 0 else 1 + Upper(fs[1..], key)
  }

  function InsertedFile(fs: seq<File>, f: File): seq<File> {
    var k := Upper(fs, f.key);
    fs[..k] + [f] + fs[k..]
  }

  // All files; complete unless something was wrong.
  datatype FilesRead = FilesRead(files: seq<File>, complete: bool, counts: Counts)

  ghost function ReadFiles(fs: seq<File>, c: Counts, s: string, ctx: Context): FilesRead
    decreases |s|
  {
    ReadShorter(Start(c), s, ctx);
    match ReadFrom(Start(c), s, ctx)
    case Got(f, counts, rest) => ReadFiles(InsertedFile(fs, f), counts, rest, ctx)
    case AtEnd(counts) => FilesRead(fs, true, counts)
    case UnexpectedEof => FilesRead(fs, false, c)
    case Aborted => FilesRead(fs, false, c)
  }

  lemma {:induction false} ReadShorter(st: Reading, s: string, ctx: Context)
    requires ReadingOk(st)
    ensures ReadFrom(st, s, ctx).Got? ==> |ReadFrom(st, s, ctx).rest| < |s|
    decreases |s|
  {
    hide Step, ReadingOk;
    if |s| > 0 {
      AfterShorter(s);
      var n := Step(st, RawLine(s), ctx);
      if n.More? {
        StepKeepsOk(st, RawLine(s), ctx);
        ReadShorter(n.state, AfterLine(s), ctx);
      }
    }
  }

  // What opening a cache file leaves: whether it was read to the end and whether it must be saved
  // again for its order; the count of parts read counts, whatever the first line says.
  datatype Loaded = Loaded(fileread: bool, saveit: bool, totalnum: int, servers: Servers, files: seq<File>)

  const NO_COUNTS: Counts := Counts(0, 0, [])

  ghost function Load(s: string, ctx: Context): Loaded {
    var t := Fields(RawLine(s));
    if |s| == 0 || |t| != 2 || CStr(t[0]) != CACHE_VERSION then Loaded(false, false, 0, map[], [])
    else
      var head := ReadServers(map[], AfterLine(s), ctx);
      match head.rest
      case None => Loaded(false, false, 0, head.servers, [])
      case Some(rest) =>
        var fs := ReadFiles([], NO_COUNTS, rest, ctx);
        if fs.complete then
          Loaded(true, SortVersion(CStr(t[1])) != CACHE_SORTVER, fs.counts.count, head.servers, fs.files)
        else Loaded(false, false, 0, head.servers, fs.files)
  }

  ghost predicate WritableServer(e: ServerEntry, ctx: Context) {
    && ctx.known(e.serverid) && e.serverid <= ULONG_MAX && e.info.high <= ULONG_MAX && e.info.low <= ULONG_MAX
    && 0 <= e.info.num <= ULONG_MAX
  }

  ghost predicate Writable(c: Saved, ctx: Context) {
    && (forall k :: 0 <= k < |c.servers| ==> WritableServer(c.servers[k], ctx))
    && IdsIncrease(c.servers)
    && FilesSorted(c.files) && (forall k :: 0 <= k < |c.files| ==> WritableFile(c.files[k], ctx))
  }

  lemma ServerFieldsRead(e: ServerEntry, m: Servers, ctx: Context)
    requires WritableServer(e, ctx)
    ensures AllPlain(ServerFields(e)) && '\n' !in Join(ServerFields(e), '\t') && !Dotted(Join(ServerFields(e), '\t'))
    ensures ServerStep(m, Join(ServerFields(e), '\t'), ctx) == Insert(m, e.serverid, e.info)
  {
    hide Join, Atoul, Unsigned, CStr, Plain, Fields;
    NumberRead(e.serverid);
    NumberRead(e.info.high);
    NumberRead(e.info.low);
    assert ULong(e.info.num) == e.info.num;
    NumberRead(ULong(e.info.num));
    FieldsOfLine(ServerFields(e));
    JoinStarts(ServerFields(e));
  }

  lemma ServerRead(m: Servers, e: ServerEntry, rest: string, ctx: Context)
    requires WritableServer(e, ctx)
    ensures ReadServers(m, Line(ServerFields(e)) + rest, ctx) == ReadServers(Insert(m, e.serverid, e.info), rest, ctx)
  {
    hide Join, ServerStep, ServerFields;
    var line := Join(ServerFields(e), '\t');
    ServerFieldsRead(e, m, ctx);
    assert Line(ServerFields(e)) + rest == line + ("\n" + rest);
    assert ("\n" + rest)[1..] == rest;
    LineSplit(line, "\n" + rest);
  }

  ghost predicate IdsIncrease(es: seq<ServerEntry>) {
    forall i, j :: 0 <= i < j < |es| ==> es[i].serverid < es[j].serverid
  }

  lemma ServersDone(m: Servers, rest: string, ctx: Context)
    ensures ReadServers(m, ".\n" + rest, ctx) == ServersRead(m, Some(rest))
  {
    assert "." + ("\n" + rest) == ".\n" + rest && ("\n" + rest)[1..] == rest;
    LineSplit(".", "\n" + rest);
  }

  // All servers, up to the dot behind them.
  lemma {:induction false} ServersAreRead(before: seq<ServerEntry>, es: seq<ServerEntry>, rest: string, ctx: Context)
    requires forall k :: 0 <= k < |es| ==> WritableServer(es[k], ctx)
    requires IdsIncrease(before + es)
    ensures ReadServers(AsMap(before), Concat(ServerLines(es)) + (".\n" + rest), ctx) == ServersRead(AsMap(before + es), Some(rest))
    decreases |es|
  {
    hide WritableServer, ServerFields, Line, ReadServers, AsMap, IdsIncrease;
    var end := ".\n" + rest;
    if |es| == 0 {
      assert ServerLines(es) == [] && "" + end == end && before + es == before;
      ServersDone(AsMap(before), rest, ctx);
    } else {
      var lines := ServerLines(es);
      assert lines[1..] == ServerLines(es[1..]);
      Assoc(lines[0], Concat(lines[1..]), end);
      ServerRead(AsMap(before), es[0], Concat(lines[1..]) + end, ctx);
      NewId(before, es);
      assert (before + [es[0]]) + es[1..] == before + es;
      ServersAreRead(before + [es[0]], es[1..], rest, ctx);
    }
  }

  lemma NewId(before: seq<ServerEntry>, es: seq<ServerEntry>)
    requires |es| > 0 && IdsIncrease(before + es)
    ensures Insert(AsMap(before), es[0].serverid, es[0].info) == AsMap(before + [es[0]])
  {
    forall k | 0 <= k < |before|
      ensures before[k].serverid != es[0].serverid
    {
      assert (before + es)[k] == before[k] && (before + es)[|before|] == es[0];
    }
    IdsOf(before, es[0].serverid);
    assert (before + [es[0]])[..|before|] == before;
  }

  lemma {:induction false} IdsOf(es: seq<ServerEntry>, sid: nat)
    requires forall k :: 0 <= k < |es| ==> es[k].serverid != sid
    ensures sid !in AsMap(es)
  {
    if |es| > 0 { IdsOf(es[..|es| - 1], sid); }
  }

  lemma {:induction false} UpperIsEnd(fs: seq<File>, key: Key)
    requires forall i :: 0 <= i < |fs| ==> NotAfter(fs[i].key, key)
    ensures Upper(fs, key) == |fs|
  {
    hide Less;
    if |fs| > 0 {
      var rest := fs[1..];
      assert forall i :: 0 <= i < |rest| ==> rest[i] == fs[i + 1];
      UpperIsEnd(rest, key);
    }
  }

  // All files, in order, to the end of the text.
  lemma {:induction false} FilesAreRead(before: seq<File>, fs: seq<File>, c: Counts, ctx: Context)
    requires FilesSorted(before + fs) && forall k :: 0 <= k < |fs| ==> WritableFile(fs[k], ctx)
    ensures ReadFiles(before, c, Concat(FileTexts(fs)), ctx) == FilesRead(before + fs, true, MoreCounted(c, TotalParts(fs)))
    decreases |fs|
  {
    hide WritableFile, ReadFrom, FileText, FilesSorted;
    if |fs| == 0 {
      assert FileTexts(fs) == [] && before + fs == before;
      NoText(c, ctx);
    } else {
      var texts := FileTexts(fs);
      assert texts[1..] == FileTexts(fs[1..]);
      FileRead(fs[0], c, Concat(texts[1..]), ctx);
      GoesLast(before, fs);
      assert before + [fs[0]] + [] == before + [fs[0]];
      assert (before + [fs[0]]) + fs[1..] == before + fs;
      FilesAreRead(before + [fs[0]], fs[1..], MoreCounted(c, |fs[0].parts|), ctx);
    }
  }

  lemma NoText(c: Counts, ctx: Context)
    ensures ReadFrom(Start(c), "", ctx) == AtEnd(c)
  {
  }

  lemma GoesLast(before: seq<File>, fs: seq<File>)
    requires |fs| > 0 && FilesSorted(before + fs)
    ensures InsertedFile(before, fs[0]) == before + [fs[0]]
  {
    hide Less;
    forall i | 0 <= i < |before|
      ensures NotAfter(before[i].key, fs[0].key)
    {
      assert (before + fs)[i] == before[i] && (before + fs)[|before|] == fs[0];
    }
    UpperIsEnd(before, fs[0].key);
  }

  // The first line.
  lemma HeadRead(totalnum: nat, rest: string)
    requires totalnum <= ULONG_MAX
    ensures var s := Line(HeadFields(totalnum)) + rest; var t := Fields(RawLine(s));
      && AfterLine(s) == rest && |s| > 0
      && |t| == 2 && CStr(t[0]) == CACHE_VERSION && SortVersion(CStr(t[1])) == CACHE_SORTVER
  {
    hide CStr, Join, Fields, SortVersion, Plain;
    var fs := HeadFields(totalnum);
    HeadPlain(totalnum);
    FieldsOfLine(fs);
    var line := Join(fs, '\t');
    assert Line(fs) + rest == line + ("\n" + rest) && ("\n" + rest)[1..] == rest;
    LineSplit(line, "\n" + rest);
  }

  lemma HeadPlain(totalnum: nat)
    ensures AllPlain(HeadFields(totalnum)) && |HeadFields(totalnum)| == 2
    ensures SortVersion(HeadFields(totalnum)[1]) == CACHE_SORTVER
  {
    var n := Unsigned(totalnum);
    NumbersPlain(totalnum);
    UnsignedDigits(totalnum);
    assert Signed(1) == "1" && Plain(Signed(1));
    assert Plain(CACHE_VERSION);
    SortVersionBehind(n, " 1");
    assert n + " " + "1" == n + " 1";
    assert SkipSpaces(" 1") == "1";
    LeadingDigitsAre("1", "");
    assert "1" + "" == "1";
    assert Atoi(" 1") == 1;
  }

  lemma {:induction false} SortVersionBehind(n: string, t: string)
    requires ' ' !in n && |t| > 0 && t[0] == ' '
    ensures SortVersion(n + t) == Atoi(t)
  {
    if |n| > 0 {
      assert (n + t)[1..] == n[1..] + t;
      SortVersionBehind(n[1..], t);
    } else {
      assert n + t == t;
    }
  }

  // Loading what was saved gives back the servers and the files as they were, counts every part, and
  // finds nothing to save again.
  lemma LoadUndoesSave(c: Saved, ctx: Context)
    requires Writable(c, ctx) && c.totalnum <= ULONG_MAX
    ensures Load(TextOf(c), ctx) == Loaded(true, false, TotalParts(c.files), AsMap(c.servers), c.files)
  {
    hide CStr, Fields, SortVersion, HeadFields, Line, Concat, ServerLines, FileTexts, ReadFiles, ReadServers, WritableFile, WritableServer;
    var files := Concat(FileTexts(c.files));
    var servers := Concat(ServerLines(c.servers));
    assert TextOf(c) == Line(HeadFields(c.totalnum)) + (servers + (".\n" + files));
    HeadRead(c.totalnum, servers + (".\n" + files));
    assert [] + c.servers == c.servers && [] + c.files == c.files;
    ServersAreRead([], c.servers, files, ctx);
    FilesAreRead([], c.files, NO_COUNTS, ctx);
  }

  lemma StartOk(c: Counts)
    ensures ReadingOk(Start(c))
  {
  }

  lemma StepOnce(st: Reading, s: string, ctx: Context)
    requires ReadingOk(st)
    ensures |s| == 0 ==> ReadFrom(st, s, ctx) == if st.nf.Some? then UnexpectedEof else AtEnd(st.counts)
    ensures |s| > 0 ==>
      var n := Step(st, RawLine(s), ctx);
      (n.More? ==> ReadingOk(n.state)) && ReadFrom(st, s, ctx) == Continue(n, AfterLine(s), ctx)
  {
    hide Step, ReadingOk, RawLine, AfterLine;
    if |s| > 0 && Step(st, RawLine(s), ctx).More? { StepKeepsOk(st, RawLine(s), ctx); }
  }
}
