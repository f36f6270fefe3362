// Turning a regular expression into a wildmat, so that a server can do the searching.
module Wildmat {
  import opened Common

  // ---------- characters ----------

  predicate IsUpper(c: char) { 'A' <= c <= 'Z' }

  predicate IsLower(c: char) { 'a' <= c <= 'z' }

  predicate IsAlpha(c: char) { IsUpper(c) || IsLower(c) }

  predicate IsAlnum(c: char) { IsAlpha(c) || '0' <= c <= '9' }

  function Lower(c: char): char { if IsUpper(c) then c + ' ' else c }

  function Upper(c: char): char { if IsLower(c) then c - ' ' else c }

  // ---------- wildmats, as in section 3.3 of RFC 2980 ----------

  // The end of the class that starts at w[0]; a ']' right at its beginning does not end it.
  function ClassEnd(w: string, i: nat): Option<nat>
    decreases |w| - i
  {
    if i >= |w| then None
    else if w[i] == ']' then Some(i)
    else ClassEnd(w, i + 1)
  }

  predicate InClass(body: string, c: char) {
    |body| > 0 &&
    if |body| >= 3 && body[1] == '-' then body[0] <= c <= body[2] || InClass(body[3..], c)
    else body[0] == c || InClass(body[1..], c)
  }

  // Does the wildmat match the whole of s?
  predicate Match(w: string, s: string)
    decreases |w| + |s|
  {
    if |w| == 0 then |s| == 0
    else if w[0] == '*' then Match(w[1..], s) || (|s| > 0 && Match(w, s[1..]))
    else if |s| == 0 then false
    else if w[0] == '?' then Match(w[1..], s[1..])
    else if w[0] == '\\' && |w| > 1 then w[1] == s[0] && Match(w[2..], s[1..])
    else if w[0] == '[' then
      var inverted := |w| > 1 && w[1] == '^';
      var start := if inverted then 2 else 1;
      var end := ClassEnd(w, start + 1);
      end.Some? && start <= end.value < |w| &&
      (InClass(w[start..end.value], s[0]) <==> !inverted) && Match(w[end.value + 1..], s[1..])
    else w[0] == s[0] && Match(w[1..], s[1..])
  }

  // ---------- regular expressions: literals, '.', '.*', anchors ----------

  datatype Atom = Lit(c: char) | Any | AnyStar

  // What a pattern says between its anchors, and whether it must match up to the end.
  datatype Pattern = Pattern(atoms: seq<Atom>, toEnd: bool)

  predicate Same(c: char, d: char, ignorecase: bool) {
    if ignorecase then Lower(c) == Lower(d) else c == d
  }

  // The pattern matches a beginning of s, or all of it.
  ghost predicate MatchHere(p: Pattern, s: string, ignorecase: bool)
    decreases |p.atoms|
  {
    if |p.atoms| == 0 then p.toEnd ==> |s| == 0
    else
      var rest := p.(atoms := p.atoms[1..]);
      match p.atoms[0]
      case Lit(c) => |s| > 0 && Same(c, s[0], ignorecase) && MatchHere(rest, s[1..], ignorecase)
      case Any => |s| > 0 && MatchHere(rest, s[1..], ignorecase)
      case AnyStar => exists k: nat :: k <= |s| && MatchHere(rest, s[k..], ignorecase)
  }

  predicate Quantifier(c: char) { c in {'?', '*', '+', '(', ')', '{', '}', '|'} }

  // Punctuation whose escape stands for itself.
  predicate Escapable(c: char) { !IsAlnum(c) && c != '<' && c != '>' }

  // Read the pattern from pos on; None when it has anything else.
  function Parse(repat: string, pos: nat): Option<Pattern>
    requires pos <= |repat|
    decreases |repat| - pos
  {
    if pos == |repat| then Some(Pattern([], false))
    else if repat[pos] == '$' && pos + 1 == |repat| then Some(Pattern([], true))
    else if repat[pos] == '.' && pos + 1 < |repat| && repat[pos + 1] == '*' then After(AnyStar, Parse(repat, pos + 2))
    else if repat[pos] == '.' then After(Any, Parse(repat, pos + 1))
    else if repat[pos] == '\\' then
      if pos + 1 < |repat| && Escapable(repat[pos + 1]) then After(Lit(repat[pos + 1]), Parse(repat, pos + 2)) else None
    else if Quantifier(repat[pos]) || repat[pos] in {'[', '^', '$'} then None
    else After(Lit(repat[pos]), Parse(repat, pos + 1))
  }

  function After(a: Atom, p: Option<Pattern>): Option<Pattern> {
    if p.None? then None else Some(p.value.(atoms := [a] + p.value.atoms))
  }

  // The expression has a match somewhere in s: at its beginning when anchored there.
  ghost predicate Finds(p: Pattern, anchored: bool, s: string, ignorecase: bool) {
    if anchored then MatchHere(p, s, ignorecase)
    else exists k: nat :: k <= |s| && MatchHere(p, s[k..], ignorecase)
  }

  // ---------- the conversion ----------

  datatype Result = Ok(wildmat: string) | Err(pos: nat)

  // What one item of the expression becomes, and where the next one starts.
  datatype Item = Token(text: string, next: nat) | Bad(pos: nat)

  function Folded(c: char, ignorecase: bool): string {
    if ignorecase && IsAlpha(c) then [Lower(c), Upper(c)] else [c]
  }

  // The rest of a class that started at opos: characters up to its end.
  function ClassFrom(repat: string, opos: nat, pos: nat, ignorecase: bool): Item
    requires opos <= pos <= |repat|
    decreases |repat| - pos
  {
    if pos == |repat| then
      if pos == opos + 1 && repat[opos] == ']' then Token("", pos) else Bad(pos)
    else if repat[pos] == ']' && pos != opos then Token("]", pos + 1)
    else
      match ClassFrom(repat, opos, pos + 1, ignorecase)
      case Token(text, next) => Token(Folded(repat[pos], ignorecase) + text, next)
      case Bad(p) => Bad(p)
  }

  function NextItem(repat: string, pos: nat, ignorecase: bool): (item: Item)
    requires pos < |repat| && !(repat[pos] == '$' && pos + 1 == |repat|)
    ensures item.Token? ==> pos < item.next <= |repat|
  {
    var c := repat[pos];
    if c == '.' then
      if pos + 1 < |repat| && repat[pos + 1] == '*' then Token("*", pos + 2) else Token("?", pos + 1)
    else if c == '\\' then
      if pos + 1 == |repat| then Bad(pos + 1)
      else
        var nc := repat[pos + 1];
        if nc in {'*', '?', '[', ']'} then Token([c, nc], pos + 2)
        else if nc in {'(', ')', '{', '}', '|', '.'} then Token([nc], pos + 2)
        else if nc == '<' || nc == '>' || IsAlnum(nc) then Bad(pos + 1)
        else Token([nc], pos + 2)
    else if Quantifier(c) then Bad(pos + 1)
    else if ignorecase && IsAlpha(c) then Token(['[', Lower(c), Upper(c), ']'], pos + 1)
    else if c == '[' then
      ClassNext(repat, pos + 1, pos + 1, ignorecase);
      match ClassFrom(repat, pos + 1, pos + 1, ignorecase)
      case Token(text, next) => Token("[" + text, next)
      case Bad(p) => Bad(p)
    else Token([c], pos + 1)
  }

  lemma {:induction false} ClassNext(repat: string, opos: nat, pos: nat, ignorecase: bool)
    requires opos <= pos <= |repat|
    ensures var item := ClassFrom(repat, opos, pos, ignorecase); item.Token? ==> pos <= item.next <= |repat|
    decreases |repat| - pos
  {
    if pos < |repat| { ClassNext(repat, opos, pos + 1, ignorecase); }
  }

  // The wildmat for the expression from pos on.
  function ConvertFrom(repat: string, pos: nat, ignorecase: bool): Result
    requires pos < |repat|
    decreases |repat| - pos
  {
    if repat[pos] == '$' && pos + 1 == |repat| then Ok("")
    else
      match NextItem(repat, pos, ignorecase)
      case Bad(p) => Err(p)
      case Token(text, next) =>
        if next == |repat| then Ok(text + "*")
        else Prefixed(text, ConvertFrom(repat, next, ignorecase))
  }

  function Prefixed(text: string, r: Result): Result {
    if r.Ok? then Ok(text + r.wildmat) else r
  }

  function Convert(repat: string, ignorecase: bool): Result {
    if |repat| == 0 then Ok("*")
    else if repat[0] != '^' then Prefixed("*", ConvertFrom(repat, 0, ignorecase))
    else if |repat| == 1 then Ok("")
    else ConvertFrom(repat, 1, ignorecase)
  }

  method Regex2Wildmat(repat: string, ignorecase: bool) returns (r: Result)
    ensures r == Convert(repat, ignorecase)
  {
    hide NextItem;
    if |repat| == 0 { return Ok("*"); }
    var wildmat := "";
    var pos := 0;
    if repat[0] == '^' {
      pos := pos + 1;
    } else {
      wildmat := wildmat + "*";
    }
    while pos < |repat|
      invariant pos <= |repat|
      invariant Convert(repat, ignorecase)
             == if pos < |repat| then Prefixed(wildmat, ConvertFrom(repat, pos, ignorecase)) else Ok(wildmat)
    {
      if repat[pos] == '$' && pos + 1 == |repat| { break; }
      var item := ConvertItem(repat, pos, ignorecase);
      match item {
        case Bad(at) => return Err(at);
        case Token(text, next) =>
          Stepped(repat, pos, ignorecase, wildmat, wildmat + text, next);
          wildmat, pos := wildmat + text, next;
          if pos == |repat| {
            wildmat := wildmat + "*";
          }
      }
    }
    r := Ok(wildmat);
  }

  // One turn of the loop: the item that starts at a place other than the '$' at the end.
  method ConvertItem(repat: string, start: nat, ignorecase: bool) returns (item: Item)
    requires start < |repat| && !(repat[start] == '$' && start + 1 == |repat|)
    ensures item == NextItem(repat, start, ignorecase)
  {
    hide ClassFrom, Folded, Lower, Upper, IsAlpha, IsAlnum;
    var c := repat[start];
    var pos := start + 1;
    if c == '.' {
      if pos < |repat| && repat[pos] == '*' {
        return Token("*", pos + 1);
      }
      return Token("?", pos);
    }
    if c == '\\' {
      if pos >= |repat| { return Bad(pos); }
      var nc := repat[pos];
      if nc == '*' || nc == '?' || nc == '[' || nc == ']' {
        return Token([c, nc], pos + 1);
      } else if nc == '(' || nc == ')' || nc == '{' || nc == '}' || nc == '|' || nc == '.' {
        return Token([nc], pos + 1);
      } else if nc == '<' || nc == '>' || IsAlnum(nc) {
        return Bad(pos);
      }
      return Token([nc], pos + 1);
    }
    if c == '?' || c == '*' || c == '+' || c == '(' || c == ')' || c == '{' || c == '}' || c == '|' {
      return Bad(pos);
    }
    if ignorecase && IsAlpha(c) {
      return Token(['[', Lower(c), Upper(c), ']'], pos);
    }
    if c == '[' {
      var class_, next, ok := ConvertClass(repat, pos, ignorecase);
      return if ok then Token("[" + class_, next) else Bad(next);
    }
    item := Token([c], pos);
  }

  // The characters of a class, with both cases when case is ignored.
  method ConvertClass(repat: string, opos: nat, ignorecase: bool) returns (text: string, pos: nat, ok: bool)
    requires opos <= |repat|
    ensures ClassFrom(repat, opos, opos, ignorecase) == if ok then Token(text, pos) else Bad(pos)
    ensures opos <= pos <= |repat|
  {
    text, pos := "", opos;
    while pos < |repat|
      invariant opos <= pos <= |repat|
      invariant ClassFrom(repat, opos, opos, ignorecase) == Continued(text, ClassFrom(repat, opos, pos, ignorecase))
    {
      ContinuedTwice(text, Folded(repat[pos], ignorecase), ClassFrom(repat, opos, pos + 1, ignorecase));
      if repat[pos] == ']' && pos != opos {
        return text + "]", pos + 1, true;
      }
      text := text + Folded(repat[pos], ignorecase);
      pos := pos + 1;
    }
    ok := pos == opos + 1 && repat[opos] == ']';
    assert text + "" == text;
  }

  function Continued(text: string, item: Item): Item {
    match item
    case Token(more, next) => Token(text + more, next)
    case Bad(p) => item
  }

  lemma ContinuedTwice(a: string, b: string, item: Item)
    ensures Continued(a, Continued(b, item)) == Continued(a + b, item)
  {
    if item.Token? { assert a + (b + item.text) == (a + b) + item.text; }
  }

  lemma Stepped(repat: string, start: nat, ignorecase: bool, before: string, wildmat: string, next: nat)
    requires start < |repat| && !(repat[start] == '$' && start + 1 == |repat|)
    requires NextItem(repat, start, ignorecase).Token? && NextItem(repat, start, ignorecase).next == next
    requires wildmat == before + NextItem(repat, start, ignorecase).text
    ensures next <= |repat|
    ensures Prefixed(before, ConvertFrom(repat, start, ignorecase))
         == if next == |repat| then Ok(wildmat + "*") else Prefixed(wildmat, ConvertFrom(repat, next, ignorecase))
  {
    var text := NextItem(repat, start, ignorecase).text;
    if next == |repat| {
      assert before + (text + "*") == (before + text) + "*";
    } else {
      var r := ConvertFrom(repat, next, ignorecase);
      if r.Ok? { assert before + (text + r.wildmat) == (before + text) + r.wildmat; }
    }
  }

  // ---------- what is refused ----------

  // An odd number of backslashes stands right before i.
  predicate Escaped(repat: string, i: nat)
    requires i <= |repat|
  {
    i > 0 && repat[i - 1] == '\\' && !Escaped(repat, i - 1)
  }

  // A backslash needs punctuation other than '<' and '>' behind it; a star needs a dot before it; the other
  // operators have no wildmat.
  predicate Expressible(repat: string, i: nat)
    requires i < |repat|
  {
    if repat[i] == '\\' then
      i + 1 < |repat| && var c := repat[i + 1];
      !('a' <= c <= 'z') && !('A' <= c <= 'Z') && !('0' <= c <= '9') && c != '<' && c != '>'
    else if repat[i] == '*' then i > 0 && repat[i - 1] == '.' && !Escaped(repat, i - 1)
    else repat[i] !in {'?', '+', '(', ')', '{', '}', '|'}
  }

  ghost predicate AllExpressible(repat: string, pos: nat) {
    forall i :: pos <= i < |repat| && !Escaped(repat, i) ==> Expressible(repat, i)
  }

  // An expression without bracket classes is refused exactly when some character of it that is not escaped
  // cannot be expressed.
  lemma RefusedExactly(repat: string, ignorecase: bool)
    requires '[' !in repat
    ensures Convert(repat, ignorecase).Ok? <==> AllExpressible(repat, 0)
  {
    hide ConvertFrom, Expressible;
    if |repat| > 0 {
      var start := if repat[0] == '^' then 1 else 0;
      if start < |repat| { RefusedFrom(repat, start, ignorecase); }
      if start == 1 { CaretExpressible(repat); }
    }
  }

  lemma CaretExpressible(repat: string)
    requires |repat| > 0 && repat[0] == '^'
    ensures Expressible(repat, 0)
  {
  }

  lemma {:induction false} RefusedFrom(repat: string, pos: nat, ignorecase: bool)
    requires pos < |repat| && '[' !in repat && !Escaped(repat, pos)
    requires repat[pos] == '*' && pos > 0 && repat[pos - 1] == '.' ==> Escaped(repat, pos - 1)
    ensures ConvertFrom(repat, pos, ignorecase).Ok? <==> AllExpressible(repat, pos)
    decreases |repat| - pos
  {
    hide AllExpressible;
    assert repat[pos] != '[';
    var item := if repat[pos] == '$' && pos + 1 == |repat| then Token("", |repat|) else NextItem(repat, pos, ignorecase);
    ItemExpressible(repat, pos, item, ignorecase);
    if item.Token? && item.next < |repat| {
      RefusedFrom(repat, item.next, ignorecase);
    }
  }

  // An item is read exactly when its first character can be expressed; then the second, if any, is escaped,
  // or the star of a ".*".
  lemma ItemExpressible(repat: string, pos: nat, item: Item, ignorecase: bool)
    requires pos < |repat| && repat[pos] != '[' && !Escaped(repat, pos)
    requires repat[pos] == '*' && pos > 0 && repat[pos - 1] == '.' ==> Escaped(repat, pos - 1)
    requires item == if repat[pos] == '$' && pos + 1 == |repat| then Token("", |repat|) else NextItem(repat, pos, ignorecase)
    ensures item.Token? <==> Expressible(repat, pos)
    ensures item.Bad? ==> !AllExpressible(repat, pos)
    ensures item.Token? ==> pos < item.next <= |repat| && !Escaped(repat, item.next)
    ensures item.Token? ==> (AllExpressible(repat, pos) <==> AllExpressible(repat, item.next))
    ensures item.Token? && item.next == |repat| ==> AllExpressible(repat, pos)
    ensures item.Token? && item.next < |repat| && repat[item.next] == '*' && repat[item.next - 1] == '.' ==>
      Escaped(repat, item.next - 1)
  {
    hide Folded;
    if item.Token? && item.next == pos + 2 {
      assert Escaped(repat, pos + 1) || (repat[pos + 1] == '*' && repat[pos] == '.');
      assert Escaped(repat, pos + 1) || Expressible(repat, pos + 1);
    }
  }

  // ---------- bracket classes ----------

  function FoldAll(body: string, ignorecase: bool): string {
    if |body| == 0 then "" else Folded(body[0], ignorecase) + FoldAll(body[1..], ignorecase)
  }

  // A class is its characters up to the next ']', the first one excepted, each with both its cases when
  // case is ignored.
  lemma {:induction false} ClassText(repat: string, opos: nat, pos: nat, end: nat, ignorecase: bool)
    requires opos <= pos <= end < |repat| && opos < end && repat[end] == ']'
    requires forall i :: pos <= i < end && i > opos ==> repat[i] != ']'
    ensures ClassFrom(repat, opos, pos, ignorecase) == Token(FoldAll(repat[pos..end], ignorecase) + "]", end + 1)
    decreases end - pos
  {
    if pos < end {
      ClassText(repat, opos, pos + 1, end, ignorecase);
      var body := repat[pos..end];
      assert body[1..] == repat[pos + 1..end];
      Joined(Folded(body[0], ignorecase), FoldAll(body[1..], ignorecase), "]");
    } else {
      assert repat[pos..end] == "" && "" + "]" == "]";
    }
  }

  lemma Joined(a: string, b: string, c: string)
    ensures a + (b + c) == (a + b) + c
  {
  }

  // Without ranges a class keeps its meaning: it holds a character exactly when one of its own is the same,
  // in either case when case is ignored.
  lemma {:induction false} ClassMeans(body: string, ignorecase: bool, c: char)
    requires '-' !in body
    ensures InClass(FoldAll(body, ignorecase), c) <==> exists i :: 0 <= i < |body| && Same(body[i], c, ignorecase)
    ensures '-' !in FoldAll(body, ignorecase)
  {
    if |body| > 0 {
      hide FoldAll;
      var d, rest := body[0], body[1..];
      assert body == [d] + rest;
      ClassMeans(rest, ignorecase, c);
      var first, more := Folded(d, ignorecase), FoldAll(rest, ignorecase);
      FoldFirst(body, ignorecase);
      FirstMeans(d, more, ignorecase, c);
      if i :| 0 <= i < |rest| && Same(rest[i], c, ignorecase) { assert body[i + 1] == rest[i]; }
    }
  }

  lemma FoldFirst(body: string, ignorecase: bool)
    requires |body| > 0
    ensures FoldAll(body, ignorecase) == Folded(body[0], ignorecase) + FoldAll(body[1..], ignorecase)
  {
  }

  lemma FirstMeans(d: char, more: string, ignorecase: bool, c: char)
    requires d != '-' && '-' !in more
    ensures InClass(Folded(d, ignorecase) + more, c) <==> Same(d, c, ignorecase) || InClass(more, c)
    ensures '-' !in Folded(d, ignorecase) + more
  {
    if ignorecase && IsAlpha(d) {
      var w := [Lower(d), Upper(d)] + more;
      assert w[1..] == [Upper(d)] + more && w[1..][1..] == more;
    } else {
      assert ([d] + more)[1..] == more;
    }
  }

  // With ranges it may not: ignoring case, "[a-c]" becomes a class with the range from 'A' to 'c', which holds
  // the underscore.
  lemma RangeFolded()
    ensures ClassFrom("[a-c]", 1, 1, true) == Token("aA-cC]", 5)
    ensures InClass("aA-cC", '_') && !InClass("a-c", '_') && !InClass("a-c", Upper('_'))
  {
    var repat := "[a-c]";
    ClassText(repat, 1, 1, 4, true);
    assert repat[1..4] == "a-c";
    assert FoldAll("c", true) == "cC" by { assert "c"[1..] == ""; assert FoldAll("", true) == ""; }
    assert FoldAll("-c", true) == "-cC" by { assert "-c"[1..] == "c"; }
    assert FoldAll("a-c", true) == "aA-cC" by { assert "a-c"[1..] == "-c"; }
    assert "aA-cC"[1..] == "A-cC";
  }

  // ---------- the conversion keeps the meaning ----------

  lemma {:induction false} StarMatch(w: string, s: string)
    ensures Match("*" + w, s) <==> exists k: nat :: k <= |s| && Match(w, s[k..])
  {
    var star := "*" + w;
    assert star[0] == '*' && star[1..] == w;
    assert s[0..] == s;
    if |s| > 0 {
      StarMatch(w, s[1..]);
      if Match(star, s[1..]) {
        var k: nat :| k <= |s[1..]| && Match(w, s[1..][k..]);
        assert s[1..][k..] == s[k + 1..];
      }
      if k: nat :| 0 < k <= |s| && Match(w, s[k..]) {
        assert s[1..][k - 1..] == s[k..];
      }
    }
  }

  predicate Special(c: char) { c in {'*', '?', '[', '\\'} }

  lemma LiteralMatch(c: char, w: string, s: string)
    requires !Special(c)
    ensures Match([c] + w, s) <==> |s| > 0 && s[0] == c && Match(w, s[1..])
  {
    assert ([c] + w)[0] == c && ([c] + w)[1..] == w;
  }

  lemma QuestionMatch(w: string, s: string)
    ensures Match("?" + w, s) <==> |s| > 0 && Match(w, s[1..])
  {
    assert ("?" + w)[0] == '?' && ("?" + w)[1..] == w;
  }

  lemma EscapeMatch(c: char, w: string, s: string)
    ensures Match(['\\', c] + w, s) <==> |s| > 0 && s[0] == c && Match(w, s[1..])
  {
    var e := ['\\', c] + w;
    assert e[0] == '\\' && e[1] == c && e[2..] == w;
  }

  lemma PairMatch(x: char, y: char, w: string, s: string)
    requires IsAlpha(x) && IsAlpha(y)
    ensures Match(['[', x, y, ']'] + w, s) <==> |s| > 0 && (s[0] == x || s[0] == y) && Match(w, s[1..])
  {
    var p := ['[', x, y, ']'] + w;
    assert p[0] == '[' && p[1] == x && p[2] == y && p[3] == ']' && p[4..] == w && p[1..3] == [x, y];
    assert ClassEnd(p, 3) == Some(3);
    assert ClassEnd(p, 2) == Some(3);
    if |s| > 0 {
      assert [x, y][1..] == [y] && [y][1..] == [];
      assert InClass([y], s[0]) <==> s[0] == y;
      assert InClass([x, y], s[0]) <==> s[0] == x || s[0] == y;
    }
  }

  lemma FoldedSame(c: char, d: char)
    ensures IsAlpha(c) ==> (Same(c, d, true) <==> d == Lower(c) || d == Upper(c)) && IsAlpha(Lower(c)) && IsAlpha(Upper(c))
    ensures !IsAlpha(c) ==> (Same(c, d, true) <==> d == c)
  {
  }

  // A wildmat means what a pattern means.
  ghost predicate Agree(w: string, p: Pattern, ignorecase: bool) {
    forall s :: Match(w, s) <==> MatchHere(p, s, ignorecase)
  }

  lemma LitAgrees(c: char, text: string, w: string, p: Pattern, ignorecase: bool)
    requires Agree(w, p, ignorecase)
    requires if ignorecase && IsAlpha(c) then text == ['[', Lower(c), Upper(c), ']']
             else text == ['\\', c] || (text == [c] && !Special(c))
    ensures Agree(text + w, p.(atoms := [Lit(c)] + p.atoms), ignorecase)
  {
    var q := p.(atoms := [Lit(c)] + p.atoms);
    assert q.(atoms := q.atoms[1..]) == p;
    forall s
      ensures Match(text + w, s) <==> MatchHere(q, s, ignorecase)
    {
      if |s| > 0 { FoldedSame(c, s[0]); } else { FoldedSame(c, c); }
      if ignorecase && IsAlpha(c) { PairMatch(Lower(c), Upper(c), w, s); }
      else if text == ['\\', c] { EscapeMatch(c, w, s); }
      else { LiteralMatch(c, w, s); }
    }
  }

  lemma AnyAgrees(w: string, p: Pattern, ignorecase: bool)
    requires Agree(w, p, ignorecase)
    ensures Agree("?" + w, p.(atoms := [Any] + p.atoms), ignorecase)
  {
    var q := p.(atoms := [Any] + p.atoms);
    assert q.(atoms := q.atoms[1..]) == p;
    forall s
      ensures Match("?" + w, s) <==> MatchHere(q, s, ignorecase)
    {
      QuestionMatch(w, s);
    }
  }

  lemma StarAgrees(w: string, p: Pattern, ignorecase: bool)
    requires Agree(w, p, ignorecase)
    ensures Agree("*" + w, p.(atoms := [AnyStar] + p.atoms), ignorecase)
  {
    var q := p.(atoms := [AnyStar] + p.atoms);
    assert q.(atoms := q.atoms[1..]) == p;
    forall s
      ensures Match("*" + w, s) <==> MatchHere(q, s, ignorecase)
    {
      StarMatch(w, s);
    }
  }

  lemma EndsAgree(ignorecase: bool)
    ensures Agree("", Pattern([], true), ignorecase) && Agree("*", Pattern([], false), ignorecase)
  {
    forall s
      ensures Match("*", s)
    {
      StarMatch("", s);
      assert s[|s|..] == "";
      assert "*" + "" == "*";
    }
  }

  // The wildmat for the expression from pos on, when it has a meaning.
  function WildFrom(repat: string, pos: nat, ignorecase: bool): string
    requires pos <= |repat| && Parse(repat, pos).Some?
  {
    if pos == |repat| then "*" else ParsedConverts(repat, pos, ignorecase); ConvertFrom(repat, pos, ignorecase).wildmat
  }

  lemma {:induction false} ParsedConverts(repat: string, pos: nat, ignorecase: bool)
    requires pos < |repat| && Parse(repat, pos).Some?
    ensures ConvertFrom(repat, pos, ignorecase).Ok?
    decreases |repat| - pos
  {
    if !AtEnd(repat, pos) {
      var item := NextItem(repat, pos, ignorecase);
      if item.next < |repat| { ParsedConverts(repat, item.next, ignorecase); }
    }
  }

  // At the '$' that anchors the expression.
  predicate AtEnd(repat: string, pos: nat) { pos + 1 == |repat| && repat[pos] == '$' }

  predicate EscapeAt(repat: string, pos: nat, c: char) {
    pos + 1 < |repat| && repat[pos] == '\\' && repat[pos + 1] == c
  }

  // Every escaped backslash from pos on is followed by the '$' at the end, or by an escaped ']'.
  predicate BackslashesKept(repat: string, pos: nat)
    requires pos <= |repat|
    decreases |repat| - pos
  {
    if pos == |repat| || AtEnd(repat, pos) then true
    else if repat[pos] == '\\' && pos + 1 < |repat| then
      && (repat[pos + 1] == '\\' ==> AtEnd(repat, pos + 2) || EscapeAt(repat, pos + 2, ']'))
      && BackslashesKept(repat, pos + 2)
    else if repat[pos] == '.' && pos + 1 < |repat| && repat[pos + 1] == '*' then BackslashesKept(repat, pos + 2)
    else BackslashesKept(repat, pos + 1)
  }

  // What the item at pos says, when it is not a star.
  function LitAt(repat: string, pos: nat): char
    requires pos < |repat| && (repat[pos] == '\\' ==> pos + 1 < |repat|)
  {
    if repat[pos] == '\\' then repat[pos + 1] else repat[pos]
  }

  // Where the item behind the one at pos starts.
  function NextPos(repat: string, pos: nat): (next: nat)
    requires pos < |repat| && (repat[pos] == '\\' ==> pos + 1 < |repat|)
    ensures pos < next <= |repat|
  {
    if repat[pos] == '\\' || AtomAt(repat, pos).AnyStar? then pos + 2 else pos + 1
  }

  // One item of an expression that has a meaning: its text, its meaning, and the rest.
  lemma OneItem(repat: string, pos: nat, ignorecase: bool)
    requires pos < |repat| && Parse(repat, pos).Some? && !AtEnd(repat, pos)
    ensures repat[pos] == '\\' ==> pos + 1 < |repat|
    ensures NextItem(repat, pos, ignorecase) == Token(TextAt(repat, pos, ignorecase), NextPos(repat, pos))
    ensures var next := NextPos(repat, pos);
      && Parse(repat, next).Some?
      && WildFrom(repat, pos, ignorecase) == TextAt(repat, pos, ignorecase) + WildFrom(repat, next, ignorecase)
      && var p := Parse(repat, next).value;
      && Parse(repat, pos).value == p.(atoms := [AtomAt(repat, pos)] + p.atoms)
      && (BackslashesKept(repat, pos) ==> BackslashesKept(repat, next))
      && (!EscapeAt(repat, pos, '\\') && BackslashesKept(repat, next) ==> BackslashesKept(repat, pos))
  {
    var item := NextItem(repat, pos, ignorecase);
    ParsedConverts(repat, pos, ignorecase);
    if item.next < |repat| { ParsedConverts(repat, item.next, ignorecase); }
  }

  function AtomAt(repat: string, pos: nat): Atom
    requires pos < |repat| && (repat[pos] == '\\' ==> pos + 1 < |repat|)
  {
    if repat[pos] != '.' then Lit(LitAt(repat, pos))
    else if pos + 1 < |repat| && repat[pos + 1] == '*' then AnyStar else Any
  }

  // The text an item with a meaning becomes.
  function TextAt(repat: string, pos: nat, ignorecase: bool): string
    requires pos < |repat| && (repat[pos] == '\\' ==> pos + 1 < |repat|)
  {
    match AtomAt(repat, pos)
    case AnyStar => "*"
    case Any => "?"
    case Lit(c) =>
      if repat[pos] == '\\' then if c in {'*', '?', '[', ']'} then ['\\', c] else [c]
      else if ignorecase && IsAlpha(c) then ['[', Lower(c), Upper(c), ']']
      else [c]
  }

  lemma {:induction false} FromAgrees(repat: string, pos: nat, ignorecase: bool)
    requires pos <= |repat| && Parse(repat, pos).Some? && BackslashesKept(repat, pos)
    ensures Agree(WildFrom(repat, pos, ignorecase), Parse(repat, pos).value, ignorecase)
    decreases |repat| - pos
  {
    hide Agree, WildFrom, Parse, BackslashesKept;
    if pos == |repat| || AtEnd(repat, pos) {
      AtItsEnd(repat, pos, ignorecase);
    } else if EscapeAt(repat, pos, '\\') {
      OneItem(repat, pos, ignorecase);
      BackslashFollowed(repat, pos);
      if AtEnd(repat, pos + 2) {
        BackslashEnds(repat, pos, ignorecase);
      } else {
        OneItem(repat, pos + 2, ignorecase);
        FromAgrees(repat, pos + 4, ignorecase);
        BackslashBracket(WildFrom(repat, pos + 4, ignorecase), Parse(repat, pos + 4).value, ignorecase);
      }
    } else {
      OneItem(repat, pos, ignorecase);
      var next := NextPos(repat, pos);
      FromAgrees(repat, next, ignorecase);
      var w, p := WildFrom(repat, next, ignorecase), Parse(repat, next).value;
      match AtomAt(repat, pos)
      case AnyStar => StarAgrees(w, p, ignorecase);
      case Any => AnyAgrees(w, p, ignorecase);
      case Lit(c) => LitAgrees(c, TextAt(repat, pos, ignorecase), w, p, ignorecase);
    }
  }

  lemma AtItsEnd(repat: string, pos: nat, ignorecase: bool)
    requires pos == |repat| || AtEnd(repat, pos)
    ensures Parse(repat, pos) == Some(Pattern([], pos < |repat|))
    ensures WildFrom(repat, pos, ignorecase) == if pos < |repat| then "" else "*"
    ensures Agree(WildFrom(repat, pos, ignorecase), Parse(repat, pos).value, ignorecase)
    ensures BackslashesKept(repat, pos)
  {
    EndsAgree(ignorecase);
  }

  lemma BackslashFollowed(repat: string, pos: nat)
    requires EscapeAt(repat, pos, '\\') && BackslashesKept(repat, pos)
    ensures AtEnd(repat, pos + 2) || EscapeAt(repat, pos + 2, ']')
  {
  }

  // A backslash at the end of a wildmat stands for itself.
  lemma BackslashEnds(repat: string, pos: nat, ignorecase: bool)
    requires EscapeAt(repat, pos, '\\') && AtEnd(repat, pos + 2)
    ensures Parse(repat, pos) == Some(Pattern([Lit('\\')], true)) && WildFrom(repat, pos, ignorecase) == "\\"
    ensures Agree("\\", Pattern([Lit('\\')], true), ignorecase)
  {
    var p := Pattern([Lit('\\')], true);
    AtItsEnd(repat, pos + 2, ignorecase);
    assert [Lit('\\')] + Pattern([], true).atoms == [Lit('\\')];
    assert After(Lit('\\'), Parse(repat, pos + 2)) == Some(p);
    assert Parse(repat, pos) == Some(p);
    assert NextItem(repat, pos, ignorecase) == Token("\\", pos + 2);
    assert ConvertFrom(repat, pos + 2, ignorecase) == Ok("");
    assert "\\" + "" == "\\";
    assert p.(atoms := p.atoms[1..]) == Pattern([], true);
    forall s
      ensures Match("\\", s) <==> MatchHere(p, s, ignorecase)
    {
      if |s| > 0 { FoldedSame('\\', s[0]); }
    }
  }

  lemma BackslashBracket(w: string, p: Pattern, ignorecase: bool)
    requires Agree(w, p, ignorecase)
    ensures Agree("\\" + ("\\]" + w), p.(atoms := [Lit('\\')] + ([Lit(']')] + p.atoms)), ignorecase)
  {
    hide Agree;
    LitAgrees(']', "]", w, p, ignorecase);
    LitAgrees('\\', "\\\\", "]" + w, p.(atoms := [Lit(']')] + p.atoms), ignorecase);
    assert "\\" + ("\\]" + w) == "\\\\" + ("]" + w);
  }

  predicate Anchored(repat: string) { |repat| > 0 && repat[0] == '^' }

  function Start(repat: string): nat { if Anchored(repat) then 1 else 0 }

  function ParseAll(repat: string): Option<Pattern> {
    Parse(repat, Start(repat))
  }

  lemma ConvertIs(repat: string, ignorecase: bool)
    requires ParseAll(repat).Some? && repat != "^"
    ensures Convert(repat, ignorecase)
         == Ok(if Anchored(repat) then WildFrom(repat, 1, ignorecase)
               else if repat == "" then "*" else "*" + WildFrom(repat, 0, ignorecase))
  {
    if repat != "" { ParsedConverts(repat, Start(repat), ignorecase); }
  }

  ghost predicate KeepsMeaning(repat: string, ignorecase: bool)
    requires ParseAll(repat).Some? && Convert(repat, ignorecase).Ok?
  {
    forall s :: Match(Convert(repat, ignorecase).wildmat, s) <==> Finds(ParseAll(repat).value, Anchored(repat), s, ignorecase)
  }

  // For every expression of literals, '.', '.*', escaped punctuation, and anchors at the ends: the
  // wildmat matches a string exactly when the expression finds a match in it, unless the expression is
  // '^' alone, or it has an escaped backslash followed by anything but the '$' at the end or an
  // escaped ']'.
  lemma ConvertKeepsMeaning(repat: string, ignorecase: bool)
    requires ParseAll(repat).Some?
    ensures Convert(repat, ignorecase).Ok?
    ensures KeepsMeaning(repat, ignorecase) <==> repat != "^" && BackslashesKept(repat, Start(repat))
  {
    hide MatchHere, Match, BackslashesKept, WildFrom, Parse;
    if repat == "^" {
      CaretAlone(ignorecase);
    } else {
      ConvertIs(repat, ignorecase);
      if BackslashesKept(repat, Start(repat)) {
        MeaningKept(repat, ignorecase);
      } else {
        var s := BackslashLost(repat, ignorecase);
      }
    }
  }

  lemma MeaningKept(repat: string, ignorecase: bool)
    requires ParseAll(repat).Some? && repat != "^" && BackslashesKept(repat, Start(repat))
    requires Convert(repat, ignorecase).Ok?
    ensures KeepsMeaning(repat, ignorecase)
  {
    hide MatchHere, Match, BackslashesKept, WildFrom, Parse, Convert;
    ConvertIs(repat, ignorecase);
    FromAgrees(repat, Start(repat), ignorecase);
    var p := ParseAll(repat).value;
    if repat == "" {
      EmptyConverts(ignorecase);
      AtItsEnd(repat, 0, ignorecase);
    } else if !Anchored(repat) {
      forall s
        ensures Match(Convert(repat, ignorecase).wildmat, s) <==> Finds(p, false, s, ignorecase)
      {
        StarMatch(WildFrom(repat, 0, ignorecase), s);
      }
    }
  }

  lemma EmptyConverts(ignorecase: bool)
    ensures forall s :: Match("*", s) && Finds(Pattern([], false), false, s, ignorecase)
  {
    EndsAgree(ignorecase);
    forall s
      ensures Finds(Pattern([], false), false, s, ignorecase)
    {
      assert MatchHere(Pattern([], false), s[0..], ignorecase);
    }
  }

  // '^' becomes the empty wildmat, which matches only the empty string.
  lemma CaretAlone(ignorecase: bool)
    ensures Convert("^", ignorecase) == Ok("") && ParseAll("^") == Some(Pattern([], false))
    ensures !Match("", "a") && Finds(Pattern([], false), true, "a", ignorecase)
  {
  }

  // ---------- a backslash that is lost ----------

  // Every string an expression finds weighs at least as much as the expression.  A lost backslash makes
  // the lightest string of the wildmat lighter.

  function Weight(s: string): nat {
    if |s| == 0 then 0 else CharWeight(s[0]) + Weight(s[1..])
  }

  function CharWeight(c: char): nat {
    if c == '[' then 3 else if c == '\\' || c == '?' then 2 else 1
  }

  function PatternWeight(atoms: seq<Atom>): nat {
    if |atoms| == 0 then 0 else AtomWeight(atoms[0]) + PatternWeight(atoms[1..])
  }

  function AtomWeight(a: Atom): nat {
    match a
    case Lit(c) => CharWeight(c)
    case Any => 1
    case AnyStar => 0
  }

  predicate NoLower(s: string) { forall i :: 0 <= i < |s| ==> !IsLower(s[i]) }

  lemma {:induction false} SuffixWeight(s: string, k: nat)
    requires k <= |s|
    ensures Weight(s[k..]) <= Weight(s)
  {
    if k > 0 {
      SuffixWeight(s[1..], k - 1);
      assert s[1..][k - 1..] == s[k..];
    } else {
      assert s[0..] == s;
    }
  }

  lemma {:induction false} MatchWeight(p: Pattern, s: string, ignorecase: bool)
    requires MatchHere(p, s, ignorecase)
    ensures Weight(s) >= PatternWeight(p.atoms)
    decreases |p.atoms|
  {
    if |p.atoms| > 0 {
      var rest := p.(atoms := p.atoms[1..]);
      match p.atoms[0]
      case Lit(c) =>
        FoldedSame(c, s[0]);
        MatchWeight(rest, s[1..], ignorecase);
      case Any => MatchWeight(rest, s[1..], ignorecase);
      case AnyStar =>
        var k: nat :| k <= |s| && MatchHere(rest, s[k..], ignorecase);
        MatchWeight(rest, s[k..], ignorecase);
        SuffixWeight(s, k);
    }
  }

  // The lightest string, without small letters when case is ignored.
  lemma {:induction false} Lightest(p: Pattern, ignorecase: bool) returns (s: string)
    ensures MatchHere(p, s, ignorecase)
    ensures ignorecase ==> NoLower(s)
    decreases |p.atoms|
  {
    if |p.atoms| == 0 {
      s := "";
    } else {
      var rest := p.(atoms := p.atoms[1..]);
      s := Lightest(rest, ignorecase);
      match p.atoms[0]
      case Lit(c) =>
        var x := if ignorecase then Upper(c) else c;
        FoldedSame(c, x);
        assert ([x] + s)[1..] == s;
        s := [x] + s;
      case Any =>
        assert ("!" + s)[1..] == s;
        s := "!" + s;
      case AnyStar => assert s[0..] == s;
    }
  }

  // If a wildmat that starts with a class matches, then so does it with the same first character and
  // any string the rest matches.
  lemma ClassStep(w: string, s: string) returns (end: nat)
    requires |w| > 0 && w[0] == '[' && Match(w, s)
    ensures |s| > 0 && 0 < end < |w| && w[end] == ']' && Match(w[end + 1..], s[1..])
    ensures forall u :: Match(w[end + 1..], u) ==> Match(w, [s[0]] + u)
  {
    var start := if |w| > 1 && w[1] == '^' then 2 else 1;
    end := ClassEnd(w, start + 1).value;
    ClassEndIs(w, start + 1);
    forall u | Match(w[end + 1..], u)
      ensures Match(w, [s[0]] + u)
    {
      assert ([s[0]] + u)[1..] == u;
    }
  }

  lemma {:induction false} ClassEndIs(w: string, i: nat)
    ensures ClassEnd(w, i).Some? ==> i <= ClassEnd(w, i).value < |w| && w[ClassEnd(w, i).value] == ']'
    decreases |w| - i
  {
    if i < |w| { ClassEndIs(w, i + 1); }
  }

  // A ']' in the wildmat is the end of an item, and not of a star.
  lemma {:induction false} BracketEndsItem(repat: string, pos: nat, ignorecase: bool, e: nat) returns (next: nat)
    requires pos <= |repat| && Parse(repat, pos).Some?
    requires e < |WildFrom(repat, pos, ignorecase)| && WildFrom(repat, pos, ignorecase)[e] == ']'
    ensures pos < next <= |repat| && Parse(repat, next).Some?
    ensures WildFrom(repat, pos, ignorecase)[e + 1..] == WildFrom(repat, next, ignorecase)
    ensures PatternWeight(Parse(repat, pos).value.atoms) > PatternWeight(Parse(repat, next).value.atoms)
    decreases |repat| - pos
  {
    hide WildFrom, Parse;
    if pos == |repat| || AtEnd(repat, pos) {
      AtItsEnd(repat, pos, ignorecase);
      assert false;
    } else {
      OneItem(repat, pos, ignorecase);
      var text, w := TextAt(repat, pos, ignorecase), WildFrom(repat, pos, ignorecase);
      next := NextPos(repat, pos);
      var rest := WildFrom(repat, next, ignorecase);
      var atoms := Parse(repat, pos).value.atoms;
      assert atoms[1..] == Parse(repat, next).value.atoms;
      if e < |text| {
        assert w[e] == text[e] && e == |text| - 1;
        assert w[e + 1..] == rest;
      } else {
        assert w[e] == rest[e - |text|];
        assert w[e + 1..] == rest[e - |text| + 1..];
        next := BracketEndsItem(repat, next, ignorecase, e - |text|);
      }
    }
  }

  // Whenever the wildmat matches a string, without small letters if case is ignored, it matches one no
  // heavier than the expression, and lighter if a backslash is lost.
  ghost predicate Light(repat: string, pos: nat, ignorecase: bool, u: string)
    requires pos <= |repat| && Parse(repat, pos).Some?
  {
    && Match(WildFrom(repat, pos, ignorecase), u)
    && Weight(u) <= PatternWeight(Parse(repat, pos).value.atoms)
    && (!BackslashesKept(repat, pos) ==> Weight(u) < PatternWeight(Parse(repat, pos).value.atoms))
  }

  lemma {:induction false} Lighter(repat: string, pos: nat, ignorecase: bool, t: string) returns (u: string)
    requires pos <= |repat| && Parse(repat, pos).Some?
    requires Match(WildFrom(repat, pos, ignorecase), t) && (ignorecase ==> NoLower(t))
    ensures Light(repat, pos, ignorecase, u)
    decreases |repat| - pos, 1
  {
    hide WildFrom, Parse, Match, BackslashesKept, Light, TextAt;
    if pos == |repat| || AtEnd(repat, pos) {
      u := LightEnd(repat, pos, ignorecase);
    } else {
      OneItem(repat, pos, ignorecase);
      var next := NextPos(repat, pos);
      var w := WildFrom(repat, next, ignorecase);
      match AtomAt(repat, pos)
      case AnyStar =>
        TextIs(repat, pos, ignorecase);
        StarMatch(w, t);
        var k: nat :| k <= |t| && Match(w, t[k..]);
        u := Lighter(repat, next, ignorecase, t[k..]);
        LightStar(repat, pos, ignorecase, u);
      case Any =>
        TextIs(repat, pos, ignorecase);
        QuestionMatch(w, t);
        u := Lighter(repat, next, ignorecase, t[1..]);
        LightAny(repat, pos, ignorecase, u);
        u := "!" + u;
      case Lit(c) =>
        if EscapeAt(repat, pos, '\\') {
          u := LighterBackslash(repat, pos, ignorecase, t);
        } else {
          LitText(repat, pos, ignorecase, w, t);
          u := Lighter(repat, next, ignorecase, t[1..]);
          LightLit(repat, pos, ignorecase, t, u);
          u := [t[0]] + u;
        }
    }
  }

  lemma TextIs(repat: string, pos: nat, ignorecase: bool)
    requires pos < |repat| && (repat[pos] == '\\' ==> pos + 1 < |repat|)
    ensures AtomAt(repat, pos).AnyStar? ==> TextAt(repat, pos, ignorecase) == "*"
    ensures AtomAt(repat, pos).Any? ==> TextAt(repat, pos, ignorecase) == "?"
  {
  }

  lemma LightEnd(repat: string, pos: nat, ignorecase: bool) returns (u: string)
    requires pos <= |repat| && Parse(repat, pos).Some? && (pos == |repat| || AtEnd(repat, pos))
    ensures Light(repat, pos, ignorecase, u)
  {
    hide WildFrom, Parse, Match, BackslashesKept;
    AtItsEnd(repat, pos, ignorecase);
    u := "";
    EndsAgree(ignorecase);
    EmptyMatches();
  }

  lemma LightStar(repat: string, pos: nat, ignorecase: bool, u: string)
    requires pos < |repat| && Parse(repat, pos).Some? && !AtEnd(repat, pos)
    requires (repat[pos] == '\\' ==> pos + 1 < |repat|) && AtomAt(repat, pos).AnyStar?
    requires Parse(repat, NextPos(repat, pos)).Some? && Light(repat, NextPos(repat, pos), ignorecase, u)
    ensures Light(repat, pos, ignorecase, u)
  {
    hide WildFrom, Parse, Match, BackslashesKept;
    OneItem(repat, pos, ignorecase);
    assert Parse(repat, pos).value.atoms[1..] == Parse(repat, NextPos(repat, pos)).value.atoms;
    StarAlso(WildFrom(repat, NextPos(repat, pos), ignorecase), u);
  }

  lemma LightAny(repat: string, pos: nat, ignorecase: bool, u: string)
    requires pos < |repat| && Parse(repat, pos).Some? && !AtEnd(repat, pos)
    requires (repat[pos] == '\\' ==> pos + 1 < |repat|) && AtomAt(repat, pos).Any?
    requires Parse(repat, NextPos(repat, pos)).Some? && Light(repat, NextPos(repat, pos), ignorecase, u)
    ensures Light(repat, pos, ignorecase, "!" + u)
  {
    hide WildFrom, Parse, Match, BackslashesKept;
    OneItem(repat, pos, ignorecase);
    assert Parse(repat, pos).value.atoms[1..] == Parse(repat, NextPos(repat, pos)).value.atoms;
    WeightCons('!', u);
    QuestionMatch(WildFrom(repat, NextPos(repat, pos), ignorecase), "!" + u);
  }

  lemma LightLit(repat: string, pos: nat, ignorecase: bool, t: string, u: string)
    requires pos < |repat| && Parse(repat, pos).Some? && !AtEnd(repat, pos)
    requires (repat[pos] == '\\' ==> pos + 1 < |repat|) && AtomAt(repat, pos).Lit? && !EscapeAt(repat, pos, '\\')
    requires Match(WildFrom(repat, pos, ignorecase), t) && |t| > 0
    requires Parse(repat, NextPos(repat, pos)).Some? && Light(repat, NextPos(repat, pos), ignorecase, u)
    ensures Light(repat, pos, ignorecase, [t[0]] + u)
  {
    hide WildFrom, Parse, Match, BackslashesKept, TextAt;
    OneItem(repat, pos, ignorecase);
    var w := WildFrom(repat, NextPos(repat, pos), ignorecase);
    assert Parse(repat, pos).value.atoms[1..] == Parse(repat, NextPos(repat, pos)).value.atoms;
    LitText(repat, pos, ignorecase, w, t);
    WeightCons(t[0], u);
    LitText(repat, pos, ignorecase, w, [t[0]] + u);
  }

  lemma EmptyMatches()
    ensures Match("", "") && Match("*", "")
  {
    assert "*"[1..] == "";
  }

  lemma StarAlso(w: string, u: string)
    requires Match(w, u)
    ensures Match("*" + w, u)
  {
    StarMatch(w, u);
    assert u[0..] == u;
  }

  lemma WeightCons(c: char, u: string)
    ensures Weight([c] + u) == CharWeight(c) + Weight(u) && ([c] + u)[0] == c && ([c] + u)[1..] == u
  {
  }

  // The text of an item that is no backslash matches one character, as heavy as the item.
  lemma LitText(repat: string, pos: nat, ignorecase: bool, w: string, s: string)
    requires pos < |repat| && Parse(repat, pos).Some? && !AtEnd(repat, pos)
    requires (repat[pos] == '\\' ==> pos + 1 < |repat|) && AtomAt(repat, pos).Lit? && !EscapeAt(repat, pos, '\\')
    ensures Match(TextAt(repat, pos, ignorecase) + w, s)
        <==> |s| > 0 && Same(LitAt(repat, pos), s[0], ignorecase) && Match(w, s[1..])
    ensures Match(TextAt(repat, pos, ignorecase) + w, s) ==> CharWeight(s[0]) == CharWeight(LitAt(repat, pos))
  {
    hide Match;
    var c := LitAt(repat, pos);
    if |s| > 0 { FoldedSame(c, s[0]); } else { FoldedSame(c, c); }
    if TextAt(repat, pos, ignorecase) == ['\\', c] { EscapeMatch(c, w, s); }
    else if ignorecase && IsAlpha(c) && repat[pos] != '\\' { PairMatch(Lower(c), Upper(c), w, s); }
    else { LiteralMatch(c, w, s); }
  }

  // The case of an escaped backslash: it escapes the first character of what follows.
  lemma {:induction false} LighterBackslash(repat: string, pos: nat, ignorecase: bool, t: string) returns (u: string)
    requires pos <= |repat| && Parse(repat, pos).Some? && EscapeAt(repat, pos, '\\')
    requires Match(WildFrom(repat, pos, ignorecase), t) && (ignorecase ==> NoLower(t))
    ensures Light(repat, pos, ignorecase, u)
    decreases |repat| - pos, 0
  {
    hide WildFrom, Parse, Match, BackslashesKept, Light, TextAt;
    if pos + 2 == |repat| || AtEnd(repat, pos + 2) {
      u := LighterAtEnd(repat, pos, ignorecase);
    } else {
      EscapeSplits(repat, pos, ignorecase);
      var next := NextPos(repat, pos + 2);
      var rest := WildFrom(repat, next, ignorecase);
      var text := TextAt(repat, pos + 2, ignorecase);
      EscapeMatch(text[0], text[1..] + rest, t);
      if |text| == 1 {
        assert text[1..] + rest == rest;
        u := Lighter(repat, next, ignorecase, t[1..]);
        EscapedOne(repat, pos, ignorecase, u);
        u := text + u;
      } else {
        u := LighterPair(repat, pos + 2, next, ignorecase, t[1..]);
        EscapedPair(repat, pos, ignorecase, u);
        u := [text[0]] + u;
      }
    }
  }

  // Nothing follows, or the end does.
  lemma LighterAtEnd(repat: string, pos: nat, ignorecase: bool) returns (u: string)
    requires pos <= |repat| && Parse(repat, pos).Some? && EscapeAt(repat, pos, '\\')
    requires pos + 2 == |repat| || AtEnd(repat, pos + 2)
    ensures Light(repat, pos, ignorecase, u)
  {
    hide Match, Parse, WildFrom, BackslashesKept;
    OneItem(repat, pos, ignorecase);
    Atoms(repat, pos, ignorecase);
    AtItsEnd(repat, pos + 2, ignorecase);
    EmptyMatches();
    assert NextPos(repat, pos) == pos + 2 && TextAt(repat, pos, ignorecase) == "\\";
    if pos + 2 == |repat| {
      assert "\\" + "*" == ['\\', '*'] + "";
      u := "*";
      assert u[0] == '*' && u[1..] == "";
      EscapeMatch('*', "", u);
      WeightCons('*', "");
      assert ['*'] + "" == u && ['\\', '*'] + "" == "\\*";
    } else {
      assert "\\" + "" == "\\";
      KeptAtEnd(repat, pos);
      u := "\\";
      OneBackslash();
      WeightCons('\\', "");
      assert ['\\'] + "" == u;
    }
  }

  // The wildmat of an escaped backslash and the item behind it, and what the two weigh.
  lemma EscapeSplits(repat: string, pos: nat, ignorecase: bool)
    requires pos <= |repat| && Parse(repat, pos).Some? && EscapeAt(repat, pos, '\\')
    requires !(pos + 2 == |repat| || AtEnd(repat, pos + 2))
    ensures Parse(repat, pos + 2).Some? && (repat[pos + 2] == '\\' ==> pos + 3 < |repat|)
    ensures var next, text := NextPos(repat, pos + 2), TextAt(repat, pos + 2, ignorecase);
      && pos + 2 < next <= |repat| && Parse(repat, next).Some? && |text| > 0
      && WildFrom(repat, pos, ignorecase) == ['\\', text[0]] + (text[1..] + WildFrom(repat, next, ignorecase))
      && PatternWeight(Parse(repat, pos).value.atoms)
         == 2 + AtomWeight(AtomAt(repat, pos + 2)) + PatternWeight(Parse(repat, next).value.atoms)
  {
    hide WildFrom, Parse, BackslashesKept;
    OneItem(repat, pos, ignorecase);
    Atoms(repat, pos, ignorecase);
    OneItem(repat, pos + 2, ignorecase);
    Atoms(repat, pos + 2, ignorecase);
    var text, rest := TextAt(repat, pos + 2, ignorecase), WildFrom(repat, NextPos(repat, pos + 2), ignorecase);
    assert "\\" + (text + rest) == ['\\', text[0]] + (text[1..] + rest);
  }

  lemma EscapedOne(repat: string, pos: nat, ignorecase: bool, u: string)
    requires pos <= |repat| && Parse(repat, pos).Some? && EscapeAt(repat, pos, '\\')
    requires !(pos + 2 == |repat| || AtEnd(repat, pos + 2))
    requires (repat[pos + 2] == '\\' ==> pos + 3 < |repat|) && |TextAt(repat, pos + 2, ignorecase)| == 1
    requires var next := NextPos(repat, pos + 2);
      next <= |repat| && Parse(repat, next).Some? && Light(repat, next, ignorecase, u)
    ensures Light(repat, pos, ignorecase, TextAt(repat, pos + 2, ignorecase) + u)
  {
    hide WildFrom, Parse, BackslashesKept, Match;
    EscapeSplits(repat, pos, ignorecase);
    var text, rest := TextAt(repat, pos + 2, ignorecase), WildFrom(repat, NextPos(repat, pos + 2), ignorecase);
    assert text[1..] + rest == rest && text == [text[0]];
    WeightCons(text[0], u);
    EscapeMatch(text[0], rest, [text[0]] + u);
  }

  lemma EscapedPair(repat: string, pos: nat, ignorecase: bool, u: string)
    requires pos <= |repat| && Parse(repat, pos).Some? && EscapeAt(repat, pos, '\\')
    requires !(pos + 2 == |repat| || AtEnd(repat, pos + 2))
    requires Parse(repat, pos + 2).Some? && (repat[pos + 2] == '\\' ==> pos + 3 < |repat|)
    requires |TextAt(repat, pos + 2, ignorecase)| > 1
    requires var next := NextPos(repat, pos + 2);
      next <= |repat| && Parse(repat, next).Some? && LightPair(repat, pos + 2, next, ignorecase, u)
    ensures Light(repat, pos, ignorecase, [TextAt(repat, pos + 2, ignorecase)[0]] + u)
  {
    hide WildFrom, Parse, BackslashesKept, Match;
    EscapeSplits(repat, pos, ignorecase);
    var text, rest := TextAt(repat, pos + 2, ignorecase), WildFrom(repat, NextPos(repat, pos + 2), ignorecase);
    WeightCons(text[0], u);
    EscapeMatch(text[0], text[1..] + rest, [text[0]] + u);
    if EscapeAt(repat, pos + 2, ']') { KeptBracket(repat, pos); }
  }

  lemma Atoms(repat: string, pos: nat, ignorecase: bool)
    requires pos < |repat| && Parse(repat, pos).Some? && !AtEnd(repat, pos)
    ensures repat[pos] == '\\' ==> pos + 1 < |repat|
    ensures var next := NextPos(repat, pos);
      && next <= |repat| && Parse(repat, next).Some?
      && PatternWeight(Parse(repat, pos).value.atoms) == AtomWeight(AtomAt(repat, pos)) + PatternWeight(Parse(repat, next).value.atoms)
  {
    hide Parse;
    OneItem(repat, pos, ignorecase);
    var next := NextPos(repat, pos);
    assert Parse(repat, pos).value.atoms[1..] == Parse(repat, next).value.atoms;
  }

  lemma OneBackslash()
    ensures Match("\\", "\\")
  {
    assert "\\"[1..] == "";
  }

  lemma KeptAtEnd(repat: string, pos: nat)
    requires EscapeAt(repat, pos, '\\') && AtEnd(repat, pos + 2)
    ensures BackslashesKept(repat, pos)
  {
  }

  lemma KeptBracket(repat: string, pos: nat)
    requires EscapeAt(repat, pos, '\\') && EscapeAt(repat, pos + 2, ']')
    ensures BackslashesKept(repat, pos + 4) ==> BackslashesKept(repat, pos)
  {
    if BackslashesKept(repat, pos + 4) { assert BackslashesKept(repat, pos + 2); }
  }

  // u is what the wildmat matches when the first character of the item at pos has been escaped.
  ghost predicate LightPair(repat: string, pos: nat, next: nat, ignorecase: bool, u: string)
    requires pos < |repat| && (repat[pos] == '\\' ==> pos + 1 < |repat|) && |TextAt(repat, pos, ignorecase)| > 1
    requires next <= |repat| && Parse(repat, next).Some?
  {
    var rest := PatternWeight(Parse(repat, next).value.atoms);
    && Match(TextAt(repat, pos, ignorecase)[1..] + WildFrom(repat, next, ignorecase), u)
    && repat[pos] == '\\' && TextAt(repat, pos, ignorecase)[0] == '\\'
    && (if EscapeAt(repat, pos, ']')
        then Weight(u) <= 1 + rest && (!BackslashesKept(repat, next) ==> Weight(u) < 1 + rest)
        else Weight(u) < CharWeight(LitAt(repat, pos)) + rest)
  }

  lemma PairOpened(c: char, text: string, rest: string, t: string)
    requires IsAlpha(c) && text == ['[', Lower(c), Upper(c), ']'] && Match(text[1..] + rest, t)
    ensures !NoLower(t)
  {
    hide Match;
    assert text[1..] + rest == [Lower(c)] + ([Upper(c), ']'] + rest);
    LiteralMatch(Lower(c), [Upper(c), ']'] + rest, t);
    assert IsLower(t[0]);
  }

  // What follows an escaped backslash has more than one character, and the first one has been escaped:
  // the second of "\\*", "\\?", "\\[" or "\\]" is now special, and a letter pair has lost its brackets' meaning.
  lemma {:induction false} LighterPair(repat: string, pos: nat, next: nat, ignorecase: bool, t: string) returns (u: string)
    requires pos < |repat| && Parse(repat, pos).Some? && !AtEnd(repat, pos)
    requires (repat[pos] == '\\' ==> pos + 1 < |repat|) && |TextAt(repat, pos, ignorecase)| > 1
    requires next == NextPos(repat, pos) && pos < next <= |repat| && Parse(repat, next).Some?
    requires Match(TextAt(repat, pos, ignorecase)[1..] + WildFrom(repat, next, ignorecase), t) && (ignorecase ==> NoLower(t))
    ensures LightPair(repat, pos, next, ignorecase, u)
    decreases |repat| - pos, 1
  {
    hide WildFrom, Parse, Match, BackslashesKept;
    var rest := WildFrom(repat, next, ignorecase);
    var c := LitAt(repat, pos);
    var text := TextAt(repat, pos, ignorecase);
    if repat[pos] != '\\' {
      PairOpened(c, text, rest, t);
      assert false;
    } else {
      assert text[1..] == [c];
      match c
      case '*' =>
        StarMatch(rest, t);
        var k: nat :| k <= |t| && Match(rest, t[k..]);
        u := Lighter(repat, next, ignorecase, t[k..]);
        StarAlso(rest, u);
      case '?' =>
        QuestionMatch(rest, t);
        u := Lighter(repat, next, ignorecase, t[1..]);
        WeightCons('!', u);
        QuestionMatch(rest, "!" + u);
        u := "!" + u;
      case ']' =>
        LiteralMatch(']', rest, t);
        u := Lighter(repat, next, ignorecase, t[1..]);
        WeightCons(']', u);
        LiteralMatch(']', rest, "]" + u);
        u := "]" + u;
      case '[' =>
        var w := "[" + rest;
        var end := ClassStep(w, t);
        assert rest[end - 1] == w[end] && w[end + 1..] == rest[end - 1 + 1..];
        var after := BracketEndsItem(repat, next, ignorecase, end - 1);
        u := Lighter(repat, after, ignorecase, t[1..]);
        WeightCons(t[0], u);
        u := [t[0]] + u;
    }
  }

  // A string that tells the wildmat from the expression: the lightest one the expression finds, or a
  // lighter one the wildmat matches.
  lemma BackslashLost(repat: string, ignorecase: bool) returns (s: string)
    requires ParseAll(repat).Some? && repat != "^" && !BackslashesKept(repat, Start(repat))
    requires Convert(repat, ignorecase).Ok?
    ensures Match(Convert(repat, ignorecase).wildmat, s) <==> !Finds(ParseAll(repat).value, Anchored(repat), s, ignorecase)
  {
    hide WildFrom, Parse, Match, MatchHere, BackslashesKept, Convert;
    ConvertIs(repat, ignorecase);
    var start, p := Start(repat), ParseAll(repat).value;
    s := Lightest(p, ignorecase);
    FoundAt(p, Anchored(repat), s, ignorecase);
    var w := WildFrom(repat, start, ignorecase);
    assert repat != "" by { if repat == "" { AtItsEnd(repat, 0, ignorecase); } }
    if Match(Convert(repat, ignorecase).wildmat, s) {
      var k: nat := 0;
      assert s[0..] == s;
      if !Anchored(repat) {
        StarMatch(w, s);
        k :| k <= |s| && Match(w, s[k..]);
      }
      s := Lighter(repat, start, ignorecase, s[k..]);
      StarAlso(w, s);
      if Finds(p, Anchored(repat), s, ignorecase) {
        FoundWeight(p, Anchored(repat), s, ignorecase);
      }
    }
  }

  lemma FoundAt(p: Pattern, anchored: bool, s: string, ignorecase: bool)
    requires MatchHere(p, s, ignorecase)
    ensures Finds(p, anchored, s, ignorecase)
  {
    assert s[0..] == s;
  }

  lemma FoundWeight(p: Pattern, anchored: bool, s: string, ignorecase: bool)
    requires Finds(p, anchored, s, ignorecase)
    ensures Weight(s) >= PatternWeight(p.atoms)
  {
    hide MatchHere;
    var k: nat := 0;
    assert s[0..] == s;
    if !anchored { k :| k <= |s| && MatchHere(p, s[k..], ignorecase); }
    MatchWeight(p, s[k..], ignorecase);
    SuffixWeight(s, k);
  }
}
