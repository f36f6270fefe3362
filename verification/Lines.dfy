// Lines of text and the tokens in them.
module Lines {

  // ---------- lines ----------

  function LineEnd(s: string): (n: nat)
    ensures n <= |s|
  {
    if |s| == 0 || s[0] == '\n' then 0 else 1 + LineEnd(s[1..])
  }

  // The first line of s, without its end, and what follows it.
  function RawLine(s: string): string {
    s[..LineEnd(s)]
  }

  function AfterLine(s: string): string {
    if LineEnd(s) < |s| then s[LineEnd(s) + 1..] else ""
  }

  lemma {:induction false} LineEndIs(line: string, rest: string)
    requires '\n' !in line && (|rest| == 0 || rest[0] == '\n')
    ensures LineEnd(line + rest) == |line|
  {
    if |line| > 0 {
      assert (line + rest)[1..] == line[1..] + rest;
      LineEndIs(line[1..], rest);
    }
  }

  lemma LineSplit(line: string, rest: string)
    requires '\n' !in line && (|rest| == 0 || rest[0] == '\n')
    ensures RawLine(line + rest) == line
    ensures AfterLine(line + rest) == if |rest| == 0 then "" else rest[1..]
  {
    LineEndIs(line, rest);
    assert (line + rest)[..|line|] == line;
    if |rest| > 0 { assert (line + rest)[|line| + 1..] == rest[1..]; }
  }

  lemma AfterShorter(s: string)
    requires |s| > 0
    ensures |AfterLine(s)| < |s|
  {
  }

  // Carriage returns are dropped wherever they are.
  function NoCr(s: string): string {
    if |s| == 0 then "" else NoCr(s[..|s| - 1]) + (if s[|s| - 1] == '\r' then "" else [s[|s| - 1]])
  }

  lemma {:induction false} NoCrNone(s: string)
    requires '\r' !in s
    ensures NoCr(s) == s
  {
    if |s| > 0 {
      NoCrNone(s[..|s| - 1]);
      assert s == s[..|s| - 1] + [s[|s| - 1]];
    }
  }

  // A carriage return anywhere makes no difference, and none is left.
  lemma {:induction false} NoCrDrops(a: string, b: string)
    ensures NoCr(a + "\r" + b) == NoCr(a + b) && '\r' !in NoCr(b)
  {
    if |b| == 0 {
      assert a + "\r" + b == a + "\r" && a + b == a;
      NoCrMore(a, '\r');
    } else {
      var n := |b| - 1;
      assert a + "\r" + b == (a + "\r" + b[..n]) + [b[n]] && a + b == (a + b[..n]) + [b[n]];
      NoCrDrops(a, b[..n]);
      NoCrMore(a + "\r" + b[..n], b[n]);
      NoCrMore(a + b[..n], b[n]);
    }
  }

  lemma NoCrMore(s: string, c: char)
    ensures NoCr(s + [c]) == if c == '\r' then NoCr(s) else NoCr(s) + [c]
  {
    assert (s + [c])[..|s|] == s;
    assert NoCr(s) + "" == NoCr(s);
  }

  // ---------- tokens ----------

  // The pieces of s between separators.
  function Split(s: string, tok: char): (r: seq<string>)
    ensures |r| > 0
  {
    if |s| == 0 then [""]
    else
      var r := Split(s[..|s| - 1], tok);
      var c := s[|s| - 1];
      if c == tok then r + [""] else r[|r| - 1 := r[|r| - 1] + [c]]
  }

  function Join(fs: seq<string>, tok: char): string {
    if |fs| == 0 then "" else if |fs| == 1 then fs[0] else Join(fs[..|fs| - 1], tok) + [tok] + fs[|fs| - 1]
  }

  lemma {:induction false} SplitMore(s: string, f: string, tok: char)
    requires tok !in f
    ensures var r := Split(s, tok); Split(s + f, tok) == r[|r| - 1 := r[|r| - 1] + f]
  {
    hide Split;
    var r := Split(s, tok);
    if |f| == 0 {
      assert s + f == s;
      assert r[|r| - 1] + f == r[|r| - 1];
    } else {
      var n := |f| - 1;
      SplitMore(s, f[..n], tok);
      assert f[..n] + [f[n]] == f;
      assert s + f == (s + f[..n]) + [f[n]];
      SplitOne(s + f[..n], f[n], tok);
      assert (r[|r| - 1] + f[..n]) + [f[n]] == r[|r| - 1] + f;
    }
  }

  // Splitting undoes joining.
  lemma {:induction false} SplitJoin(fs: seq<string>, tok: char)
    requires |fs| > 0 && forall k :: 0 <= k < |fs| ==> tok !in fs[k]
    ensures Split(Join(fs, tok), tok) == fs
  {
    var n := |fs| - 1;
    if n == 0 {
      SplitMore("", fs[0], tok);
      assert "" + fs[0] == fs[0] && fs == [fs[0]];
    } else {
      var front := Join(fs[..n], tok);
      SplitJoin(fs[..n], tok);
      assert (front + [tok])[..|front|] == front;
      SplitMore(front + [tok], fs[n], tok);
      assert fs == fs[..n] + [fs[n]] && "" + fs[n] == fs[n];
    }
  }

  lemma SplitOne(s: string, c: char, tok: char)
    ensures var r := Split(s, tok); Split(s + [c], tok) == if c == tok then r + [""] else r[|r| - 1 := r[|r| - 1] + [c]]
  {
    assert (s + [c])[..|s|] == s;
  }

  // A C string ends at the first NUL.
  function CStr(s: string): string {
    if |s| == 0 || s[0] == '\0' then "" else [s[0]] + CStr(s[1..])
  }

  lemma {:induction false} CStrCut(a: string, b: string)
    requires '\0' !in a
    ensures CStr(a + "\0" + b) == a
  {
    if |a| > 0 {
      assert (a + "\0" + b)[1..] == a[1..] + "\0" + b;
      CStrCut(a[1..], b);
    }
  }

  lemma {:induction false} CStrAll(s: string)
    requires '\0' !in s
    ensures CStr(s) == s
  {
    if |s| > 0 { CStrAll(s[1..]); }
  }

  // ---------- numbers ----------

  predicate IsDigit(c: char) { '0' <= c <= '9' }

  function Digit(d: nat): char
    requires d < 10
  {
    '0' + d as char
  }

  // %lu
  function Unsigned(n: nat): string {
    if n < 10 then [Digit(n)] else Unsigned(n / 10) + [Digit(n % 10)]
  }

  // %i
  function Signed(n: int): string {
    if n < 0 then "-" + Unsigned(-n) else Unsigned(n)
  }

  predicate AllDigits(s: string) {
    forall k :: 0 <= k < |s| ==> IsDigit(s[k])
  }

  function NumberOf(s: string): nat
    requires AllDigits(s)
  {
    if |s| == 0 then 0 else 10 * NumberOf(s[..|s| - 1]) + (s[|s| - 1] - '0') as nat
  }

  lemma {:induction false} UnsignedDigits(n: nat)
    ensures AllDigits(Unsigned(n)) && |Unsigned(n)| > 0 && NumberOf(Unsigned(n)) == n
  {
    if n >= 10 {
      UnsignedDigits(n / 10);
      var s := Unsigned(n / 10) + [Digit(n % 10)];
      assert s[..|s| - 1] == Unsigned(n / 10);
    }
  }

  // The digits s begins with.
  function LeadingDigits(s: string): (r: string)
    ensures AllDigits(r)
  {
    if |s| == 0 || !IsDigit(s[0]) then "" else [s[0]] + LeadingDigits(s[1..])
  }

  lemma {:induction false} LeadingDigitsAre(d: string, rest: string)
    requires AllDigits(d) && (|rest| == 0 || !IsDigit(rest[0]))
    ensures LeadingDigits(d + rest) == d
  {
    if |d| > 0 {
      assert (d + rest)[1..] == d[1..] + rest;
      LeadingDigitsAre(d[1..], rest);
    } else {
      assert d + rest == rest;
    }
  }

  function SkipSpaces(s: string): string {
    if |s| > 0 && (s[0] == ' ' || '\t' <= s[0] <= '\r') then SkipSpaces(s[1..]) else s
  }

  const ULONG_MAX: nat := 0xFFFF_FFFF_FFFF_FFFF
  const INT_MAX: int := 0x7FFF_FFFF

  // strtoul(s, NULL, 10)
  function Atoul(s: string): nat {
    var t := SkipSpaces(s);
    var negative := |t| > 0 && t[0] == '-';
    var v := NumberOf(LeadingDigits(if |t| > 0 && (t[0] == '-' || t[0] == '+') then t[1..] else t));
    if v > ULONG_MAX then ULONG_MAX else if negative && v > 0 then ULONG_MAX + 1 - v else v
  }

  // atoi(s)
  function Atoi(s: string): int {
    var t := SkipSpaces(s);
    var v: int := NumberOf(LeadingDigits(if |t| > 0 && (t[0] == '-' || t[0] == '+') then t[1..] else t));
    if |t| > 0 && t[0] == '-' then -v else v
  }

  lemma AtoulUnsigned(n: nat, rest: string)
    requires n <= ULONG_MAX && (|rest| == 0 || !IsDigit(rest[0]))
    ensures Atoul(Unsigned(n) + rest) == n
  {
    UnsignedDigits(n);
    assert IsDigit((Unsigned(n) + rest)[0]);
    LeadingDigitsAre(Unsigned(n), rest);
  }

  lemma AtoiSigned(n: int)
    ensures Atoi(Signed(n)) == n
  {
    var m := if n < 0 then -n else n;
    UnsignedDigits(m);
    assert IsDigit(Unsigned(m)[0]);
    LeadingDigitsAre(Unsigned(m), "");
    assert Unsigned(m) + "" == Unsigned(m);
    assert ("-" + Unsigned(m))[1..] == Unsigned(m);
  }

  // No character of a number gets in the way of lines and tokens.
  predicate Plain(s: string) {
    '\t' !in s && '\n' !in s && '\r' !in s && '\0' !in s
  }

  lemma NumbersPlain(n: int)
    ensures Plain(Signed(n)) && (n >= 0 ==> Signed(n) == Unsigned(n))
    ensures |Signed(n)| > 0 && Signed(n)[0] != '.'
  {
    var m := if n < 0 then -n else n;
    UnsignedDigits(m);
    DigitsPlain(Unsigned(m));
  }

  lemma DigitsPlain(s: string)
    requires AllDigits(s)
    ensures Plain(s) && '.' !in s && '-' !in s && ' ' !in s
  {
  }
}
