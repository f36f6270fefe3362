// The order in which the header cache keeps its files.
module FileOrder {

  // What identifies a post: number of parts, offset of the part number in the subject, author,
  // subject, and the posts it refers to.
  datatype Key = Key(req: int, partoff: int, author: string, subject: string, references: seq<string>)

  // std::string's operator<.
  predicate StringLess(a: string, b: string) {
    |b| > 0 && (|a| == 0 || a[0] < b[0] || (a[0] == b[0] && StringLess(a[1..], b[1..])))
  }

  // The first place where they differ decides; a beginning comes before the whole.
  ghost predicate DecidedAt(a: string, b: string, i: nat) {
    i <= |a| && i < |b| && a[..i] == b[..i] && (i == |a| || a[i] < b[i])
  }

  lemma {:induction false} StringLessIs(a: string, b: string)
    ensures StringLess(a, b) <==> exists i: nat :: DecidedAt(a, b, i)
  {
    if |a| == 0 || |b| == 0 || a[0] < b[0] {
      if StringLess(a, b) { assert DecidedAt(a, b, 0); }
    } else if a[0] == b[0] {
      StringLessIs(a[1..], b[1..]);
      if StringLess(a, b) {
        var i: nat :| DecidedAt(a[1..], b[1..], i);
        assert a[..i + 1] == [a[0]] + a[1..][..i] && b[..i + 1] == [b[0]] + b[1..][..i];
        assert DecidedAt(a, b, i + 1);
      }
      if i: nat :| DecidedAt(a, b, i) {
        assert i > 0;
        assert a[1..][..i - 1] == a[..i][1..] && b[1..][..i - 1] == b[..i][1..];
        assert DecidedAt(a[1..], b[1..], i - 1);
      }
    } else {
      forall i: nat
        ensures !DecidedAt(a, b, i)
      {
        if i > 0 && i <= |a| && i < |b| { assert a[..i][0] == a[0] && b[..i][0] == b[0]; }
      }
    }
  }

  // std::vector<string>'s operator<.
  predicate ReferencesLess(a: seq<string>, b: seq<string>) {
    |b| > 0 && (|a| == 0 || StringLess(a[0], b[0]) || (!StringLess(b[0], a[0]) && ReferencesLess(a[1..], b[1..])))
  }

  predicate Less(a: Key, b: Key) {
    if a.req < b.req then true
    else if a.req > b.req then false
    else if a.partoff < b.partoff then true
    else if a.partoff > b.partoff then false
    else if StringLess(a.author, b.author) then true
    else if StringLess(b.author, a.author) then false
    else if StringLess(a.subject, b.subject) then true
    else if StringLess(b.subject, a.subject) then false
    else ReferencesLess(a.references, b.references)
  }

  lemma {:induction false} StringTotal(a: string, b: string)
    ensures !(StringLess(a, b) && StringLess(b, a))
    ensures !StringLess(a, b) && !StringLess(b, a) <==> a == b
  {
    if |a| > 0 && |b| > 0 {
      StringTotal(a[1..], b[1..]);
      assert a == [a[0]] + a[1..] && b == [b[0]] + b[1..];
    }
  }

  lemma {:induction false} StringTransitive(a: string, b: string, c: string)
    requires StringLess(a, b) && StringLess(b, c)
    ensures StringLess(a, c)
  {
    if |a| > 0 && a[0] == b[0] == c[0] { StringTransitive(a[1..], b[1..], c[1..]); }
  }

  lemma {:induction false} ReferencesTotal(a: seq<string>, b: seq<string>)
    ensures !(ReferencesLess(a, b) && ReferencesLess(b, a))
    ensures !ReferencesLess(a, b) && !ReferencesLess(b, a) <==> a == b
  {
    if |a| > 0 && |b| > 0 {
      StringTotal(a[0], b[0]);
      ReferencesTotal(a[1..], b[1..]);
      assert a == [a[0]] + a[1..] && b == [b[0]] + b[1..];
    }
  }

  lemma {:induction false} ReferencesTransitive(a: seq<string>, b: seq<string>, c: seq<string>)
    requires ReferencesLess(a, b) && ReferencesLess(b, c)
    ensures ReferencesLess(a, c)
  {
    if |a| > 0 {
      StringTotal(a[0], b[0]);
      StringTotal(b[0], c[0]);
      if StringLess(a[0], b[0]) && StringLess(b[0], c[0]) { StringTransitive(a[0], b[0], c[0]); }
      if a[0] == b[0] == c[0] { ReferencesTransitive(a[1..], b[1..], c[1..]); }
    }
  }

  // The order is a strict total order whose ties are exactly the equal keys.
  lemma LessTotal(a: Key, b: Key)
    ensures !(Less(a, b) && Less(b, a))
    ensures !Less(a, b) && !Less(b, a) <==> a == b
  {
    StringTotal(a.author, b.author);
    StringTotal(a.subject, b.subject);
    ReferencesTotal(a.references, b.references);
  }

  lemma LessTransitive(a: Key, b: Key, c: Key)
    requires Less(a, b) && Less(b, c)
    ensures Less(a, c)
  {
    StringTotal(a.author, b.author);
    StringTotal(b.author, c.author);
    StringTotal(a.author, c.author);
    StringTotal(a.subject, b.subject);
    StringTotal(b.subject, c.subject);
    StringTotal(a.subject, c.subject);
    if StringLess(a.author, b.author) && StringLess(b.author, c.author) { StringTransitive(a.author, b.author, c.author); }
    if StringLess(a.subject, b.subject) && StringLess(b.subject, c.subject) { StringTransitive(a.subject, b.subject, c.subject); }
    if ReferencesLess(a.references, b.references) && ReferencesLess(b.references, c.references) {
      ReferencesTransitive(a.references, b.references, c.references);
    }
  }

  // The number of parts comes first, then the offset, the author, and the subject; each decides only
  // when all before it are equal.
  lemma LessIs(a: Key, b: Key)
    ensures Less(a, b) <==>
      || a.req < b.req
      || (a.req == b.req && a.partoff < b.partoff)
      || ((a.req, a.partoff) == (b.req, b.partoff) && StringLess(a.author, b.author))
      || ((a.req, a.partoff, a.author) == (b.req, b.partoff, b.author) && StringLess(a.subject, b.subject))
      || ((a.req, a.partoff, a.author, a.subject) == (b.req, b.partoff, b.author, b.subject)
          && ReferencesLess(a.references, b.references))
  {
    hide StringLess, ReferencesLess;
    StringTotal(a.author, b.author);
    StringTotal(a.subject, b.subject);
  }

  // a is not after b.
  predicate NotAfter(a: Key, b: Key) {
    !Less(b, a)
  }

  lemma NotAfterTransitive(a: Key, b: Key, c: Key)
    requires NotAfter(a, b) && NotAfter(b, c)
    ensures NotAfter(a, c)
  {
    hide Less;
    LessTotal(a, b);
    LessTotal(b, c);
    LessTotal(a, c);
    if Less(c, a) {
      if a != b { LessTransitive(c, a, b); }
    }
  }
}
