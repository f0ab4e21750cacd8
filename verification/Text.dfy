/** Byte strings in Go's order. */
module Text {
  import opened Orders

  /** Lexicographic order on strings, a prefix first. */
  predicate StringLe(a: string, b: string) {
    a == [] || (b != [] && (a[0] < b[0] || (a[0] == b[0] && StringLe(a[1..], b[1..]))))
  }

  lemma {:induction false} StringLeTotal(a: string, b: string)
    ensures StringLe(a, b) || StringLe(b, a)
  {
    if a != [] && b != [] && a[0] == b[0] { StringLeTotal(a[1..], b[1..]); }
  }

  lemma {:induction false} StringLeAntisymmetric(a: string, b: string)
    requires StringLe(a, b) && StringLe(b, a)
    ensures a == b
  {
    if a != [] && b != [] {
      StringLeAntisymmetric(a[1..], b[1..]);
      assert a == [a[0]] + a[1..] && b == [b[0]] + b[1..];
    }
  }

  lemma {:induction false} StringLeTransitive(a: string, b: string, c: string)
    requires StringLe(a, b) && StringLe(b, c)
    ensures StringLe(a, c)
  {
    if a != [] && a[0] == b[0] == c[0] { StringLeTransitive(a[1..], b[1..], c[1..]); }
  }

  lemma StringOrder()
    ensures TotalOrder(StringLe)
  {
    forall a, b ensures StringLe(a, b) || StringLe(b, a) { StringLeTotal(a, b); }
    forall a, b | StringLe(a, b) && StringLe(b, a) ensures a == b { StringLeAntisymmetric(a, b); }
    forall a, b, c | StringLe(a, b) && StringLe(b, c) ensures StringLe(a, c) { StringLeTransitive(a, b, c); }
  }

  // ----- normalising names, on ASCII -----

  predicate IsSpace(c: char) {
    c == ' ' || '\t' <= c <= '\r'
  }

  function TrimLeft(s: string): string {
    if s != [] && IsSpace(s[0]) then TrimLeft(s[1..]) else s
  }

  function TrimRight(s: string): string {
    if s != [] && IsSpace(s[|s| - 1]) then TrimRight(s[..|s| - 1]) else s
  }

  function TrimSpace(s: string): string {
    TrimRight(TrimLeft(s))
  }

  /** Drops one trailing dot. */
  function TrimDot(s: string): string {
    if s != [] && s[|s| - 1] == '.' then s[..|s| - 1] else s
  }

  function LowerChar(c: char): char {
    if 'A' <= c <= 'Z' then (c as int + 32) as char else c
  }

  function Lower(s: string): string {
    seq(|s|, i requires 0 <= i < |s| => LowerChar(s[i]))
  }

  // ----- what the order and the normalising mean -----

  /** At the first place where they differ a has the smaller character. */
  ghost predicate SmallerAt(a: string, b: string, i: nat) {
    i < |a| && i < |b| && a[..i] == b[..i] && a[i] < b[i]
  }

  /** A string comes no later than another exactly when it is a prefix of it, or has the
      smaller character at the first place where they differ. */
  lemma {:induction false} StringLeMeans(a: string, b: string)
    ensures StringLe(a, b) <==> a <= b || exists i: nat :: SmallerAt(a, b, i)
  {
    if a == [] || b == [] {
    } else if a[0] != b[0] {
      DifferAtOnce(a, b);
    } else {
      StringLeMeans(a[1..], b[1..]);
      SameHeads(a, b);
    }
  }

  lemma DifferAtOnce(a: string, b: string)
    requires a != [] && b != [] && a[0] != b[0]
    ensures !(a <= b) && ((exists i: nat :: SmallerAt(a, b, i)) <==> a[0] < b[0])
  {
    forall i: nat | 0 < i <= |a| && i <= |b| ensures a[..i] != b[..i] {
      assert a[..i][0] != b[..i][0];
    }
    if a[0] < b[0] { assert SmallerAt(a, b, 0); }
  }

  lemma SameHeads(a: string, b: string)
    requires a != [] && b != [] && a[0] == b[0]
    ensures a <= b <==> a[1..] <= b[1..]
    ensures (exists i: nat :: SmallerAt(a, b, i)) <==> exists i: nat :: SmallerAt(a[1..], b[1..], i)
  {
    assert a == [a[0]] + a[1..] && b == [b[0]] + b[1..];
    forall i: nat ensures SmallerAt(a, b, i + 1) <==> SmallerAt(a[1..], b[1..], i) {
      if i < |a[1..]| && i < |b[1..]| {
        assert a[..i + 1] == [a[0]] + a[1..][..i] && b[..i + 1] == [b[0]] + b[1..][..i];
        assert a[1..][..i] == a[..i + 1][1..] && b[1..][..i] == b[..i + 1][1..];
      }
    }
    if i: nat :| SmallerAt(a, b, i) { assert i > 0 && SmallerAt(a[1..], b[1..], i - 1); }
    if i: nat :| SmallerAt(a[1..], b[1..], i) { assert SmallerAt(a, b, i + 1); }
  }

  const SPACES := [' ', '\t', '\n', '\U{0B}', '\U{0C}', '\r']

  ghost predicate AllSpaces(s: string) {
    forall c :: c in s ==> c in SPACES
  }

  /** No space at either end. */
  ghost predicate Tidy(s: string) {
    s != [] ==> s[0] !in SPACES && s[|s| - 1] !in SPACES
  }

  lemma {:induction false} TrimLeftMeans(l: string, s: string)
    requires AllSpaces(l) && (s != [] ==> s[0] !in SPACES)
    ensures TrimLeft(l + s) == s
  {
    if l == [] {
      assert l + s == s;
    } else {
      assert l[0] in l && (l + s)[1..] == l[1..] + s;
      assert AllSpaces(l[1..]) by { assert forall c :: c in l[1..] ==> c in l; }
      TrimLeftMeans(l[1..], s);
    }
  }

  lemma {:induction false} TrimRightMeans(s: string, r: string)
    requires AllSpaces(r) && (s != [] ==> s[|s| - 1] !in SPACES)
    ensures TrimRight(s + r) == s
  {
    if r == [] {
      assert s + r == s;
    } else {
      var last := |r| - 1;
      assert r[last] in r && (s + r)[..|s + r| - 1] == s + r[..last];
      assert AllSpaces(r[..last]) by { assert forall c :: c in r[..last] ==> c in r; }
      TrimRightMeans(s, r[..last]);
    }
  }

  /** Trimming takes away exactly the spaces around a text. */
  lemma TrimSpaceMeans(l: string, s: string, r: string)
    requires AllSpaces(l) && Tidy(s) && AllSpaces(r)
    ensures TrimSpace(l + s + r) == s
  {
    assert l + s + r == l + (s + r);
    if s != [] {
      TrimLeftMeans(l, s + r);
      TrimRightMeans(s, r);
    } else {
      assert l + (s + r) == (l + r) + [];
      TrimLeftMeans(l + r, []);
      assert TrimSpace(l + s + r) == TrimRight([]);
    }
  }

  /** One letter, in either case. */
  predicate SameLetter(a: char, b: char) {
    || a == b
    || ('A' <= a <= 'Z' && b as int == a as int + 32)
    || ('A' <= b <= 'Z' && a as int == b as int + 32)
  }

  ghost predicate SameLetters(s: string, t: string) {
    |s| == |t| && forall i :: 0 <= i < |s| ==> SameLetter(s[i], t[i])
  }

  /** Two texts become equal in lower case exactly when they differ in case alone. */
  lemma LowerMeans(s: string, t: string)
    ensures Lower(s) == Lower(t) <==> SameLetters(s, t)
  {
    if Lower(s) == Lower(t) {
      assert |Lower(s)| == |Lower(t)|;
      forall i | 0 <= i < |s| ensures SameLetter(s[i], t[i]) {
        assert Lower(s)[i] == Lower(t)[i];
      }
    }
  }
}
