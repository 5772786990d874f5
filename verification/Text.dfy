/** The few functions of Go's strings package that the models need. Characters are code points; every
    character the sources search for is ASCII, so searching bytes and searching code points agree. */
module Text {
  /** strings.IndexByte: the first position of c, or -1. */
  function IndexOf(s: string, c: char): (i: int)
    ensures -1 <= i < |s|
    ensures i == -1 <==> c !in s
    ensures i >= 0 ==> s[i] == c && c !in s[..i]
  {
    if s == "" then -1
    else if s[0] == c then 0
    else
      var r := IndexOf(s[1..], c);
      assert r >= 0 ==> s[..r + 1] == [s[0]] + s[1..][..r];
      assert s == [s[0]] + s[1..];
      if r < 0 then -1 else r + 1
  }

  /** strings.LastIndexByte: the last position of c, or -1. */
  function LastIndexOf(s: string, c: char): (i: int)
    ensures -1 <= i < |s|
    ensures i == -1 <==> c !in s
    ensures i >= 0 ==> s[i] == c && c !in s[i + 1..]
  {
    if s == "" then -1
    else if s[|s| - 1] == c then |s| - 1
    else
      var r := LastIndexOf(s[..|s| - 1], c);
      assert s == s[..|s| - 1] + [s[|s| - 1]];
      assert r >= 0 ==> s[r + 1..] == s[..|s| - 1][r + 1..] + [s[|s| - 1]];
      r
  }

  predicate HasPrefix(s: string, p: string) {
    p <= s
  }

  predicate HasSuffix(s: string, p: string) {
    |p| <= |s| && s[|s| - |p|..] == p
  }

  /** strings.Contains. */
  predicate Contains(s: string, sub: string) {
    sub <= s || (s != "" && Contains(s[1..], sub))
  }

  lemma {:induction false} ContainsMeans(s: string, sub: string)
    ensures Contains(s, sub) <==> exists i: nat :: FoundAt(s, sub, i)
  {
    if sub <= s { assert FoundAt(s, sub, 0); }
    if s != "" {
      ContainsMeans(s[1..], sub);
      if i: nat :| FoundAt(s[1..], sub, i) {
        assert s[i + 1..i + 1 + |sub|] == s[1..][i..i + |sub|];
        assert FoundAt(s, sub, i + 1);
      }
      if i: nat :| FoundAt(s, sub, i) {
        if i > 0 {
          assert s[1..][i - 1..i - 1 + |sub|] == s[i..i + |sub|];
          assert FoundAt(s[1..], sub, i - 1);
        } else {
          assert sub == s[0..|sub|] == s[..|sub|];
        }
      }
    } else if i: nat :| FoundAt(s, sub, i) {
      assert sub == "";
    }
  }

  predicate FoundAt(s: string, sub: string, i: nat) {
    i + |sub| <= |s| && s[i..i + |sub|] == sub
  }

  /** strings.SplitN(s, c, n) for n >= 1: at most n pieces, the last one unsplit. */
  function SplitN(s: string, c: char, n: nat): (parts: seq<string>)
    requires n >= 1
    ensures 1 <= |parts| <= n
  {
    var i := IndexOf(s, c);
    if n == 1 || i < 0 then [s] else [s[..i]] + SplitN(s[i + 1..], c, n - 1)
  }

  /** strings.Split(s, c). */
  function Split(s: string, c: char): (parts: seq<string>)
    ensures |parts| >= 1
  {
    var i := IndexOf(s, c);
    if i < 0 then [s] else [s[..i]] + Split(s[i + 1..], c)
  }

  /** strings.Join(parts, c). */
  function Join(parts: seq<string>, c: char): string {
    if parts == [] then ""
    else if |parts| == 1 then parts[0]
    else parts[0] + [c] + Join(parts[1..], c)
  }

  lemma IndexOfConcat(a: string, c: char, b: string)
    requires c !in a
    ensures IndexOf(a + [c] + b, c) == |a|
  {
    var s := a + [c] + b;
    var i := IndexOf(s, c);
    assert forall j :: 0 <= j < |a| ==> s[j] == a[j];
    assert s[|a|] == c;
    assert forall j :: 0 <= j < i ==> s[j] == s[..i][j];
  }

  lemma {:induction false} LastIndexOfConcat(a: string, c: char, b: string)
    requires c !in b
    ensures LastIndexOf(a + [c] + b, c) == |a|
  {
    var s := a + [c] + b;
    if b != "" {
      var b' := b[..|b| - 1];
      assert s[|s| - 1] == b[|b| - 1];
      assert s[..|s| - 1] == a + [c] + b';
      LastIndexOfConcat(a, c, b');
    }
  }

  /** The first cut of a text that starts with a piece free of the separator. */
  lemma SplitNFirst(a: string, c: char, b: string, n: nat)
    requires c !in a && n >= 2
    ensures SplitN(a + [c] + b, c, n) == [a] + SplitN(b, c, n - 1)
  {
    IndexOfConcat(a, c, b);
    hide IndexOf;
    var s := a + [c] + b;
    assert s[..|a|] == a && s[|a| + 1..] == b;
  }

  /** Splitting undoes joining when no piece contains the separator. */
  lemma {:induction false} SplitJoin(parts: seq<string>, c: char)
    requires parts != [] && forall i :: 0 <= i < |parts| ==> c !in parts[i]
    ensures Split(Join(parts, c), c) == parts
  {
    if |parts| > 1 {
      SplitJoin(parts[1..], c);
      JoinMore(parts, c);
      SplitFirst(parts[0], c, Join(parts[1..], c));
      hide Join, Split;
      assert parts == [parts[0]] + parts[1..];
    } else {
      assert parts == [parts[0]];
    }
  }

  lemma JoinMore(parts: seq<string>, c: char)
    requires |parts| > 1
    ensures Join(parts, c) == parts[0] + [c] + Join(parts[1..], c)
  {
  }

  lemma SplitFirst(a: string, c: char, b: string)
    requires c !in a
    ensures Split(a + [c] + b, c) == [a] + Split(b, c)
  {
    IndexOfConcat(a, c, b);
    hide IndexOf;
    var s := a + [c] + b;
    assert s[..|a|] == a && s[|a| + 1..] == b;
  }

  lemma SplitNOne(s: string, c: char)
    ensures SplitN(s, c, 1) == [s]
  {
  }

  /** Cutting loses nothing but the separators, and only the last piece, when there are n, may still contain one. */
  lemma {:induction false} SplitNIs(s: string, c: char, n: nat)
    requires n >= 1
    ensures var parts := SplitN(s, c, n);
            && Join(parts, c) == s
            && (forall i :: 0 <= i < |parts| - 1 ==> c !in parts[i])
            && (|parts| < n ==> c !in parts[|parts| - 1])
  {
    hide Join, SplitN;
    SplitNUnfold(s, c, n);
    JoinOne(s, c);
    var i := IndexOf(s, c);
    if n > 1 && i >= 0 {
      SplitNIs(s[i + 1..], c, n - 1);
      JoinFirst(s, c, i, SplitN(s[i + 1..], c, n - 1));
    }
  }

  lemma SplitNUnfold(s: string, c: char, n: nat)
    requires n >= 1
    ensures SplitN(s, c, n) ==
            var i := IndexOf(s, c);
            if n == 1 || i < 0 then [s] else [s[..i]] + SplitN(s[i + 1..], c, n - 1)
  {
    hide IndexOf;
  }

  lemma JoinOne(s: string, c: char)
    ensures Join([s], c) == s
  {
  }

  lemma {:induction false} SplitIs(s: string, c: char)
    ensures Join(Split(s, c), c) == s
    ensures forall i :: 0 <= i < |Split(s, c)| ==> c !in Split(s, c)[i]
  {
    var i := IndexOf(s, c);
    if i >= 0 {
      SplitIs(s[i + 1..], c);
      JoinFirst(s, c, i, Split(s[i + 1..], c));
      hide Join;
    }
  }

  lemma JoinFirst(s: string, c: char, i: nat, rest: seq<string>)
    requires i < |s| && s[i] == c && rest != [] && Join(rest, c) == s[i + 1..]
    ensures Join([s[..i]] + rest, c) == s
  {
    JoinMore([s[..i]] + rest, c);
    hide Join;
    assert ([s[..i]] + rest)[1..] == rest;
    assert s == s[..i] + [c] + s[i + 1..];
  }
}
