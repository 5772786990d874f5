/** Strings of code points as Go holds them: UTF-8 bytes (RFC 3629, section 3). Go's len and < work on these. */
module Utf8 {
  import Lex

  /** The bytes of one code point. */
  function Encode(c: char): (r: seq<int>)
    ensures r != []
  {
    var n := c as int;
    if n < 0x80 then [n]
    else if n < 0x800 then [0xC0 + n / 0x40, 0x80 + n % 0x40]
    else if n < 0x1_0000 then [0xE0 + n / 0x1000, 0x80 + n / 0x40 % 0x40, 0x80 + n % 0x40]
    else [0xF0 + n / 0x4_0000, 0x80 + n / 0x1000 % 0x40, 0x80 + n / 0x40 % 0x40, 0x80 + n % 0x40]
  }

  function Bytes(s: string): seq<int> {
    if s == "" then [] else Encode(s[0]) + Bytes(s[1..])
  }

  lemma {:induction false} BytesConcat(a: string, b: string)
    ensures Bytes(a + b) == Bytes(a) + Bytes(b)
  {
    hide Encode, Bytes;
    BytesOfNone();
    if a == "" {
      assert a + b == b;
    } else {
      BytesConcat(a[1..], b);
      BytesOfMore(a);
      BytesOfMore(a + b);
      assert (a + b)[0] == a[0] && (a + b)[1..] == a[1..] + b;
    }
  }

  lemma BytesOfNone()
    ensures Bytes("") == []
  {
  }

  lemma BytesOfMore(s: string)
    requires s != ""
    ensures Bytes(s) == Encode(s[0]) + Bytes(s[1..])
  {
  }

  lemma {:induction false} AsciiBytes(s: string)
    requires forall i :: 0 <= i < |s| ==> s[i] as int < 0x80
    ensures Bytes(s) == Lex.Codes(s)
  {
    if s != "" {
      AsciiBytes(s[1..]);
      assert Lex.Codes(s) == [s[0] as int] + Lex.Codes(s[1..]);
    }
  }

  /** The two differ at k, where a is smaller. */
  predicate Below(a: seq<int>, b: seq<int>, k: nat) {
    k < |a| && k < |b| && a[..k] == b[..k] && a[k] < b[k]
  }

  lemma SixBits(m: nat, n: nat)
    requires m < n
    ensures m / 0x40 < n / 0x40 || (m / 0x40 == n / 0x40 && m % 0x40 < n % 0x40)
  {
  }

  lemma Nested(n: nat)
    ensures n / 0x1000 == n / 0x40 / 0x40 && n / 0x4_0000 == n / 0x1000 / 0x40
  {
  }

  /** What the lead byte tells. */
  lemma Lead(c: char)
    ensures var n, a := c as int, Encode(c);
            && |a| == (if n < 0x80 then 1 else if n < 0x800 then 2 else if n < 0x1_0000 then 3 else 4)
            && (n < 0x80 ==> a[0] < 0x80) && (0x80 <= n < 0x800 ==> 0xC0 <= a[0] < 0xE0)
            && (0x800 <= n < 0x1_0000 ==> 0xE0 <= a[0] < 0xF0) && (0x1_0000 <= n ==> 0xF0 <= a[0])
  {
  }

  lemma TwoBytes(c: char, d: char)
    requires 0x80 <= c as int < d as int < 0x800
    ensures exists k: nat :: Below(Encode(c), Encode(d), k)
  {
    SixBits(c as int, d as int);
    var a, b := Encode(c), Encode(d);
    if a[0] < b[0] { assert Below(a, b, 0); } else { assert Below(a, b, 1); }
  }

  lemma ThreeBytes(c: char, d: char)
    requires 0x800 <= c as int < d as int < 0x1_0000
    ensures exists k: nat :: Below(Encode(c), Encode(d), k)
  {
    var m, n := c as int, d as int;
    SixBits(m, n);
    if m / 0x40 < n / 0x40 { SixBits(m / 0x40, n / 0x40); }
    Nested(m);
    Nested(n);
    var a, b := Encode(c), Encode(d);
    if a[0] < b[0] { assert Below(a, b, 0); }
    else if a[1] < b[1] { assert Below(a, b, 1); }
    else { assert Below(a, b, 2); }
  }

  lemma FourBytes(c: char, d: char)
    requires 0x1_0000 <= c as int < d as int
    ensures exists k: nat :: Below(Encode(c), Encode(d), k)
  {
    var m, n := c as int, d as int;
    SixBits(m, n);
    if m / 0x40 < n / 0x40 { SixBits(m / 0x40, n / 0x40); }
    Nested(m);
    Nested(n);
    if m / 0x1000 < n / 0x1000 { SixBits(m / 0x1000, n / 0x1000); }
    var a, b := Encode(c), Encode(d);
    if a[0] < b[0] { assert Below(a, b, 0); }
    else if a[1] < b[1] { assert Below(a, b, 1); }
    else if a[2] < b[2] { assert Below(a, b, 2); }
    else { assert Below(a, b, 3); }
  }

  /** A smaller code point has smaller bytes, and neither text begins with the other. */
  lemma EncodeOrder(c: char, d: char)
    requires c as int < d as int
    ensures exists k: nat :: Below(Encode(c), Encode(d), k)
  {
    var m, n := c as int, d as int;
    Lead(c);
    Lead(d);
    if 0x1_0000 <= m { FourBytes(c, d); }
    else if 0x800 <= m && n < 0x1_0000 { ThreeBytes(c, d); }
    else if 0x80 <= m && n < 0x800 { TwoBytes(c, d); }
    else {
      hide Encode;
      assert Encode(c)[0] < Encode(d)[0] || n < 0x80;
      assert Below(Encode(c), Encode(d), 0) by { assert Encode(c)[..0] == Encode(d)[..0]; LowBytes(c, d); }
    }
  }

  lemma LowBytes(c: char, d: char)
    ensures c as int < d as int < 0x80 ==> Encode(c)[0] < Encode(d)[0]
  {
  }

  lemma BelowIsLess(a: seq<int>, b: seq<int>, x: seq<int>, y: seq<int>, k: nat)
    requires Below(a, b, k)
    ensures Lex.Less(a + x, b + y) && !Lex.Less(b + y, a + x)
  {
    assert (a + x)[..k] == a[..k] && (b + y)[..k] == b[..k];
    assert Lex.DiffersAt(a + x, b + y, k);
    Lex.LessMeans(a + x, b + y);
    if Lex.Less(b + y, a + x) {
      Lex.Transitive(a + x, b + y, a + x);
      Lex.Irreflexive(a + x);
    }
  }

  /** The order of the bytes is the order of the code points. */
  lemma {:induction false} BytesOrder(a: string, b: string)
    ensures Lex.Less(Bytes(a), Bytes(b)) <==> Lex.StringLess(a, b)
  {
    if a == "" || b == "" {
      EndsFirst(a, b);
    } else {
      Heads(a, b);
      hide Encode;
      BytesOrder(a[1..], b[1..]);
      if a[0] == b[0] {
        Lex.CommonPrefix(Encode(a[0]), Bytes(a[1..]), Bytes(b[1..]));
      } else if a[0] as int < b[0] as int {
        EncodeOrder(a[0], b[0]);
        var k: nat :| Below(Encode(a[0]), Encode(b[0]), k);
        BelowIsLess(Encode(a[0]), Encode(b[0]), Bytes(a[1..]), Bytes(b[1..]), k);
      } else {
        EncodeOrder(b[0], a[0]);
        var k: nat :| Below(Encode(b[0]), Encode(a[0]), k);
        BelowIsLess(Encode(b[0]), Encode(a[0]), Bytes(b[1..]), Bytes(a[1..]), k);
      }
    }
  }

  lemma EndsFirst(a: string, b: string)
    requires a == "" || b == ""
    ensures Lex.Less(Bytes(a), Bytes(b)) <==> Lex.StringLess(a, b)
  {
  }

  lemma Heads(a: string, b: string)
    requires a != "" && b != ""
    ensures Lex.StringLess(a, b) <==>
            a[0] as int < b[0] as int || (a[0] == b[0] && Lex.StringLess(a[1..], b[1..]))
  {
    assert Lex.Codes(a)[1..] == Lex.Codes(a[1..]) && Lex.Codes(b)[1..] == Lex.Codes(b[1..]);
  }
}
