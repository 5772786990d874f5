/** Unsigned decimal numerals as strconv and fmt print and parse them. */
module Decimal {
  import opened Base

  predicate IsDigit(c: char) {
    '0' <= c <= '9'
  }

  predicate AllDigits(s: string) {
    forall i :: 0 <= i < |s| ==> IsDigit(s[i])
  }

  function DigitChar(d: nat): (c: char)
    requires d < 10
    ensures IsDigit(c) && DigitVal(c) == d
  {
    '0' + d as char
  }

  function DigitVal(c: char): (d: nat)
    requires IsDigit(c)
    ensures d < 10
  {
    c as int - '0' as int
  }

  /** The numeral of n without leading zeros, as %d prints it. */
  function Dec(n: nat): (s: string)
    ensures s != "" && AllDigits(s)
  {
    if n < 10 then [DigitChar(n)] else Dec(n / 10) + [DigitChar(n % 10)]
  }

  /** The value of a digit string, most significant digit first. */
  function Val(s: string): nat
    requires AllDigits(s)
  {
    if s == "" then 0 else 10 * Val(s[..|s| - 1]) + DigitVal(s[|s| - 1])
  }

  function Pow10(k: nat): (p: nat)
    ensures p > 0
  {
    if k == 0 then 1 else 10 * Pow10(k - 1)
  }

  function Pow2(k: nat): (p: nat)
    ensures p > 0
  {
    if k == 0 then 1 else 2 * Pow2(k - 1)
  }

  /** strconv.ParseUint(s, 10, bits): digits only, at least one, no sign, in range. */
  function ParseUint(s: string, bits: nat): Option<nat> {
    if s == "" || !AllDigits(s) || Val(s) >= Pow2(bits) then None else Some(Val(s))
  }

  lemma {:induction false} ValDec(n: nat)
    ensures Val(Dec(n)) == n
    ensures n > 0 ==> Dec(n)[0] != '0'
  {
    if n >= 10 {
      ValDec(n / 10);
      assert Dec(n)[..|Dec(n)| - 1] == Dec(n / 10);
    }
  }

  lemma OnlyDigits(n: nat, c: char)
    requires !IsDigit(c)
    ensures c !in Dec(n)
  {
    hide Dec;
    assert forall i :: 0 <= i < |Dec(n)| ==> IsDigit(Dec(n)[i]);
  }

  lemma {:induction false} ValAppend(a: string, b: string)
    requires AllDigits(a) && AllDigits(b)
    ensures AllDigits(a + b)
    ensures Val(a + b) == Val(a) * Pow10(|b|) + Val(b)
  {
    if b == "" {
      assert a + b == a;
    } else {
      var b' := b[..|b| - 1];
      ValAppend(a, b');
      assert (a + b)[..|a + b| - 1] == a + b';
      Regroup(Val(a), Pow10(|b'|), Val(b'), DigitVal(b[|b| - 1]));
    }
  }

  lemma Regroup(x: int, p: int, y: int, d: int)
    ensures 10 * (x * p + y) + d == x * (10 * p) + (10 * y + d)
  {
  }

  lemma {:induction false} ValBound(s: string)
    requires AllDigits(s)
    ensures Val(s) < Pow10(|s|)
  {
    if s != "" {
      ValBound(s[..|s| - 1]);
    }
  }

  lemma {:induction false} PowBits()
    ensures Pow2(16) == 0x1_0000
    ensures Pow2(32) == 0x1_0000_0000
    ensures Pow2(64) == 0x1_0000_0000_0000_0000
  {
    assert Pow2(8) == 256;
    Pow2Add(8, 8);
    Pow2Add(16, 16);
    Pow2Add(32, 32);
  }

  lemma {:induction false} Pow2Add(a: nat, b: nat)
    ensures Pow2(a + b) == Pow2(a) * Pow2(b)
  {
    if b > 0 {
      Pow2Add(a, b - 1);
      calc {
        Pow2(a + b);
        2 * Pow2(a + (b - 1));
        2 * (Pow2(a) * Pow2(b - 1));
        Pow2(a) * (2 * Pow2(b - 1));
      }
    }
  }

  lemma {:induction false} Pow10Add(a: nat, b: nat)
    ensures Pow10(a + b) == Pow10(a) * Pow10(b)
  {
    if a > 0 {
      Pow10Add(a - 1, b);
      assert Pow10(a + b) == 10 * Pow10(a - 1 + b);
      assert 10 * (Pow10(a - 1) * Pow10(b)) == (10 * Pow10(a - 1)) * Pow10(b);
    }
  }

  // ---- Quotients ----

  lemma DivMod(n: int, f: int)
    requires f > 0
    ensures n == (n / f) * f + n % f && 0 <= n % f < f
  {
  }

  lemma DivNat(n: nat, f: int)
    requires f > 0
    ensures n / f >= 0 && n % f >= 0
  {
    DivMod(n, f);
    if n / f < 0 {
      MulLe(n / f, -1, f);
      assert false;
    }
  }

  lemma MulLe(x: int, y: int, f: int)
    requires x <= y && f >= 0
    ensures x * f <= y * f
  {
  }

  lemma MulLt(x: int, y: int, f: int)
    requires x < y && f >= 0
    ensures x * f + f <= y * f
  {
    MulLe(x + 1, y, f);
    assert (x + 1) * f == x * f + f;
  }

  lemma DivUnique(n: int, f: int, q: int, r: int)
    requires f > 0 && n == q * f + r && 0 <= r < f
    ensures n / f == q && n % f == r
  {
    var q', r' := n / f, n % f;
    DivMod(n, f);
    if q < q' {
      MulLt(q, q', f);
      assert false;
    }
    if q' < q {
      MulLt(q', q, f);
      assert false;
    }
  }

  /** Printing and then parsing any number of the right width gives the number back. */
  lemma ParsePrinted(n: nat, bits: nat)
    requires n < Pow2(bits)
    ensures ParseUint(Dec(n), bits) == Some(n)
  {
    ValDec(n);
  }

  lemma {:induction false} ValZeros(k: nat)
    ensures AllDigits(Zeros(k)) && Val(Zeros(k)) == 0
  {
    if k > 0 {
      ValZeros(k - 1);
      assert Zeros(k)[..k - 1] == Zeros(k - 1);
    }
  }

  function Zeros(k: nat): (s: string)
    ensures |s| == k && forall i :: 0 <= i < k ==> s[i] == '0'
  {
    seq(k, i => '0')
  }

  /** The digits are the decimal ones. */
  lemma DigitIs(d: nat)
    requires d < 10
    ensures Dec(d) == ["0123456789"[d]]
  {
  }

  lemma {:induction false} DigitsAreNumeral(s: string) returns (zeros: nat)
    requires AllDigits(s) && s != ""
    ensures s == Zeros(zeros) + Dec(Val(s))
  {
    var front, last := s[..|s| - 1], s[|s| - 1];
    assert s == front + [last];
    if front == "" {
      zeros := 0;
    } else {
      zeros := DigitsAreNumeral(front);
      if Val(front) == 0 {
        assert Dec(0) == "0";
        assert Zeros(zeros + 1) == Zeros(zeros) + "0";
        zeros := zeros + 1;
      } else {
        assert Dec(Val(s)) == Dec(Val(front)) + [last];
      }
    }
  }

  ghost predicate IsNumeral(s: string, n: nat, zeros: nat) {
    s == Zeros(zeros) + Dec(n)
  }

  lemma ValOfNumeral(n: nat, zeros: nat)
    ensures AllDigits(Zeros(zeros) + Dec(n)) && Val(Zeros(zeros) + Dec(n)) == n
  {
    ValZeros(zeros);
    ValDec(n);
    ValAppend(Zeros(zeros), Dec(n));
  }

  lemma NumeralHasNo(s: string, n: nat, zeros: nat, c: char)
    requires IsNumeral(s, n, zeros) && !IsDigit(c)
    ensures c !in s && s != ""
  {
    OnlyDigits(n, c);
    hide Dec;
    assert forall d :: d in Zeros(zeros) ==> d == '0';
    assert IsDigit('0');
    assert |s| >= |Dec(n)|;
  }

  /** What parses: exactly the numerals in range, leading zeros allowed. */
  lemma ParseUintIff(s: string, bits: nat, n: nat)
    ensures ParseUint(s, bits) == Some(n) <==> n < Pow2(bits) && exists zeros: nat :: IsNumeral(s, n, zeros)
  {
    hide Dec, Val, Pow2;
    if ParseUint(s, bits) == Some(n) {
      var zeros := DigitsAreNumeral(s);
      assert IsNumeral(s, n, zeros);
    }
    if zeros: nat :| IsNumeral(s, n, zeros) {
      ValOfNumeral(n, zeros);
      assert s != "" by { assert |s| >= |Dec(n)|; }
    }
  }
}
