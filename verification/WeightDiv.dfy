/** pkg/api/handlers_validators.go, formatWeightDiv: long division to a decimal string of at most 18
    fractional digits. Both operands are big integers; callers pass an unsigned weight. */
module WeightDiv {
  import opened Base
  import opened Decimal
  import Text

  const MAX_DIGITS: nat := 18

  /** The fractional digits the loop writes for remainder r, n of them at most. */
  function Digits(r: nat, factor: nat, n: nat): string
    requires factor > 0
    decreases n
  {
    if n == 0 || r == 0 then ""
    else
      DivNat(r * 10, factor);
      Dec(r * 10 / factor) + Digits(r * 10 % factor, factor, n - 1)
  }

  /** strings.TrimRight(s, "0"). */
  function TrimZeros(s: string): string {
    if s != "" && s[|s| - 1] == '0' then TrimZeros(s[..|s| - 1]) else s
  }

  function Format(weight: nat, factor: Option<int>): string {
    if factor.None? || factor.value <= 0 then Dec(weight)
    else
      var f := factor.value;
      DivNat(weight, f);
      var q, r := weight / f, weight % f;
      var s := TrimZeros(Digits(r, f, MAX_DIGITS));
      if s == "" then Dec(q) else Dec(q) + "." + s
  }

  method FormatWeightDiv(weight: nat, factor: Option<int>) returns (out: string)
    ensures out == Format(weight, factor)
  {
    if factor.None? || factor.value <= 0 {
      return Dec(weight);
    }
    var f: nat := factor.value;
    var q: nat, r: nat := weight / f, weight % f;
    if r == 0 {
      return Dec(q);
    }
    hide Dec, TrimZeros;
    var frac := "";
    var i: nat := 0;
    while i < MAX_DIGITS && r != 0
      invariant i <= MAX_DIGITS
      invariant Digits(weight % f, f, MAX_DIGITS) == frac + Digits(r, f, MAX_DIGITS - i)
    {
      var d, rem: nat := r * 10 / f, r * 10 % f;
      assert frac + (Dec(d) + Digits(rem, f, MAX_DIGITS - i - 1)) == (frac + Dec(d)) + Digits(rem, f, MAX_DIGITS - i - 1);
      frac := frac + Dec(d);
      r := rem;
      i := i + 1;
    }
    assert frac + "" == frac;
    var s := TrimZeros(frac);
    if s == "" {
      return Dec(q);
    }
    return Dec(q) + "." + s;
  }

  // ---- Reading the string back ----

  /** A decimal string as numerator and number of decimals; a point must have digits on both sides. */
  function ParseDecimal(s: string): Option<(nat, nat)> {
    var i := Text.IndexOf(s, '.');
    if i < 0 then
      if s != "" && AllDigits(s) then Some((Val(s), 0)) else None
    else
      var whole, frac := s[..i], s[i + 1..];
      if whole != "" && frac != "" && AllDigits(whole + frac) then Some((Val(whole + frac), |frac|)) else None
  }

  // ---- Arithmetic ----

  lemma DivSplit(a: int, f: int, x: int)
    requires f > 0
    ensures (a * f + x) / f == a + x / f && (a * f + x) % f == x % f
  {
    DivMod(x, f);
    Distribute(a, 1, x / f, f);
    DivUnique(a * f + x, f, a + x / f, x % f);
  }

  lemma Distribute(d: int, p: int, v: int, z: int)
    ensures (d * p + v) * z == d * (p * z) + v * z
  {
  }

  lemma MulAssoc(a: int, b: int, c: int)
    ensures a * (b * c) == (a * b) * c
  {
  }

  lemma MulSwap(a: int, b: int, c: int)
    ensures a * (b * c) == (a * c) * b
  {
  }

  /** A division step scaled by p. */
  lemma ScaledQuotient(n: int, q: int, f: int, r: int, p: int)
    requires n == q * f + r
    ensures n * p == (q * p) * f + r * p
  {
    Distribute(q, f, r, p);
    MulSwap(q, f, p);
  }

  /** One step of long division: the quotient of the shifted remainder is one digit. */
  lemma OneDigit(r: nat, f: nat)
    requires r < f
    ensures r * 10 / f < 10 && r * 10 == (r * 10 / f) * f + r * 10 % f
  {
    var d := r * 10 / f;
    if d >= 10 {
      MulLe(10, d, f);
      assert false;
    }
  }

  lemma ScaleStep(r: nat, f: nat, p: nat)
    requires r < f
    ensures r * (10 * p) / f == (r * 10 / f) * p + (r * 10 % f) * p / f
    ensures r * (10 * p) % f == (r * 10 % f) * p % f
  {
    var d, r' := r * 10 / f, r * 10 % f;
    OneDigit(r, f);
    MulAssoc(r, 10, p);
    ScaledQuotient(r * 10, d, f, r', p);
    DivSplit(d * p, f, r' * p);
  }

  /** The digits, padded with zeros to n places, are floor(r * 10^n / factor); fewer than n digits are
      written only when the division has come out even. Every quotient written is a single digit. */
  lemma {:induction false} DigitsValue(r: nat, f: nat, n: nat)
    requires r < f
    ensures var d := Digits(r, f, n);
            && AllDigits(d) && |d| <= n
            && Val(d) * Pow10(n - |d|) == r * Pow10(n) / f
            && (|d| < n ==> r * Pow10(n) % f == 0)
    decreases n, 1
  {
    if r == 0 {
      assert 0 * Pow10(n) == 0;
    } else if n == 0 {
      DivUnique(r * 1, f, 0, r);
    } else {
      DigitsStep(r, f, n);
    }
  }

  lemma DigitsStep(r: nat, f: nat, n: nat)
    requires 0 < r < f && n > 0
    ensures var d := Digits(r, f, n);
            && AllDigits(d) && |d| <= n
            && Val(d) * Pow10(n - |d|) == r * Pow10(n) / f
            && (|d| < n ==> r * Pow10(n) % f == 0)
    decreases n, 0
  {
    var d: nat, r': nat := r * 10 / f, r * 10 % f;
    OneDigit(r, f);
    var rest := Digits(r', f, n - 1);
    DigitsValue(r', f, n - 1);
    ScaleStep(r, f, Pow10(n - 1));
    assert Pow10(n) == 10 * Pow10(n - 1);
    ValAppend(Dec(d), rest);
    ValDec(d);
    assert |Dec(d)| == 1;
    var z := n - 1 - |rest|;
    Pow10Add(|rest|, z);
    Distribute(d, Pow10(|rest|), Val(rest), Pow10(z));
    DigitsUnfold(r, f, n);
    hide Digits, Val, Dec, Pow10, AllDigits;
  }

  lemma DigitsUnfold(r: nat, f: nat, n: nat)
    requires 0 < r < f && n > 0
    ensures Digits(r, f, n) == Dec(r * 10 / f) + Digits(r * 10 % f, f, n - 1)
  {
  }

  lemma {:induction false} TrimZerosValue(s: string)
    requires AllDigits(s)
    ensures var t := TrimZeros(s);
            && AllDigits(t) && |t| <= |s|
            && (t != "" ==> t[|t| - 1] != '0')
            && Val(s) == Val(t) * Pow10(|s| - |t|)
  {
    if s != "" && s[|s| - 1] == '0' {
      var front := s[..|s| - 1];
      TrimZerosValue(front);
      var t := TrimZeros(front);
      var v, k := Val(t), |front| - |t|;
      assert Val(s) == 10 * Val(front);
      assert Pow10(k + 1) == 10 * Pow10(k);
      assert TrimZeros(s) == t;
      hide Val, Pow10, TrimZeros;
      Swap10(v, Pow10(k));
    }
  }

  lemma Swap10(v: nat, p: nat)
    ensures 10 * (v * p) == v * (10 * p)
  {
  }

  /** The string formatWeightDiv returns is a decimal numeral with at most 18 decimals whose value is
      floor(weight * 10^18 / factor) / 10^18. It has no leading zero, no trailing fractional zero and no bare point,
      and its value is exactly weight / factor if and only if the division comes out even within 18 digits. */
  lemma FormatIsQuotient(weight: nat, factor: nat)
    requires factor > 0
    ensures var s := Format(weight, Some(factor));
            var parsed := ParseDecimal(s);
            parsed.Some? &&
            var (num, k) := parsed.value;
            && k <= 18
            && num * Pow10(18 - k) == weight * Pow10(18) / factor
            && (k > 0 ==> s[|s| - 1] != '0') && (k == 0 ==> '.' !in s)
            && (s[0] == '0' && |s| > 1 ==> s[1] == '.')
            && (num * factor == weight * Pow10(k) <==> weight * Pow10(18) % factor == 0)
  {
    hide Format, Digits, TrimZeros, ParseDecimal, Val, Pow10, Dec, AllDigits;
    var q: nat, r: nat := weight / factor, weight % factor;
    var d := Digits(r, factor, MAX_DIGITS);
    var t := TrimZeros(d);
    DivMod(weight, factor);
    DigitsValue(r, factor, MAX_DIGITS);
    TrimZerosValue(d);
    ParseFormat(q, t);
    var num: nat := q * Pow10(|t|) + Val(t);
    Scaled(weight, factor, d, t);
    Pow10Add(|t|, MAX_DIGITS - |t|);
    ExactIffEven(weight, factor, num, Pow10(|t|), Pow10(MAX_DIGITS - |t|));
    FormatUnfold(weight, factor);
    LastChar(q, t);
    FirstChar(q, t);
  }

  lemma FormatUnfold(weight: nat, factor: nat)
    requires factor > 0
    ensures var t := TrimZeros(Digits(weight % factor, factor, MAX_DIGITS));
            Format(weight, Some(factor)) == if t == "" then Dec(weight / factor) else Dec(weight / factor) + "." + t
  {
  }

  /** No zeros lead. */
  lemma FirstChar(q: nat, t: string)
    ensures var s := if t == "" then Dec(q) else Dec(q) + "." + t;
            s != "" && (s[0] == '0' && |s| > 1 ==> s[1] == '.')
  {
    ValDec(q);
    if q == 0 { assert Dec(0) == "0"; }
    hide Dec;
  }

  lemma LastChar(q: nat, t: string)
    ensures t != "" ==> var s := Dec(q) + "." + t; s[|s| - 1] == t[|t| - 1]
  {
  }

  /** The numerator over the kept decimals, scaled to 18 decimals, is the floor. */
  lemma Scaled(weight: nat, f: nat, d: string, t: string)
    requires f > 0 && AllDigits(d) && AllDigits(t) && |t| <= |d| <= MAX_DIGITS
    requires Val(d) * Pow10(MAX_DIGITS - |d|) == (weight % f) * Pow10(MAX_DIGITS) / f
    requires Val(d) == Val(t) * Pow10(|d| - |t|)
    ensures (weight / f * Pow10(|t|) + Val(t)) * Pow10(MAX_DIGITS - |t|) == weight * Pow10(MAX_DIGITS) / f
  {
    hide Pow10, Val;
    WholePart(weight, f, Pow10(MAX_DIGITS));
    Pow10Add(|t|, MAX_DIGITS - |t|);
    Pow10Add(|d| - |t|, MAX_DIGITS - |d|);
    ScaledSum(weight * Pow10(MAX_DIGITS) / f, weight / f, Pow10(MAX_DIGITS), Pow10(|t|), Val(t), Val(d),
              Pow10(|d| - |t|), Pow10(MAX_DIGITS - |d|), Pow10(MAX_DIGITS - |t|));
  }

  lemma ScaledSum(n: int, q: int, scale: int, p: int, v: int, w: int, a: int, b: int, z: int)
    requires n == q * scale + w * b && w == v * a && z == a * b && scale == p * z
    ensures (q * p + v) * z == n
  {
    Distribute(q, p, v, z);
    MulAssoc(v, a, b);
  }

  lemma WholePart(weight: nat, f: nat, p: nat)
    requires f > 0
    ensures weight * p / f == (weight / f) * p + (weight % f) * p / f
    ensures weight * p % f == (weight % f) * p % f
  {
    var q, r := weight / f, weight % f;
    DivMod(weight, f);
    ScaledQuotient(weight, q, f, r, p);
    DivSplit(q * p, f, r * p);
  }

  lemma ExactIffEven(weight: nat, f: nat, num: nat, a: nat, b: nat)
    requires f > 0 && a > 0 && b > 0 && num * b == weight * (a * b) / f
    ensures num * f == weight * a <==> weight * (a * b) % f == 0
  {
    var n := weight * (a * b);
    assert n == (n / f) * f + n % f;
    assert n == (num * b) * f + n % f;
    assert (num * b) * f == (num * f) * b;
    assert n == (weight * a) * b;
    if num * f == weight * a {
      assert n % f == 0;
    }
    if n % f == 0 {
      assert (num * f) * b == (weight * a) * b;
      Cancel(num * f, weight * a, b);
    }
  }

  lemma Cancel(x: nat, y: nat, b: nat)
    requires b > 0 && x * b == y * b
    ensures x == y
  {
    if x < y {
      MulLt(x, y, b);
      assert false;
    }
    if y < x {
      MulLt(y, x, b);
      assert false;
    }
  }

  lemma ParseFormat(q: nat, t: string)
    requires AllDigits(t)
    ensures var s := if t == "" then Dec(q) else Dec(q) + "." + t;
            && ParseDecimal(s) == Some((q * Pow10(|t|) + Val(t), |t|))
            && (t == "" ==> '.' !in s)
  {
    hide AllDigits, Dec, Val, ParseDecimal, Pow10;
    ValDec(q);
    NoPoint(Dec(q));
    NoDigits();
    if t == "" { ParseWhole(Dec(q)); } else { ParsePoint(Dec(q), t); }
  }

  lemma NoDigits()
    ensures Pow10(0) == 1 && Val("") == 0
  {
  }

  lemma ParseWhole(s: string)
    requires AllDigits(s) && s != ""
    ensures ParseDecimal(s) == Some((Val(s), 0))
  {
    hide Val;
    NoPoint(s);
    hide AllDigits, Text.IndexOf;
  }

  lemma NoPoint(s: string)
    requires AllDigits(s)
    ensures '.' !in s && Text.IndexOf(s, '.') < 0
  {
    assert forall c :: c in s ==> IsDigit(c);
  }

  lemma ParsePoint(whole: string, frac: string)
    requires AllDigits(whole) && AllDigits(frac) && whole != "" && frac != "" && '.' !in whole
    ensures ParseDecimal(whole + "." + frac) == Some((Val(whole) * Pow10(|frac|) + Val(frac), |frac|))
  {
    hide Val, Pow10, Text.IndexOf;
    Text.IndexOfConcat(whole, '.', frac);
    var s := whole + "." + frac;
    assert s[..|whole|] == whole && s[|whole| + 1..] == frac;
    ValAppend(whole, frac);
    hide AllDigits;
  }

  /** Without a usable factor the weight is printed as it is. */
  lemma FormatWithoutFactor(weight: nat, factor: Option<int>)
    requires factor.Some? ==> factor.value <= 0
    ensures var s := Format(weight, factor);
            ParseDecimal(s) == Some((weight, 0)) && s != "" && (s[0] == '0' ==> |s| == 1 || s[1] == '.')
  {
    ParseFormat(weight, "");
    FirstChar(weight, "");
  }
}
