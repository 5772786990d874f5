/** pkg/cache/cache.go: blocks and a checkpoint in one ordered key-value store. Block keys are zero-padded so
    that byte order is numeric order and a range of blocks is a range of keys. */
module BlockCache {
  import opened Base
  import opened Decimal
  import Lex

  const PREFIX: string := "block:"
  const PADDING: nat := 14
  const CHECKPOINT_KEY: string := "checkpoint:last_cached_block"
  const LIMIT: int := 100_000_000_000_000

  // ---- Keys ----

  function PadLeft(s: string, width: nat): (r: string)
    ensures |r| == if |s| < width then width else |s|
  {
    if |s| < width then Zeros(width - |s|) + s else s
  }

  /** A numeral with at least `width` digits. */
  function SignedText(n: int, width: nat): string {
    if n < 0 then "-" + PadLeft(Dec(-n), width) else PadLeft(Dec(n), width)
  }

  /** %0*d: the padding counts the sign. */
  function Padded(n: int): string {
    SignedText(n, if n < 0 then PADDING - 1 else PADDING)
  }

  function FormatBlockKey(blockNum: int): string {
    PREFIX + Padded(blockNum)
  }

  /** strconv.ParseInt(s, 10, 64): an optional sign, then digits, in range. */
  function ParseInt(s: string): Option<int64> {
    if s == "" then None
    else
      var signed := s[0] == '-' || s[0] == '+';
      var digits := if signed then s[1..] else s;
      if digits == "" || !AllDigits(digits) then None
      else
        var n := if s[0] == '-' then -(Val(digits) as int) else Val(digits);
        if -0x8000_0000_0000_0000 <= n < 0x8000_0000_0000_0000 then Some(n) else None
  }

  /** parseBlockKey: the first 14 characters behind the prefix, -1 when they are no number. */
  function ParseBlockKey(key: string): int64 {
    if |key| < |PREFIX| + PADDING || key[..|PREFIX|] != PREFIX then -1
    else
      match ParseInt(key[|PREFIX|..|PREFIX| + PADDING])
      case None => -1
      case Some(n) => n
  }

  /** strconv.FormatInt(n, 10). */
  function FormatInt(n: int): string {
    SignedText(n, 0)
  }

  lemma Limits()
    ensures Pow10(14) == LIMIT && Pow10(13) == LIMIT / 10
  {
    assert Pow10(7) == 10_000_000;
    Pow10Add(7, 6);
    assert Pow10(6) == 1_000_000;
  }

  /** Numbers below 10^k have at most k digits, others more. */
  lemma {:induction false} DecLength(n: nat, k: nat)
    requires k >= 1
    ensures |Dec(n)| <= k <==> n < Pow10(k)
    decreases k
  {
    if k == 1 {
      assert Pow10(1) == 10;
    } else if n >= 10 {
      DecLength(n / 10, k - 1);
      assert n < 10 * Pow10(k - 1) <==> n / 10 < Pow10(k - 1);
    } else {
      assert Pow10(k - 1) >= 1;
    }
  }

  lemma PadValue(n: nat, width: nat)
    ensures var p := PadLeft(Dec(n), width);
            AllDigits(p) && Val(p) == n && p != "" && IsDigit(p[0])
  {
    ValDec(n);
    if |Dec(n)| < width {
      ValZeros(width - |Dec(n)|);
      ValAppend(Zeros(width - |Dec(n)|), Dec(n));
    }
  }

  ghost predicate IsInt64(n: int) {
    -0x8000_0000_0000_0000 <= n < 0x8000_0000_0000_0000
  }

  /** ParseInt reads any padded signed numeral back. */
  lemma ParseSigned(n: int, width: nat)
    requires IsInt64(n)
    ensures ParseInt(SignedText(n, width)) == Some(n)
  {
    var m := if n < 0 then -n else n;
    PadValue(m, width);
    var p := PadLeft(Dec(m), width);
    hide PadLeft, Dec, Val, AllDigits;
    assert ("-" + p)[1..] == p;
  }

  /** A prefix of an over-long number is smaller than the number. */
  lemma CutNumber(digits: string, k: nat)
    requires AllDigits(digits) && 0 < k < |digits| && digits[0] != '0'
    ensures Val(digits[..k]) < Val(digits)
  {
    var a, b := digits[..k], digits[k..];
    assert digits == a + b;
    ValAppend(a, b);
    LeadingDigit(a);
    assert Pow10(|b|) == 10 * Pow10(|b| - 1);
    hide Val;
    Grow(Val(a), Pow10(|b|), Val(b));
  }

  lemma Grow(v: nat, p: nat, b: nat)
    requires v >= 1 && p >= 10
    ensures v < v * p + b
  {
    assert v * p >= v * 10;
  }

  lemma LeadingDigit(s: string)
    requires s != "" && AllDigits(s) && s[0] != '0'
    ensures Val(s) >= 1
  {
    FirstDigit(s);
    hide Val, Pow10;
    MulLe(1, DigitVal(s[0]), Pow10(|s| - 1));
  }

  /** The key of a block number is "block:" and 14 digits, zeros first. */
  lemma KeyIs(n: int)
    requires 0 <= n < 100_000_000_000_000
    ensures |Dec(n)| <= 14 && |FormatBlockKey(n)| == 20
    ensures FormatBlockKey(n) == "block:" + (Zeros(14 - |Dec(n)|) + Dec(n))
  {
    Limits();
    DecLength(n, 14);
    hide Dec, Pow10;
    assert 14 - |Dec(n)| == 0 ==> Zeros(0) == "";
  }

  /** What a checkpoint is written as. */
  lemma FormatIntIs(n: int)
    ensures FormatInt(n) == if n < 0 then "-" + Dec(-n) else Dec(n)
  {
  }

  ghost predicate IsSignedNumeral(s: string, n: int, sign: string, zeros: nat) {
    && sign in {"", "+", "-"} && s == sign + Zeros(zeros) + Dec(if n < 0 then -n else n)
    && (if sign == "-" then n <= 0 else n >= 0)
  }

  /** What parses: the numerals in range, perhaps signed, leading zeros allowed. */
  lemma ParseIntIff(s: string, n: int)
    ensures ParseInt(s) == Some(n) <==> IsInt64(n) && exists sign: string, zeros: nat :: IsSignedNumeral(s, n, sign, zeros)
  {
    hide Dec, Val, Zeros, AllDigits, IsSignedNumeral, ParseInt;
    if ParseInt(s) == Some(n) { ParsedIsNumeral(s, n); }
    if IsInt64(n) && exists sign: string, zeros: nat :: IsSignedNumeral(s, n, sign, zeros) {
      var sign: string, zeros: nat :| IsSignedNumeral(s, n, sign, zeros);
      NumeralParses(s, n, sign, zeros);
    }
  }

  lemma ParsedIsNumeral(s: string, n: int)
    requires ParseInt(s) == Some(n)
    ensures IsInt64(n) && exists sign: string, zeros: nat :: IsSignedNumeral(s, n, sign, zeros)
  {
    var sign, digits := CutSign(s, n);
    hide *;
    var zeros := DigitsAreNumeral(digits);
    AddSign(s, n, sign, digits, zeros);
  }

  lemma CutSign(s: string, n: int) returns (sign: string, digits: string)
    requires ParseInt(s) == Some(n)
    ensures IsInt64(n) && sign in {"", "+", "-"} && s == sign + digits && digits != "" && AllDigits(digits)
    ensures Val(digits) == if sign == "-" then -n else n
  {
    hide Val;
    var signed := s[0] == '-' || s[0] == '+';
    digits := if signed then s[1..] else s;
    sign := if signed then [s[0]] else "";
  }

  lemma AddSign(s: string, n: int, sign: string, digits: string, zeros: nat)
    requires sign in {"", "+", "-"} && s == sign + digits && AllDigits(digits)
    requires digits == Zeros(zeros) + Dec(Val(digits)) && Val(digits) == if sign == "-" then -n else n
    ensures IsSignedNumeral(s, n, sign, zeros)
  {
    hide Dec, Val, Zeros, AllDigits;
    var v := Val(digits);
    assert v == if n < 0 then -n else n;
    assert sign + (Zeros(zeros) + Dec(v)) == sign + Zeros(zeros) + Dec(v);
  }

  lemma NumeralParses(s: string, n: int, sign: string, zeros: nat)
    requires IsInt64(n) && IsSignedNumeral(s, n, sign, zeros)
    ensures ParseInt(s) == Some(n)
  {
    hide Dec, Val;
    var digits := Zeros(zeros) + Dec(if n < 0 then -n else n);
    ValOfNumeral(if n < 0 then -n else n, zeros);
    assert s == sign + digits;
    SignAndDigits(s, sign, digits);
  }

  lemma SignAndDigits(s: string, sign: string, digits: string)
    requires sign in {"", "+", "-"} && s == sign + digits && digits != "" && AllDigits(digits)
    ensures s != "" && (s[0] == '-' <==> sign == "-") && (s[0] == '+' <==> sign == "+")
    ensures digits == if s[0] == '-' || s[0] == '+' then s[1..] else s
  {
    assert IsDigit(digits[0]);
  }

  /** parseBlockKey undoes formatBlockKey on exactly the numbers that fit into the 14 characters, a minus
      sign taking one of them. */
  lemma ParseFormat(n: int)
    requires IsInt64(n)
    ensures ParseBlockKey(FormatBlockKey(n)) == n <==> -LIMIT / 10 < n < LIMIT
  {
    hide PadLeft, Dec, Val, Pow10, AllDigits;
    Limits();
    var key := FormatBlockKey(n);
    var text := Padded(n);
    assert key[..|PREFIX|] == PREFIX;
    assert key[|PREFIX|..|PREFIX| + PADDING] == text[..PADDING];
    if n < 0 { DecLength(-n, 13); } else { DecLength(n, 14); }
    if -LIMIT / 10 < n < LIMIT {
      assert text[..PADDING] == text == SignedText(n, if n < 0 then 13 else 14);
      ParseSigned(n, if n < 0 then 13 else 14);
    } else {
      CutMisreads(n);
    }
  }

  lemma CutMisreads(n: int)
    requires IsInt64(n) && !(-LIMIT / 10 < n < LIMIT)
    ensures ParseBlockKey(FormatBlockKey(n)) != n
  {
    Limits();
    var key := FormatBlockKey(n);
    var text := Padded(n);
    assert key[..|PREFIX|] == PREFIX;
    assert key[|PREFIX|..|PREFIX| + PADDING] == text[..PADDING];
    hide FormatBlockKey, PadLeft, Pow10;
    var m := if n < 0 then -n else n;
    DecLength(m, if n < 0 then 13 else 14);
    ValDec(m);
    var cut := if n < 0 then 13 else 14;
    CutNumber(Dec(m), cut);
    LongPad(m, cut);
    if n < 0 {
      assert text[..PADDING][1..] == Dec(m)[..cut];
    } else {
      assert text[..PADDING] == Dec(m)[..cut];
    }
  }

  lemma LongPad(m: nat, width: nat)
    requires |Dec(m)| > width
    ensures PadLeft(Dec(m), width) == Dec(m)
  {
  }

  // ---- Byte order ----

  predicate KeyLess(a: string, b: string) {
    Lex.StringLess(a, b)
  }

  /** Digit strings of one length are ordered as their values. */
  lemma {:induction false} DigitOrder(a: string, b: string)
    requires AllDigits(a) && AllDigits(b) && |a| == |b|
    ensures Lex.Less(Lex.Codes(a), Lex.Codes(b)) <==> Val(a) < Val(b)
  {
    if a != "" {
      DigitOrder(a[1..], b[1..]);
      assert Lex.Codes(a)[1..] == Lex.Codes(a[1..]) && Lex.Codes(b)[1..] == Lex.Codes(b[1..]);
      FirstDigit(a);
      FirstDigit(b);
      ValBound(a[1..]);
      ValBound(b[1..]);
      Weigh(DigitVal(a[0]), DigitVal(b[0]), Val(a[1..]), Val(b[1..]), Pow10(|a| - 1));
    }
  }

  lemma FirstDigit(s: string)
    requires s != "" && AllDigits(s)
    ensures AllDigits(s[1..]) && Val(s) == DigitVal(s[0]) * Pow10(|s| - 1) + Val(s[1..])
  {
    var first: string := [s[0]];
    assert s == first + s[1..];
    assert Val(first) == DigitVal(s[0]) by { assert first[..0] == ""; }
    hide Val, Pow10;
    ValAppend(first, s[1..]);
  }

  lemma Weigh(d: nat, e: nat, x: nat, y: nat, p: nat)
    requires x < p && y < p
    ensures d < e ==> d * p + x < e * p + y
    ensures d == e ==> (d * p + x < e * p + y <==> x < y)
    ensures d > e ==> d * p + x > e * p + y
  {
    if d < e { assert (d + 1) * p <= e * p; }
    if d > e { assert (e + 1) * p <= d * p; }
  }

  lemma PrefixOrder(a: string, b: string)
    ensures KeyLess(PREFIX + a, PREFIX + b) <==> Lex.Less(Lex.Codes(a), Lex.Codes(b))
  {
    assert Lex.Codes(PREFIX + a) == Lex.Codes(PREFIX) + Lex.Codes(a);
    assert Lex.Codes(PREFIX + b) == Lex.Codes(PREFIX) + Lex.Codes(b);
    Lex.CommonPrefix(Lex.Codes(PREFIX), Lex.Codes(a), Lex.Codes(b));
  }

  ghost predicate IsBlockNumber(n: int) {
    0 <= n < LIMIT
  }

  lemma PaddedLength(n: int)
    requires IsBlockNumber(n)
    ensures |Padded(n)| == PADDING && AllDigits(Padded(n)) && Val(Padded(n)) == n
  {
    Limits();
    DecLength(n, 14);
    PadValue(n, PADDING);
  }

  /** On block numbers the byte order of keys is the numeric order. */
  lemma KeysAreOrdered(m: int, n: int)
    requires IsBlockNumber(m) && IsBlockNumber(n)
    ensures KeyLess(FormatBlockKey(m), FormatBlockKey(n)) <==> m < n
  {
    hide Padded, Lex.Less, KeyLess, Val;
    PaddedLength(m);
    PaddedLength(n);
    PrefixOrder(Padded(m), Padded(n));
    DigitOrder(Padded(m), Padded(n));
  }

  /** The key of a negative number is below all block keys. */
  lemma NegativeFirst(m: int, n: int)
    requires m < 0 && IsBlockNumber(n)
    ensures KeyLess(FormatBlockKey(m), FormatBlockKey(n)) && !KeyLess(FormatBlockKey(n), FormatBlockKey(m))
  {
    hide PadLeft, Val, KeyLess;
    PaddedLength(n);
    PrefixOrder(Padded(m), Padded(n));
    PrefixOrder(Padded(n), Padded(m));
    assert Padded(m)[0] == '-' && IsDigit(Padded(n)[0]);
    assert Lex.Codes(Padded(m))[0] < Lex.Codes(Padded(n))[0];
  }

  /** The checkpoint's key lies above every key that starts with the block prefix. */
  lemma CheckpointLast(s: string)
    ensures KeyLess(PREFIX + s, CHECKPOINT_KEY)
  {
    assert Lex.Codes(PREFIX + s)[0] == 'b' as int && Lex.Codes(CHECKPOINT_KEY)[0] == 'c' as int;
  }

  lemma KeyLessAsymmetric(a: string, b: string)
    requires KeyLess(a, b)
    ensures !KeyLess(b, a)
  {
    if KeyLess(b, a) {
      Lex.Transitive(Lex.Codes(a), Lex.Codes(b), Lex.Codes(a));
      Lex.Irreflexive(Lex.Codes(a));
    }
  }

  lemma KeyTransitive(a: string, b: string, c: string)
    requires KeyLess(a, b) && KeyLess(b, c)
    ensures KeyLess(a, c)
  {
    Lex.Transitive(Lex.Codes(a), Lex.Codes(b), Lex.Codes(c));
  }

  // ---- The iterator bounds ----

  /** Keys the iterator of GetBlockRange visits: from formatBlockKey(from), below formatBlockKey(end). */
  predicate InBounds(key: string, from: int, end: int) {
    !KeyLess(key, FormatBlockKey(from)) && KeyLess(key, FormatBlockKey(end))
  }

  /** The lower bound keeps every block from `from` on. */
  lemma LowerBoundIsExact(n: int, from: int)
    requires IsBlockNumber(n) && from < LIMIT
    ensures !KeyLess(FormatBlockKey(n), FormatBlockKey(from)) <==> from <= n
  {
    hide KeyLess, FormatBlockKey;
    if from < 0 {
      NegativeFirst(from, n);
    } else {
      KeysAreOrdered(n, from);
    }
  }

  /** The upper bound keeps exactly the blocks below `end` as long as that still has 14 digits. */
  lemma UpperBoundIsExact(n: int, end: int)
    requires IsBlockNumber(n) && end < LIMIT
    ensures KeyLess(FormatBlockKey(n), FormatBlockKey(end)) <==> n < end
  {
    hide KeyLess, FormatBlockKey;
    if end < 0 {
      NegativeFirst(end, n);
    } else {
      KeysAreOrdered(n, end);
    }
  }

  lemma CheckpointOutOfBounds(from: int, end: int)
    ensures !InBounds(CHECKPOINT_KEY, from, end)
  {
    CheckpointLast(Padded(end));
    KeyLessAsymmetric(FormatBlockKey(end), CHECKPOINT_KEY);
  }

  lemma {:induction false} LessThanExtension(a: seq<int>, b: seq<int>, x: seq<int>)
    requires |a| == |b|
    ensures Lex.Less(a, b + x) <==> Lex.Less(a, b) || (a == b && x != [])
  {
    if a == [] {
      assert b + x == x;
    } else {
      LessThanExtension(a[1..], b[1..], x);
      assert (b + x)[1..] == b[1..] + x;
      assert a == [a[0]] + a[1..] && b == [b[0]] + b[1..];
    }
  }

  /** Beyond that the upper bound has more than 14 digits, and cuts as if it were shortened to 14: too low, unless it
      starts with fourteen nines. */
  lemma LongUpperBound(n: int, end: int)
    requires IsBlockNumber(n) && end >= LIMIT
    ensures |Dec(end)| > PADDING
    ensures KeyLess(FormatBlockKey(n), FormatBlockKey(end)) <==> n <= end / Pow10(|Dec(end)| - PADDING)
  {
    hide KeyLess, Lex.Less, Dec, Val, Pow10, Padded;
    Limits();
    var d := Dec(end);
    DecLength(end, 14);
    assert Padded(end) == d by { LongPad(end, PADDING); PaddedIs(end); }
    var p, x := d[..PADDING], d[PADDING..];
    assert d == p + x;
    PaddedLength(n);
    PrefixOrder(Padded(n), d);
    assert Lex.Codes(d) == Lex.Codes(p) + Lex.Codes(x);
    LessThanExtension(Lex.Codes(Padded(n)), Lex.Codes(p), Lex.Codes(x));
    DigitOrder(Padded(n), p);
    SameCodes(Padded(n), p);
    SameDigits(Padded(n), p);
    ValDec(end);
    ValAppend(p, x);
    ValBound(x);
    Shorten(end, Val(p), Pow10(|x|), Val(x));
  }

  lemma PaddedIs(n: int)
    requires n >= 0
    ensures Padded(n) == PadLeft(Dec(n), PADDING)
  {
  }

  lemma SameCodes(a: string, b: string)
    ensures Lex.Codes(a) == Lex.Codes(b) <==> a == b
  {
    if Lex.Codes(a) == Lex.Codes(b) {
      assert forall i :: 0 <= i < |a| ==> Lex.Codes(a)[i] == Lex.Codes(b)[i] && a[i] == b[i];
    }
  }

  /** Digit strings of one length are equal when their values are. */
  lemma SameDigits(a: string, b: string)
    requires AllDigits(a) && AllDigits(b) && |a| == |b|
    ensures Val(a) == Val(b) <==> a == b
  {
    hide Val;
    DigitOrder(a, b);
    DigitOrder(b, a);
    Lex.StringTrichotomy(a, b);
  }

  lemma Shorten(n: nat, v: nat, p: nat, x: nat)
    requires p > 0 && n == v * p + x && x < p
    ensures n / p == v
  {
    DivUnique(n, p, v, x);
  }

  /** The blocks that GetBlockRange(from, to) can list: those of the window whose key is below the upper bound. */
  ghost predicate InWindow(n: int, from: int64, to: int64) {
    IsBlockNumber(n) && from <= n <= to && KeyLess(FormatBlockKey(n), FormatBlockKey(Wrap64(to + 1)))
  }

  /** They are all blocks of [from, to] while to + 1 has at most 14 digits, and otherwise those up to its first 14
      digits; the last int64 wraps around, and nothing is listed. */
  lemma WindowIs(n: int, from: int64, to: int64)
    ensures to + 1 < LIMIT ==> (InWindow(n, from, to) <==> IsBlockNumber(n) && from <= n <= to)
    ensures LIMIT <= to + 1 < 0x8000_0000_0000_0000 ==>
              |Dec(to + 1)| > PADDING
              && (InWindow(n, from, to) <==>
                  IsBlockNumber(n) && from <= n && n <= (to + 1) / Pow10(|Dec(to + 1)| - PADDING))
    ensures to + 1 == 0x8000_0000_0000_0000 ==> !InWindow(n, from, to)
  {
    hide KeyLess, FormatBlockKey, Dec, Pow10;
    if to + 1 == 0x8000_0000_0000_0000 {
      if IsBlockNumber(n) { UpperBoundIsExact(n, Wrap64(to + 1)); }
    } else {
      WrapNothing(to + 1);
      if IsBlockNumber(n) {
        if to + 1 < LIMIT { UpperBoundIsExact(n, to + 1); } else { LongUpperBound(n, to + 1); }
      } else if to + 1 >= LIMIT {
        LongUpperBound(0, to + 1);
      }
    }
  }

  lemma WrapNothing(n: int64)
    ensures Wrap64(n) == n
  {
  }

  // ---- What a key in the bounds stands for ----

  lemma KeysDiffer(m: int, n: int)
    requires IsInt64(m) && IsInt64(n)
    ensures FormatBlockKey(m) == FormatBlockKey(n) <==> m == n
    ensures FormatBlockKey(m) != CHECKPOINT_KEY
  {
    hide ParseInt, SignedText;
    ParseSigned(m, if m < 0 then PADDING - 1 else PADDING);
    ParseSigned(n, if n < 0 then PADDING - 1 else PADDING);
    assert FormatBlockKey(m)[|PREFIX|..] == Padded(m) && FormatBlockKey(n)[|PREFIX|..] == Padded(n);
    assert FormatBlockKey(m)[0] == 'b' && CHECKPOINT_KEY[0] == 'c';
  }

  /** Strings that differ within their common length are ordered by that part. */
  lemma {:induction false} LessAtFront(a: seq<int>, b: seq<int>, x: seq<int>, y: seq<int>)
    requires |a| == |b| && Lex.Less(a, b)
    ensures Lex.Less(a + x, b + y)
  {
    assert (a + x)[0] == a[0] && (b + y)[0] == b[0];
    if a[0] == b[0] {
      LessAtFront(a[1..], b[1..], x, y);
      assert (a + x)[1..] == a[1..] + x && (b + y)[1..] == b[1..] + y;
    }
  }

  lemma LowFirst(a: string, from: int)
    requires a != "" && (a[0] == '+' || (a[0] == '-' && from >= 0))
    ensures KeyLess(PREFIX + a, FormatBlockKey(from))
  {
    hide KeyLess;
    PrefixOrder(a, Padded(from));
    PaddedStart(from);
    assert Lex.Codes(a)[0] == a[0] as int && Lex.Codes(Padded(from))[0] == Padded(from)[0] as int;
  }

  lemma PaddedStart(n: int)
    ensures var p := Padded(n); p != "" && if n < 0 then p[0] == '-' else IsDigit(p[0])
  {
    if n >= 0 { PadValue(n, PADDING); }
  }

  /** "-000..." would be block 0, but lies below every negative lower bound. */
  lemma MinusZeroFirst(z: string, x: string, from: int)
    requires |z| == PADDING - 1 && AllDigits(z) && Val(z) == 0 && from < 0
    ensures KeyLess(PREFIX + ("-" + z + x), FormatBlockKey(from))
  {
    var k := PADDING - 1;
    var p := PadLeft(Dec(-from), k);
    PositiveStart(-from, k);
    assert Padded(from) == "-" + p;
    hide KeyLess, Val, Dec, PadLeft, AllDigits, Padded, Lex.Less;
    DigitOrder(z, p[..k]);
    SignedOrder(z, x, p[..k], p[k..]);
    SignSplit(p, k);
    PrefixOrder("-" + z + x, Padded(from));
  }

  lemma SignSplit(p: string, k: nat)
    requires k <= |p|
    ensures "-" + p == "-" + p[..k] + p[k..]
  {
  }

  lemma SignedOrder(z: string, x: string, front: string, back: string)
    requires |z| == |front| && Lex.Less(Lex.Codes(z), Lex.Codes(front))
    ensures Lex.Less(Lex.Codes("-" + z + x), Lex.Codes("-" + front + back))
  {
    hide Lex.Less;
    LessAtFront(Lex.Codes(z), Lex.Codes(front), Lex.Codes(x), Lex.Codes(back));
    BehindSign(z, x);
    BehindSign(front, back);
    Lex.CommonPrefix(Lex.Codes("-"), Lex.Codes(z) + Lex.Codes(x), Lex.Codes(front) + Lex.Codes(back));
  }

  lemma BehindSign(a: string, b: string)
    ensures Lex.Codes("-" + a + b) == Lex.Codes("-") + (Lex.Codes(a) + Lex.Codes(b))
  {
  }

  lemma PositiveStart(m: nat, k: nat)
    requires m > 0 && k > 0
    ensures var p := PadLeft(Dec(m), k);
            |p| >= k && AllDigits(p) && AllDigits(p[..k]) && Val(p[..k]) > 0
  {
    PadValue(m, k);
    var p := PadLeft(Dec(m), k);
    if |Dec(m)| > k {
      ValDec(m);
      LongPad(m, k);
      LeadingDigit(p[..k]);
    } else {
      assert p[..k] == p;
    }
  }

  /** A key in the bounds that parses to a block number is that block's key, possibly with something behind it. */
  lemma HitExtendsKey(key: string, from: int, end: int)
    requires InBounds(key, from, end) && ParseBlockKey(key) >= 0
    ensures var n := ParseBlockKey(key);
            IsBlockNumber(n) && FormatBlockKey(n) <= key
            && (key == FormatBlockKey(n) || KeyLess(FormatBlockKey(n), key))
  {
    var k := |PREFIX| + PADDING;
    ParseKeyText(key);
    var text, rest := key[|PREFIX|..k], key[k..];
    hide KeyLess, FormatBlockKey, ParseBlockKey, ParseInt;
    KeyParts(key);
    if text[0] == '+' || text[0] == '-' {
      SignedBelow(text, rest, from);
      assert false;
    } else {
      UnsignedText(text);
      DigitsArePadded(text);
      KeyExtension(ParseBlockKey(key), text, rest, key);
    }
  }

  /** Signed numerals of non-negative numbers lie below every lower bound. */
  lemma SignedBelow(text: string, rest: string, from: int)
    requires |text| == PADDING && (text[0] == '+' || text[0] == '-') && ParseInt(text).Some? && ParseInt(text).value >= 0
    ensures KeyLess(PREFIX + (text + rest), FormatBlockKey(from))
  {
    hide KeyLess, FormatBlockKey, Val;
    if text[0] == '+' || from >= 0 {
      LowFirst(text + rest, from);
    } else {
      assert text + rest == "-" + text[1..] + rest;
      MinusZeroFirst(text[1..], rest, from);
    }
  }

  lemma UnsignedText(text: string)
    requires text != "" && text[0] != '+' && text[0] != '-' && ParseInt(text).Some?
    ensures AllDigits(text) && Val(text) == ParseInt(text).value
  {
    hide Val;
  }

  lemma KeyParts(key: string)
    requires |key| >= |PREFIX| + PADDING && key[..|PREFIX|] == PREFIX
    ensures key == PREFIX + (key[|PREFIX|..|PREFIX| + PADDING] + key[|PREFIX| + PADDING..])
  {
  }

  lemma ParseKeyText(key: string)
    requires ParseBlockKey(key) >= 0
    ensures |key| >= |PREFIX| + PADDING && key[..|PREFIX|] == PREFIX
    ensures ParseInt(key[|PREFIX|..|PREFIX| + PADDING]) == Some(ParseBlockKey(key))
  {
  }

  lemma DigitsArePadded(text: string)
    requires AllDigits(text) && |text| == PADDING
    ensures IsBlockNumber(Val(text)) && Padded(Val(text)) == text
  {
    hide Val, Padded, Pow10;
    Limits();
    ValBound(text);
    PaddedLength(Val(text));
    SameDigits(Padded(Val(text)), text);
  }

  lemma KeyExtension(n: int, text: string, rest: string, key: string)
    requires Padded(n) == text && key == PREFIX + (text + rest)
    ensures FormatBlockKey(n) <= key && (key == FormatBlockKey(n) || KeyLess(FormatBlockKey(n), key))
  {
    hide Padded, KeyLess;
    assert key == FormatBlockKey(n) + rest;
    if rest == "" { assert key == FormatBlockKey(n); } else { LongerIsLater(FormatBlockKey(n), rest); }
  }

  // ---- What a range scan returns ----

  /** A key of the scan that is filed under n. */
  ghost predicate Hit(keys: set<string>, from: int64, to: int64, key: string, n: int) {
    key in keys && InBounds(key, from, Wrap64(to + 1)) && ParseBlockKey(key) == n
  }

  /** The last of them in key order, which overwrites the others. */
  ghost predicate LastHit(keys: set<string>, from: int64, to: int64, key: string, n: int) {
    Hit(keys, from, to, key, n) && forall k :: Hit(keys, from, to, k, n) ==> !KeyLess(key, k)
  }

  ghost predicate IsRange(r: map<int, string>, db: map<string, string>, from: int64, to: int64) {
    && (forall n :: n in r <==> 0 <= n && from <= n <= to && exists key :: Hit(db.Keys, from, to, key, n))
    && (forall n :: n in r ==> exists key :: LastHit(db.Keys, from, to, key, n) && r[n] == db[key])
  }

  /** The stored blocks of the window. */
  ghost predicate IsBlocks(r: map<int, string>, db: map<string, string>, from: int64, to: int64) {
    && (forall n :: n in r <==> InWindow(n, from, to) && FormatBlockKey(n) in db)
    && (forall n :: n in r && FormatBlockKey(n) in db ==> r[n] == db[FormatBlockKey(n)])
  }

  /** No key of the scan but a block's own is filed under a number of the range. */
  ghost predicate NoForeign(keys: set<string>, from: int64, to: int64) {
    forall key, n :: Hit(keys, from, to, key, n) && 0 <= n && from <= n <= to ==> key == FormatBlockKey(n)
  }

  lemma OwnKeyHits(keys: set<string>, from: int64, to: int64, n: int)
    requires InWindow(n, from, to) && FormatBlockKey(n) in keys
    ensures Hit(keys, from, to, FormatBlockKey(n), n)
  {
    hide KeyLess, FormatBlockKey, ParseBlockKey;
    LowerBoundIsExact(n, from);
    ParseFormat(n);
  }

  /** A hit is the block's own key or a longer one, which comes later; either way the block is in the window. */
  lemma HitIsInWindow(keys: set<string>, from: int64, to: int64, key: string, n: int)
    requires Hit(keys, from, to, key, n) && 0 <= n && from <= n <= to
    ensures InWindow(n, from, to) && (key == FormatBlockKey(n) || KeyLess(FormatBlockKey(n), key))
  {
    hide FormatBlockKey, ParseBlockKey, KeyLess;
    HitExtendsKey(key, from, Wrap64(to + 1));
    if key != FormatBlockKey(n) { KeyTransitive(FormatBlockKey(n), key, FormatBlockKey(Wrap64(to + 1))); }
  }

  lemma LastHitUnique(keys: set<string>, from: int64, to: int64, a: string, b: string, n: int)
    requires LastHit(keys, from, to, a, n) && LastHit(keys, from, to, b, n)
    ensures a == b
  {
    hide InBounds, ParseBlockKey;
    Lex.StringTrichotomy(a, b);
  }

  /** The scan returns exactly the stored blocks of the window if and only if for each of its numbers the last key
      filed under it carries what is stored as that block. */
  lemma RangeIsBlocksIff(r: map<int, string>, db: map<string, string>, from: int64, to: int64)
    requires IsRange(r, db, from, to)
    ensures IsBlocks(r, db, from, to) <==>
            forall key, n :: LastHit(db.Keys, from, to, key, n) && 0 <= n && from <= n <= to ==>
              FormatBlockKey(n) in db && db[key] == db[FormatBlockKey(n)]
  {
    hide KeyLess, FormatBlockKey, ParseBlockKey, InBounds;
    forall n | n in r ensures InWindow(n, from, to) {
      var key :| Hit(db.Keys, from, to, key, n);
      HitIsInWindow(db.Keys, from, to, key, n);
    }
    forall n | InWindow(n, from, to) && FormatBlockKey(n) in db ensures n in r {
      OwnKeyHits(db.Keys, from, to, n);
    }
    forall key, n | LastHit(db.Keys, from, to, key, n) && 0 <= n && from <= n <= to ensures n in r && r[n] == db[key] {
      var last :| LastHit(db.Keys, from, to, last, n) && r[n] == db[last];
      LastHitUnique(db.Keys, from, to, key, last, n);
    }
  }

  /** Without foreign keys the scan is right; with one, it is wrong unless equal values hide it. */
  lemma RangeIffNoForeign(r: map<int, string>, db: map<string, string>, from: int64, to: int64)
    requires IsRange(r, db, from, to)
    ensures NoForeign(db.Keys, from, to) ==> IsBlocks(r, db, from, to)
    ensures (forall a, b :: a in db && b in db && a != b ==> db[a] != db[b]) ==>
              (IsBlocks(r, db, from, to) <==> NoForeign(db.Keys, from, to))
  {
    hide KeyLess, FormatBlockKey, ParseBlockKey, InBounds, IsBlocks;
    RangeIsBlocksIff(r, db, from, to);
    if IsBlocks(r, db, from, to) && forall a, b :: a in db && b in db && a != b ==> db[a] != db[b] {
      forall key, n | Hit(db.Keys, from, to, key, n) && 0 <= n && from <= n <= to ensures key == FormatBlockKey(n) {
        assert n in r;
        var last :| LastHit(db.Keys, from, to, last, n) && r[n] == db[last];
        assert last == FormatBlockKey(n);
        HitIsInWindow(db.Keys, from, to, key, n);
        assert !KeyLess(last, key);
      }
    }
  }

  /** A store that only holds blocks and the checkpoint has no foreign keys in any range. */
  lemma OwnKeysAreNotForeign(keys: set<string>, from: int64, to: int64)
    requires forall k :: k in keys ==> k == CHECKPOINT_KEY || exists n :: IsBlockNumber(n) && k == FormatBlockKey(n)
    ensures NoForeign(keys, from, to)
  {
    hide KeyLess, FormatBlockKey, ParseBlockKey, InBounds;
    forall key, n | Hit(keys, from, to, key, n) ensures key == FormatBlockKey(n) {
      CheckpointOutOfBounds(from, Wrap64(to + 1));
      var m :| IsBlockNumber(m) && key == FormatBlockKey(m);
      ParseFormat(m);
    }
  }

  lemma LongerKey(n: int, x: string, from: int, end: int)
    requires IsBlockNumber(n) && from <= n < end < LIMIT && x != ""
    ensures var key := FormatBlockKey(n) + x;
            InBounds(key, from, end) && ParseBlockKey(key) == n && KeyLess(FormatBlockKey(n), key)
  {
    var key := FormatBlockKey(n) + x;
    ParseLonger(n, x);
    SameLength(n, end);
    LowerBoundIsExact(n, from);
    KeysAreOrdered(n, end);
    hide FormatBlockKey, KeyLess, ParseBlockKey;
    LongerIsLater(FormatBlockKey(n), x);
    LongerIsBelow(FormatBlockKey(n), x, FormatBlockKey(end));
    if KeyLess(key, FormatBlockKey(from)) {
      KeyTransitive(FormatBlockKey(n), key, FormatBlockKey(from));
    }
  }

  lemma LongerIsLater(a: string, x: string)
    requires x != ""
    ensures KeyLess(a, a + x)
  {
    hide Lex.Less;
    assert Lex.Codes(a + x) == Lex.Codes(a) + Lex.Codes(x);
    LessThanExtension(Lex.Codes(a), Lex.Codes(a), Lex.Codes(x));
  }

  lemma LongerIsBelow(a: string, x: string, b: string)
    requires |a| == |b| && KeyLess(a, b)
    ensures KeyLess(a + x, b)
  {
    hide Lex.Less;
    assert Lex.Codes(a + x) == Lex.Codes(a) + Lex.Codes(x) && Lex.Codes(b) + [] == Lex.Codes(b);
    LessAtFront(Lex.Codes(a), Lex.Codes(b), Lex.Codes(x), []);
  }

  lemma SameLength(m: int, n: int)
    requires IsBlockNumber(m) && IsBlockNumber(n)
    ensures |FormatBlockKey(m)| == |FormatBlockKey(n)| == |PREFIX| + PADDING
  {
    hide Padded;
    PaddedLength(m);
    PaddedLength(n);
  }

  lemma ParseLonger(n: int, x: string)
    requires IsBlockNumber(n)
    ensures ParseBlockKey(FormatBlockKey(n) + x) == n
  {
    var own := FormatBlockKey(n);
    var key := own + x;
    var k := |PREFIX| + PADDING;
    ParseFormat(n);
    SameLength(n, n);
    hide FormatBlockKey, ParseInt;
    assert key[..|PREFIX|] == own[..|PREFIX|] && key[|PREFIX|..k] == own[|PREFIX|..k];
  }

  /** A longer key is foreign, and what it holds is returned in place of the block it starts with. */
  lemma LongerKeyShadows(r: map<int, string>, db: map<string, string>, n: int, x: string, from: int64, to: int64)
    requires IsBlockNumber(n) && from <= n <= to && to + 1 < LIMIT && x != ""
    requires db.Keys == {FormatBlockKey(n), FormatBlockKey(n) + x} && IsRange(r, db, from, to)
    ensures n in r && r[n] == db[FormatBlockKey(n) + x]
  {
    WrapNothing(to + 1);
    LongerKey(n, x, from, to + 1);
    hide KeyLess, FormatBlockKey, ParseBlockKey, InBounds, Wrap64;
    var own, long := FormatBlockKey(n), FormatBlockKey(n) + x;
    assert Hit(db.Keys, from, to, long, n);
    var last := HitIsListed(r, db, from, to, long, n);
    assert last == own || last == long;
    hide Hit, IsRange;
  }

  /** A key filed under a number of the range is not later than the one whose value is listed there. */
  lemma HitIsListed(r: map<int, string>, db: map<string, string>, from: int64, to: int64, key: string, n: int)
    returns (last: string)
    requires IsRange(r, db, from, to) && Hit(db.Keys, from, to, key, n) && 0 <= n && from <= n <= to
    ensures n in r && last in db && r[n] == db[last] && !KeyLess(last, key)
  {
    hide KeyLess, ParseBlockKey, InBounds, Wrap64;
    assert n in r;
    last :| LastHit(db.Keys, from, to, last, n) && r[n] == db[last];
  }

  /** Such a key: block:00000000000005x is filed under block 5. */
  lemma ForeignKeyAtFive(r: map<int, string>, block: string, foreign: string)
    requires IsRange(r, map["block:00000000000005" := block, "block:00000000000005x" := foreign], 5, 6)
    ensures 5 in r && r[5] == foreign
  {
    KeyOfFive();
    var db := map["block:00000000000005" := block, "block:00000000000005x" := foreign];
    assert "block:00000000000005x" == FormatBlockKey(5) + "x";
    assert db.Keys == {FormatBlockKey(5), FormatBlockKey(5) + "x"};
    LongerKeyShadows(r, db, 5, "x", 5, 6);
  }

  lemma KeyOfFive()
    ensures FormatBlockKey(5) == "block:00000000000005"
  {
    assert Dec(5) == "5";
    assert Zeros(13) == "0000000000000";
  }

  /** The cache can store such a key itself: the 15 digits of block 10^14 are those of block 10^13 and one more, so
      a scan that covers block 10^13 returns block 10^14 in its place. */
  lemma OverlongBlockIsMisfiled(r: map<int, string>, db: map<string, string>, from: int64, to: int64)
    requires db.Keys == {FormatBlockKey(LIMIT / 10), FormatBlockKey(LIMIT)} && IsRange(r, db, from, to)
    requires from <= LIMIT / 10 <= to && to + 1 < LIMIT
    ensures LIMIT / 10 in r && r[LIMIT / 10] == db[FormatBlockKey(LIMIT)]
  {
    OverlongKey();
    hide FormatBlockKey, IsRange;
    LongerKeyShadows(r, db, LIMIT / 10, "0", from, to);
  }

  lemma OverlongKey()
    ensures FormatBlockKey(LIMIT) == FormatBlockKey(LIMIT / 10) + "0"
  {
    hide Dec;
    Limits();
    DecLength(LIMIT, 14);
    DecLength(LIMIT / 10, 14);
    DecLength(LIMIT / 10, 13);
    assert Dec(LIMIT) == Dec(LIMIT / 10) + "0" by { TimesTen(LIMIT / 10); }
  }

  lemma TimesTen(n: nat)
    requires n > 0
    ensures Dec(10 * n) == Dec(n) + "0"
  {
    assert 10 * n / 10 == n && 10 * n % 10 == 0;
  }

  // ---- The cache ----

  datatype Result<T> = Ok(value: T) | Err(error: string)

  predicate IsLeast(keys: set<string>, k: string) {
    k in keys && forall j :: j in keys && j != k ==> KeyLess(k, j)
  }

  /** Some keys have a least one, where an iterator starts. */
  lemma {:induction false} LeastKey(keys: set<string>)
    requires keys != {}
    ensures exists k :: IsLeast(keys, k)
    decreases keys
  {
    hide IsLeast;
    var x :| x in keys;
    var rest := keys - {x};
    if rest == {} {
      assert keys == {x};
      OnlyKey(x);
    } else {
      LeastKey(rest);
      var k :| IsLeast(rest, k);
      OneMoreKey(rest, k, x);
      assert keys == rest + {x};
    }
  }

  lemma OnlyKey(x: string)
    ensures IsLeast({x}, x)
  {
  }

  lemma OneMoreKey(rest: set<string>, k: string, x: string)
    requires IsLeast(rest, k) && x !in rest
    ensures IsLeast(rest + {x}, k) || IsLeast(rest + {x}, x)
  {
    Lex.StringTrichotomy(x, k);
    assert KeyLess(x, k) || KeyLess(k, x);
    hide KeyLess;
    forall j | j in rest && KeyLess(x, k) ensures KeyLess(x, j) {
      if j != k { KeyTransitive(x, k, j); }
    }
  }

  /** The keys before `rest` in key order have been filed, each over the ones before it. */
  ghost predicate Filed(r: map<int, string>, db: map<string, string>, done: set<string>, from: int64, to: int64) {
    && (forall n :: n in r <==> 0 <= n && from <= n <= to && exists key :: key in done && ParseBlockKey(key) == n)
    && (forall n :: n in r ==> exists key :: LastFiled(done, key, n) && key in db && r[n] == db[key])
  }

  ghost predicate LastFiled(done: set<string>, key: string, n: int) {
    key in done && ParseBlockKey(key) == n && forall k :: k in done && ParseBlockKey(k) == n ==> !KeyLess(key, k)
  }

  /** Filing one more key, after all the ones before. */
  lemma FileKey(r: map<int, string>, db: map<string, string>, done: set<string>, key: string, from: int64, to: int64)
    requires Filed(r, db, done, from, to) && key in db && forall k :: k in done ==> KeyLess(k, key)
    ensures var n := ParseBlockKey(key);
            Filed(if 0 <= n && from <= n <= to then r[n := db[key]] else r, db, done + {key}, from, to)
  {
    hide KeyLess, ParseBlockKey;
    var m := ParseBlockKey(key);
    var all := done + {key};
    var r' := if 0 <= m && from <= m <= to then r[m := db[key]] else r;
    assert !KeyLess(key, key) by { if KeyLess(key, key) { KeyLessAsymmetric(key, key); } }
    forall k | k in done ensures !KeyLess(key, k) { KeyLessAsymmetric(k, key); }
    forall n | n in r' ensures exists k :: LastFiled(all, k, n) && k in db && r'[n] == db[k] {
      if n == m {
        assert LastFiled(all, key, n);
      } else {
        var k :| LastFiled(done, k, n) && k in db && r[n] == db[k];
        assert LastFiled(all, k, n);
      }
    }
  }

  function Visited(db: map<string, string>, from: int64, to: int64): set<string> {
    set k | k in db && InBounds(k, from, Wrap64(to + 1))
  }

  lemma AllFiled(r: map<int, string>, db: map<string, string>, from: int64, to: int64)
    requires Filed(r, db, Visited(db, from, to), from, to)
    ensures IsRange(r, db, from, to)
  {
    hide KeyLess, ParseBlockKey, InBounds, Wrap64;
    var done := Visited(db, from, to);
    assert forall key, n :: Hit(db.Keys, from, to, key, n) <==> key in done && ParseBlockKey(key) == n;
    forall n | n in r ensures exists key :: LastHit(db.Keys, from, to, key, n) && r[n] == db[key] {
      var key :| LastFiled(done, key, n) && key in db && r[n] == db[key];
      assert LastHit(db.Keys, from, to, key, n);
    }
  }

  /** The keys that an iterator delivers when it may fail after some of them: all, or the first few in key order. */
  ghost predicate Delivers(done: set<string>, visited: set<string>, stopsAfter: Option<nat>) {
    && done <= visited
    && (forall j, k :: j in done && k in visited - done ==> KeyLess(j, k))
    && (if stopsAfter.None? || stopsAfter.value >= |visited| then done == visited else |done| == stopsAfter.value)
  }

  ghost predicate IsPartialRange(r: map<int, string>, db: map<string, string>, from: int64, to: int64, stopsAfter: Option<nat>) {
    exists done :: Delivers(done, Visited(db, from, to), stopsAfter) && Filed(r, db, done, from, to)
  }

  /** An iterator that fails on the way leaves out the highest blocks of the window without a word: what is returned
      are stored blocks, and with each of them all lower ones. */
  lemma PartialIsLowerPart(r: map<int, string>, db: map<string, string>, from: int64, to: int64, stopsAfter: Option<nat>)
    requires IsPartialRange(r, db, from, to, stopsAfter) && NoForeign(db.Keys, from, to)
    ensures forall n :: n in r ==> InWindow(n, from, to) && FormatBlockKey(n) in db && r[n] == db[FormatBlockKey(n)]
    ensures forall m, n :: n in r && InWindow(m, from, to) && FormatBlockKey(m) in db && m <= n ==> m in r
  {
    hide KeyLess, FormatBlockKey, ParseBlockKey, InBounds, Wrap64, InWindow;
    var visited := Visited(db, from, to);
    var done :| Delivers(done, visited, stopsAfter) && Filed(r, db, done, from, to);
    forall n | n in r
      ensures InWindow(n, from, to) && FormatBlockKey(n) in done && FormatBlockKey(n) in db && r[n] == db[FormatBlockKey(n)]
    {
      var key :| LastFiled(done, key, n) && key in db && r[n] == db[key];
      assert Hit(db.Keys, from, to, key, n);
      HitIsInWindow(db.Keys, from, to, key, n);
    }
    forall m, n | n in r && InWindow(m, from, to) && FormatBlockKey(m) in db && m <= n ensures m in r {
      OwnKeyHits(db.Keys, from, to, m);
      WindowNumbers(m, n, from, to);
      assert FormatBlockKey(n) in done && FormatBlockKey(m) in visited;
      assert FormatBlockKey(m) in done;
    }
  }

  lemma WindowNumbers(m: int, n: int, from: int64, to: int64)
    requires InWindow(m, from, to) && InWindow(n, from, to) && m <= n
    ensures 0 <= m && from <= m <= to && !KeyLess(FormatBlockKey(n), FormatBlockKey(m))
  {
    KeysAreOrdered(n, m);
  }

  class Cache {
    var db: map<string, string>                 // the store, which may hold other keys too

    constructor ()
      ensures db == map[]
    {
      db := map[];
    }

    /** The block stored under a number. */
    ghost function Block(n: int): Option<string>
      reads this
    {
      var k := FormatBlockKey(n);
      if k in db then Some(db[k]) else None
    }

    ghost function Checkpoint(): Option<string>
      reads this
    {
      if CHECKPOINT_KEY in db then Some(db[CHECKPOINT_KEY]) else None
    }

    /** A hit serves the stored block; a miss serves what fetch returns and stores it, unless the store
        refuses, which is only logged. `getError` is an unexpected error of the store. */
    method GetCompleteBlock(blockNum: int64, getError: Option<string>, fetch: Result<string>, stored: bool)
      returns (r: Result<string>)
      modifies this
      ensures Checkpoint() == old(Checkpoint())
      ensures r == if getError.Some? then Err(getError.value)
                   else if old(Block(blockNum)).Some? then Ok(old(Block(blockNum)).value) else fetch
      ensures forall n: int64 :: Block(n) ==
                if n == blockNum && getError.None? && old(Block(n)).None? && fetch.Ok? && stored
                then Some(fetch.value) else old(Block(n))
    {
      hide FormatBlockKey;
      var key := FormatBlockKey(blockNum);
      if getError.Some? {
        return Err(getError.value);
      }
      if key in db {
        return Ok(db[key]);
      }
      if fetch.Err? {
        return fetch;
      }
      if stored {
        forall n: int64 ensures (FormatBlockKey(n) == key <==> n == blockNum) && FormatBlockKey(n) != CHECKPOINT_KEY {
          KeysDiffer(n, blockNum);
        }
        db := db[key := fetch.value];
      }
      return fetch;
    }

    /** GetBlockRange files the keys of the scan in key order. Without foreign keys in the scan that gives the stored
        blocks of the window. The iterator may fail after some keys, which is not noticed. */
    method GetBlockRange(from: int64, to: int64, openError: Option<string>, stopsAfter: Option<nat>)
      returns (r: Result<map<int, string>>)
      ensures r.Err? <==> from > to || openError.Some?
      ensures r.Ok? ==> IsPartialRange(r.value, db, from, to, stopsAfter)
      ensures r.Ok? && stopsAfter.None? ==> IsRange(r.value, db, from, to)
      ensures r.Ok? && stopsAfter.None? && NoForeign(db.Keys, from, to) ==> IsBlocks(r.value, db, from, to)
    {
      hide FormatBlockKey, KeyLess, ParseBlockKey, Wrap64, InBounds, Filed, IsRange, IsBlocks, NoForeign;
      if from > to {
        return Err("invalid range");
      }
      if openError.Some? {
        return Err(openError.value);
      }
      var result: map<int, string> := map[];
      var visited := Visited(db, from, to);
      assert forall k :: k in visited ==> k in db;
      hide Visited;
      var rest, count: nat := visited, 0;
      assert Filed(result, db, {}, from, to) by { NothingFiled(from, to); }
      assert visited - rest == {};
      while rest != {} && (stopsAfter.None? || count < stopsAfter.value)
        invariant rest <= visited && count == |visited - rest| && (stopsAfter.Some? ==> count <= stopsAfter.value)
        invariant Filed(result, db, visited - rest, from, to)
        invariant forall j, k :: j in visited - rest && k in rest ==> KeyLess(j, k)
        decreases rest
      {
        LeastKey(rest);
        var key :| key in rest && IsLeast(rest, key);
        var blockNum := ParseBlockKey(key);
        FileKey(result, db, visited - rest, key, from, to);
        OneMoreDone(visited, rest, key);
        rest, count := rest - {key}, count + 1;
        if blockNum < 0 || blockNum < from || blockNum > to {
          continue;
        }
        result := result[blockNum := db[key]];
      }
      ScanDone(visited, rest, stopsAfter);
      assert IsPartialRange(result, db, from, to, stopsAfter);
      if stopsAfter.None? {
        AllFiled(result, db, from, to);
        RangeIffNoForeign(result, db, from, to);
      }
      return Ok(result);
    }

    lemma OneMoreDone(visited: set<string>, rest: set<string>, key: string)
      requires rest <= visited && key in rest
      ensures visited - (rest - {key}) == visited - rest + {key}
      ensures |visited - (rest - {key})| == |visited - rest| + 1
    {
      assert visited - (rest - {key}) == visited - rest + {key};
    }

    lemma ScanDone(visited: set<string>, rest: set<string>, stopsAfter: Option<nat>)
      requires rest <= visited && (forall j, k :: j in visited - rest && k in rest ==> KeyLess(j, k))
      requires rest == {} || (stopsAfter.Some? && |visited - rest| == stopsAfter.value)
      requires stopsAfter.Some? ==> |visited - rest| <= stopsAfter.value
      ensures Delivers(visited - rest, visited, stopsAfter)
      ensures stopsAfter.None? ==> visited - rest == visited
    {
      hide KeyLess;
      var done := visited - rest;
      assert visited == done + rest && visited - done == rest && |visited| == |done| + |rest|;
    }

    lemma NothingFiled(from: int64, to: int64)
      ensures Filed(map[], db, {}, from, to)
    {
    }

    method SetCheckpoint(blockNum: int64, setError: Option<string>) returns (err: Option<string>)
      modifies this
      ensures err == setError
      ensures Checkpoint() == if err.Some? then old(Checkpoint()) else Some(FormatInt(blockNum))
      ensures forall n: int64 :: Block(n) == old(Block(n))
    {
      hide FormatBlockKey, FormatInt;
      if setError.Some? {
        return setError;
      }
      forall n: int64 ensures FormatBlockKey(n) != CHECKPOINT_KEY { KeysDiffer(n, n); }
      db := db[CHECKPOINT_KEY := FormatInt(blockNum)];
      return None;
    }

    method GetCheckpoint(getError: Option<string>) returns (r: Result<int64>)
      ensures r == if getError.Some? then Err(getError.value)
                   else match Checkpoint()
                        case None => Ok(0)
                        case Some(text) =>
                          if ParseInt(text).Some? then Ok(ParseInt(text).value) else Err("failed to parse checkpoint")
    {
      if getError.Some? {
        return Err(getError.value);
      }
      if CHECKPOINT_KEY !in db {
        return Ok(0);
      }
      var blockNum := ParseInt(db[CHECKPOINT_KEY]);
      if blockNum.None? {
        return Err("failed to parse checkpoint");
      }
      return Ok(blockNum.value);
    }
  }

  /** Any checkpoint that was set is read back unchanged. */
  lemma CheckpointRoundTrip(blockNum: int64)
    ensures ParseInt(FormatInt(blockNum)) == Some(blockNum)
  {
    ParseSigned(blockNum, 0);
  }
}
