/** What pkg/enrich/selector.go promises: headWords inverts the printer of type trees, Plausible never
    rejects the signature that produced the calldata, and ChooseSignature does not depend on the order in
    which candidates arrive. */
module SelectorProofs {
  import opened Base
  import opened Text
  import opened Decimal
  import opened Abi
  import opened Selector
  import Lex
  import Sorting
  import Utf8

  // ---- Depth of parentheses ----

  function Depth(s: string, d: int): int {
    if s == "" then d else Depth(s[1..], Bump(s[0], d))
  }

  /** No comma of s is met at depth 0 when reading from depth d. */
  predicate NoCut(s: string, d: int) {
    s == "" || (!(s[0] == ',' && d == 0) && NoCut(s[1..], Bump(s[0], d)))
  }

  /** Reading s from depth d cuts nothing and comes back to d. */
  predicate Balanced(s: string, d: int) {
    NoCut(s, d) && Depth(s, d) == d
  }

  predicate Plain(s: string) {
    forall i :: 0 <= i < |s| ==> s[i] != '(' && s[i] != ')' && s[i] != ','
  }

  lemma {:induction false} DepthConcat(a: string, b: string, d: int)
    ensures Depth(a + b, d) == Depth(b, Depth(a, d))
    ensures NoCut(a + b, d) <==> NoCut(a, d) && NoCut(b, Depth(a, d))
  {
    if a == "" {
      assert a + b == b;
    } else {
      DepthConcat(a[1..], b, Bump(a[0], d));
      assert (a + b)[1..] == a[1..] + b;
    }
  }

  lemma {:induction false} PlainBalanced(s: string, d: int)
    requires Plain(s)
    ensures Balanced(s, d)
  {
    if s != "" { PlainBalanced(s[1..], d); }
  }

  lemma BalancedConcat(a: string, b: string, d: int)
    requires Balanced(a, d) && Balanced(b, d)
    ensures Balanced(a + b, d)
  {
    DepthConcat(a, b, d);
  }

  lemma {:induction false} PrintBalanced(t: AbiType, d: nat)
    ensures Balanced(Print(t), d)
    decreases t, 1
  {
    hide Balanced, Dec;
    match t
    case DynArray(e) =>
      PrintBalanced(e, d);
      PlainBalanced("[", d);
      PlainBalanced("]", d);
      BalancedConcat(Print(e), "[", d);
      BalancedConcat(Print(e) + "[", "]", d);
    case FixedArray(e, k) =>
      PrintBalanced(e, d);
      PlainBalanced("[", d);
      PlainBalanced(Dec(k) + "]", d);
      BalancedConcat(Print(e), "[", d);
      BalancedConcat(Print(e) + "[", Dec(k) + "]", d);
    case Tuple(ts) =>
      PrintListBalanced(ts, d + 1);
      InParentheses(PrintList(ts), d);
    case _ =>
      ElementaryPlain(t);
      PlainBalanced(Print(t), d);
  }

  lemma InParentheses(inner: string, d: nat)
    requires Balanced(inner, d + 1)
    ensures Balanced("(" + inner + ")", d)
  {
    DepthConcat("(", inner, d);
    DepthConcat("(" + inner, ")", d);
    assert "("[1..] == "" && ")"[1..] == "";
    assert Depth("(", d) == d + 1;
  }

  lemma ElementaryPlain(t: AbiType)
    requires !t.Tuple? && !t.DynArray? && !t.FixedArray?
    ensures Plain(Print(t))
  {
    hide Dec;
  }

  lemma {:induction false} PrintListBalanced(ts: seq<AbiType>, d: nat)
    requires d >= 1
    ensures Balanced(PrintList(ts), d)
    decreases ts, 0
  {
    if ts != [] {
      PrintBalanced(ts[0], d);
      if |ts| > 1 {
        PrintListBalanced(ts[1..], d);
        InnerComma(d);
        BalancedConcat(Print(ts[0]), ",", d);
        BalancedConcat(Print(ts[0]) + ",", PrintList(ts[1..]), d);
      }
    }
  }

  lemma InnerComma(d: nat)
    requires d >= 1
    ensures Balanced(",", d)
  {
    var comma := ",";
    assert comma[0] == ',' && comma[1..] == "";
    assert Bump(comma[0], d) == d;
    assert Depth(comma, d) == Depth("", d);
    assert NoCut("", d);
  }

  // ---- splitTopLevel ----

  lemma {:induction false} PiecesPrefix(a: string, b: string, d: int)
    requires NoCut(a, d)
    ensures var r := Pieces(b, Depth(a, d)); Pieces(a + b, d) == [a + r[0]] + r[1..]
  {
    var r := Pieces(b, Depth(a, d));
    if a == "" {
      assert a + b == b && a + r[0] == r[0];
    } else {
      PiecesPrefix(a[1..], b, Bump(a[0], d));
      assert (a + b)[1..] == a[1..] + b;
      assert [a[0]] + (a[1..] + r[0]) == a + r[0];
    }
  }

  /** Every piece is free of cuts, and every piece but the last returns to depth 0. */
  ghost predicate CutFree(r: seq<string>, d: int)
    requires |r| >= 1
  {
    && NoCut(r[0], d)
    && (|r| > 1 ==> Depth(r[0], d) == 0 && CutFree(r[1..], 0))
  }

  /** splitTopLevel cuts exactly at the commas of depth 0: its untrimmed pieces join back to the text, and
      no piece contains a cut. */
  lemma {:induction false} PiecesAreTheCut(s: string, d: int)
    ensures Join(Pieces(s, d), ',') == s && CutFree(Pieces(s, d), d)
  {
    if s != "" {
      var d' := Bump(s[0], d);
      var rest := Pieces(s[1..], d');
      PiecesAreTheCut(s[1..], d');
      assert s == [s[0]] + s[1..];
      if s[0] == ',' && d == 0 {
        assert ([""] + rest)[1..] == rest;
        assert Join([""] + rest, ',') == "" + [','] + Join(rest, ',');
      } else {
        ExtendFirst(s[0], rest, d);
      }
    }
  }

  /** Depth, counted: opening parentheses less closing ones. */
  lemma {:induction false} DepthCounts(s: string, d: int)
    ensures Depth(s, d) == d + multiset(s)['('] - multiset(s)[')']
  {
    if s != "" {
      DepthCounts(s[1..], Bump(s[0], d));
      assert s == [s[0]] + s[1..];
      assert multiset(s) == multiset([s[0]]) + multiset(s[1..]);
    }
  }

  /** A comma is cut at when as many parentheses are open as closed before it. */
  ghost predicate CutsAt(s: string, d: int, i: nat) {
    i < |s| && s[i] == ',' && d + multiset(s[..i])['('] - multiset(s[..i])[')'] == 0
  }

  lemma {:induction false} NoCutMeans(s: string, d: int)
    ensures NoCut(s, d) <==> forall i: nat :: !CutsAt(s, d, i)
  {
    if s != "" {
      NoCutMeans(s[1..], Bump(s[0], d));
      forall i: nat | i > 0 ensures CutsAt(s, d, i) <==> CutsAt(s[1..], Bump(s[0], d), i - 1) { CutMoves(s, d, i); }
      assert CutsAt(s, d, 0) <==> s[0] == ',' && d == 0;
      assert forall i: nat :: CutsAt(s[1..], Bump(s[0], d), i) ==> CutsAt(s, d, i + 1);
    }
  }

  lemma CutMoves(s: string, d: int, i: nat)
    requires s != "" && i > 0
    ensures CutsAt(s, d, i) <==> CutsAt(s[1..], Bump(s[0], d), i - 1)
  {
    if i < |s| {
      assert s[..i] == [s[0]] + s[1..][..i - 1];
      assert multiset(s[..i]) == multiset([s[0]]) + multiset(s[1..][..i - 1]);
    }
  }

  lemma ExtendFirst(c: char, rest: seq<string>, d: int)
    requires |rest| >= 1 && CutFree(rest, Bump(c, d)) && !(c == ',' && d == 0)
    ensures var r := [[c] + rest[0]] + rest[1..];
            Join(r, ',') == [c] + Join(rest, ',') && CutFree(r, d)
  {
    var r := [[c] + rest[0]] + rest[1..];
    assert r[1..] == rest[1..] && r[0][1..] == rest[0];
    if |rest| > 1 {
      assert r[0] + [','] + Join(rest[1..], ',') == [c] + (rest[0] + [','] + Join(rest[1..], ','));
    }
  }

  /** Conversely, pieces without cuts are recovered from their join, so the two are inverse. */
  lemma {:induction false} PiecesUndoJoin(r: seq<string>, d: int)
    requires |r| >= 1 && CutFree(r, d)
    ensures Pieces(Join(r, ','), d) == r
  {
    if |r| == 1 {
      PiecesPrefix(r[0], "", d);
      assert r[0] + "" == r[0];
    } else {
      var rest := Join(r[1..], ',');
      PiecesUndoJoin(r[1..], 0);
      PiecesPrefix(r[0], "," + rest, d);
      assert r[0] + [','] + rest == r[0] + ("," + rest);
      assert ("," + rest)[1..] == rest && r[0] + "" == r[0];
      assert Pieces("," + rest, 0) == [""] + r[1..];
    }
  }

  lemma {:induction false} PrintListIsJoin(ts: seq<AbiType>)
    ensures PrintList(ts) == Join(PrintEach(ts), ',')
    ensures ts != [] ==> CutFree(PrintEach(ts), 0)
  {
    if ts != [] {
      PrintBalanced(ts[0], 0);
      PrintListIsJoin(ts[1..]);
      assert PrintEach(ts)[1..] == PrintEach(ts[1..]);
    }
  }

  /** First and last characters of a printed type. */
  lemma {:induction false} PrintEnds(t: AbiType)
    ensures var s := Print(t);
            && s != "" && !IsSpace(s[0]) && !IsSpace(s[|s| - 1])
            && (s[|s| - 1] == ']' <==> t.DynArray? || t.FixedArray?)
            && (t.Tuple? ==> s[0] == '(' && s[|s| - 1] == ')' && |s| >= 2)
            && (!t.Tuple? && !t.DynArray? && !t.FixedArray? ==> s[0] != '(')
  {
    match t
    case DynArray(e) =>
      PrintEnds(e);
      BracketEnds(Print(e), "");
    case FixedArray(e, k) =>
      PrintEnds(e);
      hide Dec;
      BracketEnds(Print(e), Dec(k));
    case Tuple(ts) =>
      hide PrintList;
      ParenthesisEnds(PrintList(ts));
    case _ => ElementaryEnds(t);
  }

  lemma ElementaryEnds(t: AbiType)
    requires !t.Tuple? && !t.DynArray? && !t.FixedArray?
    ensures var s := Print(t);
            s != "" && s[0] != '(' && !IsSpace(s[0]) && !IsSpace(s[|s| - 1]) && s[|s| - 1] != ']'
  {
    hide Dec;
    match t
    case UInt(m) => DecEnds("uint", m);
    case SInt(m) => DecEnds("int", m);
    case Fixed(m, n) => DecEnds("fixed" + Dec(m) + "x", n);
    case UFixed(m, n) => DecEnds("ufixed" + Dec(m) + "x", n);
    case FixedBytes(m) => DecEnds("bytes", m);
    case _ =>
  }

  lemma ParenthesisEnds(inner: string)
    ensures var s := "(" + inner + ")"; |s| >= 2 && s[0] == '(' && s[|s| - 1] == ')'
  {
  }

  lemma BracketEnds(elem: string, n: string)
    requires elem != ""
    ensures var s := elem + "[" + (n + "]"); s != "" && s[0] == elem[0] && s[|s| - 1] == ']'
  {
  }

  lemma DecEnds(prefix: string, m: nat)
    requires prefix != ""
    ensures var s := prefix + Dec(m); s != "" && s[0] == prefix[0] && IsDigit(s[|s| - 1])
  {
    var s := prefix + Dec(m);
    assert s[|s| - 1] == Dec(m)[|Dec(m)| - 1];
  }

  lemma Trimmed(s: string)
    requires s != "" && !IsSpace(s[0]) && !IsSpace(s[|s| - 1])
    ensures TrimSpace(s) == s
  {
  }

  lemma {:induction false} PrintEachTrimmed(ts: seq<AbiType>)
    ensures TrimAll(PrintEach(ts)) == PrintEach(ts)
  {
    if ts != [] {
      PrintEnds(ts[0]);
      Trimmed(Print(ts[0]));
      PrintEachTrimmed(ts[1..]);
      var p := PrintEach(ts);
      assert p[1..] == PrintEach(ts[1..]);
      forall i | 0 <= i < |p| ensures TrimSpace(p[i]) == p[i] {
        if i > 0 { assert p[i] == TrimAll(p[1..])[i - 1]; }
      }
    }
  }

  /** splitTopLevel undoes the comma join of any list of printed types. */
  lemma SplitPrinted(ts: seq<AbiType>)
    ensures SplitTopLevel(PrintList(ts)) == PrintEach(ts)
  {
    if ts != [] {
      PrintListIsJoin(ts);
      PiecesUndoJoin(PrintEach(ts), 0);
      PrintEachTrimmed(ts);
      PrintEnds(ts[0]);
      var s := PrintList(ts);
      assert s[0] == Print(ts[0])[0];
      NotBlank(s);
    }
  }

  lemma NotBlank(s: string)
    requires s != "" && !IsSpace(s[0])
    ensures TrimSpace(s) != ""
  {
    TrimRightKeeps(s);
  }

  lemma {:induction false} TrimRightKeeps(s: string)
    requires s != "" && !IsSpace(s[0])
    ensures TrimRight(s) != ""
  {
    if IsSpace(s[|s| - 1]) { TrimRightKeeps(s[..|s| - 1]); }
  }

  // ---- headWords ----

  lemma HeadWordsOfArray(elem: string, n: string)
    requires '[' !in n
    ensures HeadWords(elem + "[" + (n + "]")) ==
            if n == "" then Head(1, true)
            else if !AllDigits(n) then Bad
            else
              match HeadWords(elem)
              case Bad => Bad
              case Head(w, dyn) => if dyn then Head(1, true) else Head(Wrap64(w * Wrap64(Val(n))), false)
  {
    ArrayText(elem, n);
    hide Wrap64, SplitTopLevel, TupleWords, HasSuffix, HasPrefix, LastIndexOf, IsElementary;
  }

  lemma HeadWordsOfTuple(inner: string)
    ensures HeadWords("(" + inner + ")") == TupleWords(SplitTopLevel(inner), 0, |inner| + 2)
  {
    TupleText(inner);
    hide Wrap64, SplitTopLevel, TupleWords, HasSuffix, HasPrefix, LastIndexOf, IsElementary;
  }

  lemma TupleText(inner: string)
    ensures var s := "(" + inner + ")";
            && HasPrefix(s, "(") && HasSuffix(s, ")") && !HasSuffix(s, "]")
            && |s| == |inner| + 2 && s[1..|s| - 1] == inner
  {
    var s := "(" + inner + ")";
    assert s[|s| - 1..] == ")" && s[1..|s| - 1] == inner;
  }

  /** headWords reads back the head size and the dynamic flag of every printed type tree, the size as Go's
      wrapping int. */
  lemma {:induction false} HeadWordsPrinted(t: AbiType)
    ensures HeadWords(Print(t)) == Head(Wrap64(HeadSize(t)), IsDynamic(t))
    decreases t, 1
  {
    hide Wrap64, SplitTopLevel, TupleWords, HeadWords;
    WrapSmall(1);
    match t
    case DynArray(e) =>
      HeadWordsOfArray(Print(e), "");
      assert Print(e) + "[" + ("" + "]") == Print(t);
    case FixedArray(e, k) =>
      HeadWordsOfArray(Print(e), Dec(k));
      HeadWordsPrinted(e);
      ValDec(k);
      WrapProduct(HeadSize(e), k);
    case Tuple(ts) =>
      HeadWordsOfTuple(PrintList(ts));
      SplitPrinted(ts);
      WrapSmall(0);
      TupleWordsPrinted(ts, 0, |PrintList(ts)| + 2);
    case _ => ElementaryText(t);
  }

  lemma WrapSmall(n: int64)
    ensures Wrap64(n) == n
  {
  }

  lemma WrapProduct(a: int, b: int)
    ensures Wrap64(Wrap64(a) * Wrap64(b)) == Wrap64(a * b)
  {
    WrapMul(b, a);
    WrapMul(Wrap64(a), b);
    assert b * Wrap64(a) == Wrap64(a) * b && b * a == a * b;
  }

  lemma ArrayText(elem: string, n: string)
    requires '[' !in n
    ensures var s := elem + "[" + (n + "]");
            && HasSuffix(s, "]") && LastIndexOf(s, '[') == |elem|
            && s[..|elem|] == elem && s[|elem| + 1..|s| - 1] == n
  {
    var s := elem + "[" + (n + "]");
    LastIndexOfConcat(elem, '[', n + "]");
    assert s[|s| - 1..] == "]";
  }

  lemma ElementaryText(t: AbiType)
    requires !t.Tuple? && !t.DynArray? && !t.FixedArray?
    ensures HeadWords(Print(t)) == Head(1, IsDynamic(t))
  {
    PrintEnds(t);
    Unbracketed(Print(t));
    hide HeadWords;
    ElementaryPrint(t);
  }

  lemma Unbracketed(s: string)
    requires s != "" && s[|s| - 1] != ']' && s[0] != '('
    ensures HeadWords(s) ==
            if s == "string" || s == "bytes" then Head(1, true) else if IsElementary(s) then Head(1, false) else Bad
  {
    hide IsElementary, SplitTopLevel, TupleWords, LastIndexOf, Wrap64;
    assert !HasSuffix(s, "]") && !HasPrefix(s, "(");
  }

  lemma ElementaryPrint(t: AbiType)
    requires !t.Tuple? && !t.DynArray? && !t.FixedArray?
    ensures var s := Print(t);
            if t.String? || t.Bytes? then s == "string" || s == "bytes"
            else s != "string" && s != "bytes" && IsElementary(s)
  {
    hide Dec;
    var s := Print(t);
    match t
    case FixedBytes(m) => assert |s| > |"bytes"| && s[0] != 's' && HasPrefix(s, "bytes");
    case UInt(m) => assert s[0] == 'u' && HasPrefix(s, "uint");
    case SInt(m) => assert s[0] == 'i' && HasPrefix(s, "int");
    case Fixed(m, n) => assert s[0] == 'f' && s == "fixed" + (Dec(m) + "x" + Dec(n));
    case UFixed(m, n) => assert s[0] == 'u' && s == "ufixed" + (Dec(m) + "x" + Dec(n));
    case _ =>
  }

  lemma {:induction false} TupleWordsPrinted(ts: seq<AbiType>, total: nat, bound: nat)
    requires forall i :: 0 <= i < |ts| ==> |PrintEach(ts)[i]| < bound
    ensures TupleWords(PrintEach(ts), Wrap64(total), bound)
            == if AnyDynamic(ts) then Head(1, true) else Head(Wrap64(total + HeadSizes(ts)), false)
    decreases ts, 0
  {
    hide Wrap64, HeadWords, SplitTopLevel, Print;
    if ts != [] {
      HeadWordsPrinted(ts[0]);
      PrintEachTail(ts, bound);
      TupleWordsPrinted(ts[1..], total + HeadSize(ts[0]), bound);
      WrapSum(total, HeadSize(ts[0]));
    }
  }

  lemma PrintEachTail(ts: seq<AbiType>, bound: nat)
    requires ts != [] && forall i :: 0 <= i < |ts| ==> |PrintEach(ts)[i]| < bound
    ensures PrintEach(ts)[1..] == PrintEach(ts[1..])
    ensures forall i :: 0 <= i < |ts| - 1 ==> |PrintEach(ts[1..])[i]| < bound
  {
    assert PrintEach(ts)[1..] == PrintEach(ts[1..]);
    forall i | 0 <= i < |ts| - 1 ensures |PrintEach(ts[1..])[i]| < bound {
      assert PrintEach(ts[1..])[i] == PrintEach(ts)[i + 1];
    }
  }

  lemma WrapSum(a: int, b: int)
    ensures Wrap64(Wrap64(a) + Wrap64(b)) == Wrap64(a + b)
  {
    WrapAdd(Wrap64(a), b);
    WrapAdd(b, a);
  }

  // ---- Plausible ----

  lemma {:induction false} SumHeadsPrinted(ts: seq<AbiType>, head: nat, dynamic: bool)
    ensures SumHeads(PrintEach(ts), Wrap64(head), dynamic)
            == Some((Wrap64(head + HeadSizes(ts)), dynamic || AnyDynamic(ts)))
  {
    hide Wrap64, HeadWords, Print;
    if ts != [] {
      HeadWordsPrinted(ts[0]);
      assert PrintEach(ts)[1..] == PrintEach(ts[1..]);
      WrapSum(head, HeadSize(ts[0]));
      SumHeadsPrinted(ts[1..], head + HeadSize(ts[0]), dynamic || IsDynamic(ts[0]));
    }
  }

  lemma SplitParamsPrinted(name: string, ts: seq<AbiType>)
    requires '(' !in name
    ensures SplitParams(Signature(name, ts)) == Some(PrintEach(ts))
  {
    var s := Signature(name, ts);
    assert s == name + "(" + (PrintList(ts) + ")");
    IndexOfConcat(name, '(', PrintList(ts) + ")");
    assert s[|s| - 1..] == ")";
    assert s[|name| + 1..|s| - 1] == PrintList(ts);
    SplitPrinted(ts);
  }

  /** Plausible on any printed signature: the argument bytes against the head bytes, equal for a static list
      and at least as many for a dynamic one, the head bytes as Go's int computes them. */
  lemma PlausiblePrinted(name: string, ts: seq<AbiType>, n: int64)
    requires '(' !in name && n >= 0
    ensures Plausible(Signature(name, ts), n) <==>
            var headBytes := Wrap64(32 * HeadSizes(ts));
            n >= 4 && if AnyDynamic(ts) then n - 4 >= headBytes else n - 4 == headBytes
  {
    hide HeadWords, Print, SplitTopLevel, SumHeads, SplitParams, Signature, HeadSizes, AnyDynamic;
    SplitParamsPrinted(name, ts);
    SumHeadsPrinted(ts, 0, false);
    WrapMul(32, HeadSizes(ts));
    WrapSmall(0);
    WrapSmall(n - 4);
    var headWords := Wrap64(HeadSizes(ts));
    assert headWords as int * 32 == 32 * headWords as int;
  }

  /** The signature that produced the calldata is always plausible. */
  lemma PlausibleAcceptsEncoding(name: string, ts: seq<AbiType>, vs: seq<Value>, n: int64)
    requires '(' !in name && HaveTypes(vs, ts)
    requires n == 4 + |EncTuple(vs, ts)|
    ensures Plausible(Signature(name, ts), n)
  {
    hide Plausible, Print, EncTuple;
    EncTupleLength(vs, ts);
    PlausiblePrinted(name, ts, n);
    WrapSmall(32 * HeadSizes(ts));
  }

  /** A static signature is plausible at the length of its encodings and at no other length, exactly when its
      head bytes do not wrap around to another possible length. */
  lemma StaticListsMatchOnlyTheirLength(name: string, ts: seq<AbiType>)
    requires '(' !in name && !AnyDynamic(ts)
    ensures (forall n: int64 | n >= 0 :: Plausible(Signature(name, ts), n) ==> n as int == 4 + 32 * HeadSizes(ts))
            <==> var w := Wrap64(32 * HeadSizes(ts));
                 w as int == 32 * HeadSizes(ts) || w < 0 || w > 0x7FFF_FFFF_FFFF_FFFB
  {
    hide Plausible, Print, Wrap64, HeadSizes, AnyDynamic;
    var sig := Signature(name, ts);
    var w := Wrap64(32 * HeadSizes(ts));
    forall n: int64 | n >= 0
      ensures Plausible(sig, n) <==> n as int == 4 + w as int && w >= 0
    {
      PlausiblePrinted(name, ts, n);
    }
    if 0 <= w <= 0x7FFF_FFFF_FFFF_FFFB {
      var n: int64 := w as int + 4;
      assert Plausible(sig, n);
    }
  }

  lemma OneStaticArray(k: nat)
    ensures !AnyDynamic([FixedArray(UInt(8), k)]) && HeadSizes([FixedArray(UInt(8), k)]) == k
  {
    var ts := [FixedArray(UInt(8), k)];
    var t := FixedArray(UInt(8), k);
    assert ts[0] == t && ts[1..] == [];
    assert !IsDynamic(UInt(8)) && !IsDynamic(t);
    assert HeadSize(UInt(8)) == 1 && HeadSize(t) == 1 * k;
    assert !AnyDynamic(ts[1..]) && HeadSizes(ts[1..]) == 0;
  }

  /** The wrap is reachable: an array type of 2^59 words passes for a call without arguments, because its
      2^64 head bytes wrap around to 0. */
  lemma OversizedArrayWraps()
    ensures var ts := [FixedArray(UInt(8), 0x0800_0000_0000_0000)];
            Plausible(Signature("f", ts), 4) && 4 + 32 * HeadSizes(ts) != 4
  {
    hide Plausible, Print, HeadSizes, AnyDynamic;
    var ts := [FixedArray(UInt(8), 0x0800_0000_0000_0000)];
    OneStaticArray(0x0800_0000_0000_0000);
    PlausiblePrinted("f", ts, 4);
  }

  // ---- Signatures that were not printed ----

  /** Without an opening parenthesis, or without a closing one at the end, anything is plausible. */
  lemma NotACallIsPlausible(signature: string, n: int64)
    requires '(' !in signature || signature == "" || signature[|signature| - 1] != ')'
    ensures Plausible(signature, n)
  {
    hide Wrap64, SumHeads, SplitTopLevel;
    if signature != "" { assert signature[|signature| - 1..] == [signature[|signature| - 1]]; }
  }

  /** The parameters are the pieces of what stands between the first parenthesis and the closing one. */
  lemma ParametersOf(signature: string, open: nat)
    requires open < |signature| && signature[open] == '(' && '(' !in signature[..open] && signature[|signature| - 1] == ')'
    ensures open < |signature| - 1 && SplitParams(signature) == Some(SplitTopLevel(signature[open + 1..|signature| - 1]))
  {
    hide SplitTopLevel;
    IndexOfConcat(signature[..open], '(', signature[open + 1..]);
    assert signature == signature[..open] + ['('] + signature[open + 1..];
    assert signature[|signature| - 1..] == ")";
  }

  lemma {:induction false} OneBadHead(params: seq<string>, head: int64, dynamic: bool, i: nat)
    requires i < |params| && HeadWords(params[i]).Bad?
    ensures SumHeads(params, head, dynamic).None?
  {
    hide HeadWords, Wrap64;
    if i > 0 && HeadWords(params[0]).Head? {
      var h := HeadWords(params[0]);
      OneBadHead(params[1..], Wrap64(head + h.words), dynamic || h.dynamic, i - 1);
    }
  }

  /** A parameter that does not parse makes a signature plausible for every calldata with a selector; a signature
      of the right form is never plausible for less. */
  lemma BadParameterIsPlausible(signature: string, n: int64, params: seq<string>, i: nat)
    requires SplitParams(signature) == Some(params) && n >= 0
    ensures n < 4 ==> !Plausible(signature, n)
    ensures n >= 4 && i < |params| && HeadWords(params[i]).Bad? ==> Plausible(signature, n)
  {
    hide HeadWords, SplitParams, SumHeads;
    WrapSmall(n - 4);
    if i < |params| && HeadWords(params[i]).Bad? { OneBadHead(params, 0, false, i); }
  }

  /** The spaces: tab to carriage return, blank, next line, no-break space, Ogham space mark, the spaces from en quad
      to hair space, line and paragraph separator, narrow no-break space, mathematical space and ideographic space. */
  lemma SpacesAre(c: char)
    ensures IsSpace(c) <==>
            || 9 <= c as int <= 13 || 0x2000 <= c as int <= 0x200A
            || c as int in {0x20, 0x85, 0xA0, 0x1680, 0x2028, 0x2029, 0x202F, 0x205F, 0x3000}
  {
  }

  /** Trimming takes away spaces at both ends, and all of them. */
  lemma {:induction false} TrimSpaceIs(s: string) returns (a: string, b: string)
    ensures s == a + TrimSpace(s) + b
    ensures (forall c :: c in a ==> IsSpace(c)) && (forall c :: c in b ==> IsSpace(c))
    ensures var t := TrimSpace(s); t != "" ==> !IsSpace(t[0]) && !IsSpace(t[|t| - 1])
  {
    hide IsSpace;
    a := TrimLeftIs(s);
    b := TrimRightIs(TrimLeft(s));
  }

  lemma {:induction false} TrimLeftIs(s: string) returns (a: string)
    ensures s == a + TrimLeft(s) && (forall c :: c in a ==> IsSpace(c))
    ensures TrimLeft(s) != "" ==> !IsSpace(TrimLeft(s)[0])
  {
    hide IsSpace;
    if s != "" && IsSpace(s[0]) {
      a := TrimLeftIs(s[1..]);
      a := [s[0]] + a;
    } else {
      a := "";
    }
  }

  lemma {:induction false} TrimRightIs(s: string) returns (b: string)
    ensures s == TrimRight(s) + b && (forall c :: c in b ==> IsSpace(c))
    ensures TrimRight(s) != "" ==> !IsSpace(TrimRight(s)[|TrimRight(s)| - 1]) && TrimRight(s)[0] == s[0]
  {
    hide IsSpace;
    if s != "" && IsSpace(s[|s| - 1]) {
      b := TrimRightIs(s[..|s| - 1]);
      assert s == s[..|s| - 1] + [s[|s| - 1]];
      b := b + [s[|s| - 1]];
    } else {
      b := "";
    }
  }

  predicate StartsWith(s: string, p: string) {
    |p| <= |s| && s[..|p|] == p
  }

  /** Which types without brackets and parentheses parse: the names of the elementary types, and whatever starts
      like a sized one. Only string and bytes are dynamic. */
  lemma NamesThatParse(s: string)
    requires s == "" || (s[|s| - 1] != ']' && s[0] != '(')
    ensures HeadWords(s) ==
            if s == "string" || s == "bytes" then Head(1, true)
            else if s == "address" || s == "bool" || s == "function" || StartsWith(s, "uint") || StartsWith(s, "int")
                    || StartsWith(s, "bytes") || StartsWith(s, "fixed") || StartsWith(s, "ufixed")
            then Head(1, false) else Bad
  {
    PlainText(s);
    HeadWordsOfName(s);
    hide HeadWords, StartsWith;
    SamePrefix(s, "uint");
    SamePrefix(s, "int");
    SamePrefix(s, "bytes");
    SamePrefix(s, "fixed");
    SamePrefix(s, "ufixed");
    hide HasPrefix;
  }

  lemma PlainText(s: string)
    requires s == "" || (s[|s| - 1] != ']' && s[0] != '(')
    ensures !HasSuffix(s, "]") && !HasPrefix(s, "(")
  {
  }

  lemma HeadWordsOfName(s: string)
    requires !HasSuffix(s, "]") && !HasPrefix(s, "(")
    ensures HeadWords(s) ==
            if s == "string" || s == "bytes" then Head(1, true) else if IsElementary(s) then Head(1, false) else Bad
  {
    hide SplitTopLevel, TupleWords, LastIndexOf, Wrap64, IsElementary, HasSuffix, HasPrefix;
  }

  lemma SamePrefix(s: string, p: string)
    ensures HasPrefix(s, p) <==> StartsWith(s, p)
  {
  }

  /** Unbalanced brackets never parse: a type that ends in ']' without a '[', or starts with '(' without a closing
      parenthesis at its end. */
  lemma UnbalancedIsBad(s: string)
    requires s != ""
    ensures s[|s| - 1] == ']' && '[' !in s ==> HeadWords(s) == Bad
    ensures s[0] == '(' && s[|s| - 1] != ')' && s[|s| - 1] != ']' ==> HeadWords(s) == Bad
  {
    hide SplitTopLevel, TupleWords, Wrap64, IsElementary, AllDigits;
    assert s[|s| - 1..] == [s[|s| - 1]];
    assert HasPrefix(s, "(") <==> s[0] == '(';
  }

  /** A tuple, printed or not: its components are read in turn up to the first dynamic one, which makes it one dynamic
      word; a component that does not parse before that makes it Bad; otherwise the words add up. */
  lemma TupleIs(inner: string, comps: seq<string>, k: nat)
    requires comps == SplitTopLevel(inner)
    requires k <= |comps| && forall i :: 0 <= i < k ==> HeadWords(comps[i]).Head? && !HeadWords(comps[i]).dynamic
    requires k < |comps| ==> HeadWords(comps[k]).Bad? || HeadWords(comps[k]).dynamic
    ensures HeadWords("(" + inner + ")") ==
            if k == |comps| then Head(Wrap64(WordsOf(comps)), false)
            else if HeadWords(comps[k]).Bad? then Bad else Head(1, true)
  {
    HeadWordsOfTuple(inner);
    hide HeadWords, SplitTopLevel, Wrap64;
    WrapSmall(0);
    TupleFrom(comps, k, 0, |inner| + 2);
  }

  function WordsOf(comps: seq<string>): int {
    if comps == [] then 0
    else (match HeadWords(comps[0]) case Bad => 0 case Head(w, _) => w) + WordsOf(comps[1..])
  }

  lemma {:induction false} TupleFrom(comps: seq<string>, k: nat, total: int, bound: nat)
    requires forall i :: 0 <= i < |comps| ==> |comps[i]| < bound
    requires k <= |comps| && forall i :: 0 <= i < k ==> HeadWords(comps[i]).Head? && !HeadWords(comps[i]).dynamic
    requires k < |comps| ==> HeadWords(comps[k]).Bad? || HeadWords(comps[k]).dynamic
    ensures TupleWords(comps, Wrap64(total), bound) ==
            if k == |comps| then Head(Wrap64(total + WordsOf(comps)), false)
            else if HeadWords(comps[k]).Bad? then Bad else Head(1, true)
  {
    hide HeadWords, Wrap64;
    if k > 0 {
      var w := HeadWords(comps[0]).words;
      WrapAdd(w, total);
      TupleFrom(comps[1..], k - 1, total + w, bound);
    }
  }

  // ---- ChooseSignature ----

  /** The sort order as one sequence of numbers: plausible first, then priority, then length, then text. */
  function Rank(x: Scored): seq<int> {
    [if x.plausible then 0 else 1, x.c.priority, ByteLen(x.c.signature)] + Lex.Codes(x.c.signature)
  }

  lemma LessIsRank(a: Scored, b: Scored)
    ensures ScoredLess(a, b) <==> Lex.Less(Rank(a), Rank(b))
  {
    hide ByteLen;
    var p := [if a.plausible then 0 else 1, a.c.priority, ByteLen(a.c.signature)];
    var q := [if b.plausible then 0 else 1, b.c.priority, ByteLen(b.c.signature)];
    PrefixDecides(p, q, Lex.Codes(a.c.signature), Lex.Codes(b.c.signature));
  }

  lemma PrefixDecides(p: seq<int>, q: seq<int>, x: seq<int>, y: seq<int>)
    requires |p| == |q| == 3
    ensures Lex.Less(p + x, q + y) <==>
            p[0] < q[0] || (p[0] == q[0] && (p[1] < q[1] ||
            (p[1] == q[1] && (p[2] < q[2] || (p[2] == q[2] && Lex.Less(x, y))))))
  {
    FirstDecides(p, q, x, y);
    FirstDecides(p[1..], q[1..], x, y);
    assert p[1..][1..] == p[2..] && q[1..][1..] == q[2..];
    FirstDecides(p[2..], q[2..], x, y);
    assert p[2..][1..] + x == x && q[2..][1..] + y == y;
  }

  lemma FirstDecides(p: seq<int>, q: seq<int>, x: seq<int>, y: seq<int>)
    requires p != [] && q != []
    ensures Lex.Less(p + x, q + y) <==> p[0] < q[0] || (p[0] == q[0] && Lex.Less(p[1..] + x, q[1..] + y))
  {
    assert (p + x)[1..] == p[1..] + x && (q + y)[1..] == q[1..] + y;
  }

  lemma ScoredOrder()
    ensures Sorting.TotalPreorder(ScoredLeq)
  {
    hide ScoredLess, Rank, Lex.Less;
    forall a, b ensures ScoredLeq(a, b) || ScoredLeq(b, a) {
      LessIsRank(a, b);
      LessIsRank(b, a);
      if ScoredLess(a, b) && ScoredLess(b, a) {
        Lex.Transitive(Rank(a), Rank(b), Rank(a));
        Lex.Irreflexive(Rank(a));
      }
    }
    forall a, b, c | ScoredLeq(a, b) && ScoredLeq(b, c) ensures ScoredLeq(a, c) {
      LessIsRank(b, a);
      LessIsRank(c, b);
      LessIsRank(c, a);
      Lex.Trichotomy(Rank(a), Rank(b));
      Lex.Trichotomy(Rank(b), Rank(c));
      if ScoredLess(c, a) {
        if Lex.Less(Rank(a), Rank(b)) { Lex.Transitive(Rank(c), Rank(a), Rank(b)); }
      }
    }
  }

  /** A candidate the choice may consider, with its score. */
  ghost predicate Eligible(x: Scored, cands: seq<Candidate>, n: int64) {
    x.c in cands && x.c.signature != "" && x.plausible == Plausible(x.c.signature, n)
  }

  lemma {:induction false} ScoreMembers(cands: seq<Candidate>, n: int64, x: Scored)
    ensures x in Score(cands, n) <==> Eligible(x, cands, n)
  {
    hide Plausible;
    if cands != [] {
      var front, c := cands[..|cands| - 1], cands[|cands| - 1];
      ScoreMembers(front, n, x);
      assert cands == front + [c];
    }
  }

  lemma ChooseIsHead(cands: seq<Candidate>, n: int64)
    ensures var s := Sorting.Sort(Score(cands, n), ScoredLeq);
            && (s == [] <==> Score(cands, n) == [])
            && (s != [] ==> s[0] in Score(cands, n) && Choose(cands, n) == Some(s[0].c.signature)
                            && forall x :: x in Score(cands, n) ==> ScoredLeq(s[0], x))
  {
    hide ScoredLess, Score;
    var all := Score(cands, n);
    var s := Sorting.Sort(all, ScoredLeq);
    ScoredOrder();
    Sorting.SortSorted(all, ScoredLeq);
    if s != [] {
      assert s[0] in multiset(all);
      forall x | x in all ensures ScoredLeq(s[0], x) {
        assert x in multiset(s);
        Sorting.FirstIsLeast(s, x, ScoredLeq);
        assert ScoredLeq(x, x);
      }
    }
  }

  /** ChooseSignature fails exactly when every signature is empty, and otherwise returns a candidate that no
      other candidate beats. */
  lemma ChooseIsBest(cands: seq<Candidate>, n: int64)
    ensures Choose(cands, n).None? <==> forall c :: c in cands ==> c.signature == ""
    ensures Choose(cands, n).Some? ==>
              exists x :: Eligible(x, cands, n) && x.c.signature == Choose(cands, n).value
                          && forall y :: Eligible(y, cands, n) ==> !ScoredLess(y, x)
  {
    hide Plausible, ScoredLess, Score;
    var s := Sorting.Sort(Score(cands, n), ScoredLeq);
    ChooseIsHead(cands, n);
    forall x ensures x in Score(cands, n) <==> Eligible(x, cands, n) {
      ScoreMembers(cands, n, x);
    }
    if s == [] {
      forall c | c in cands ensures c.signature == "" {
        assert Scored(c, Plausible(c.signature, n)) !in Score(cands, n);
      }
    } else {
      var x := s[0];
      assert Eligible(x, cands, n) && x.c.signature == Choose(cands, n).value;
      forall y | Eligible(y, cands, n) ensures !ScoredLess(y, x) {
        assert ScoredLeq(x, y);
      }
    }
  }

  /** Candidates that no one beats have the same signature, so the choice is a function of the set of
      candidates: the order in which they are stored does not matter. */
  lemma ChooseIgnoresOrder(a: seq<Candidate>, b: seq<Candidate>, n: int64)
    requires forall c :: c in a <==> c in b
    ensures Choose(a, n) == Choose(b, n)
  {
    hide Plausible, ScoredLess, Choose;
    ChooseIsBest(a, n);
    ChooseIsBest(b, n);
    if Choose(a, n).Some? && Choose(b, n).Some? {
      var x :| Eligible(x, a, n) && x.c.signature == Choose(a, n).value
               && forall y :: Eligible(y, a, n) ==> !ScoredLess(y, x);
      var z :| Eligible(z, b, n) && z.c.signature == Choose(b, n).value
               && forall y :: Eligible(y, b, n) ==> !ScoredLess(y, z);
      assert Eligible(x, b, n) && Eligible(z, a, n);
      SameRank(x, z);
    }
  }

  lemma SameRank(x: Scored, z: Scored)
    requires !ScoredLess(x, z) && !ScoredLess(z, x)
    ensures x.c.signature == z.c.signature
  {
    Lex.StringTrichotomy(x.c.signature, z.c.signature);
  }

  /** ByteLen is the number of UTF-8 bytes. */
  lemma {:induction false} ByteLenIsLength(s: string)
    ensures ByteLen(s) == |Utf8.Bytes(s)|
  {
    if s != "" {
      ByteLenIsLength(s[1..]);
      Utf8.Lead(s[0]);
      hide Utf8.Encode;
    }
  }

  /** x comes before y, or they have the same signature: it fits the calldata and y does not, or else its priority
      number is smaller, or else it has fewer bytes, or else its bytes are less where they first differ. */
  ghost predicate AtLeastAsGood(x: Candidate, y: Candidate, n: int64) {
    var a, b := Utf8.Bytes(x.signature), Utf8.Bytes(y.signature);
    if Plausible(x.signature, n) != Plausible(y.signature, n) then Plausible(x.signature, n)
    else if x.priority != y.priority then x.priority < y.priority
    else if |a| != |b| then |a| < |b|
    else x.signature == y.signature || exists k: nat :: k < |a| && a[..k] == b[..k] && a[k] < b[k]
  }

  lemma NotLessIsAtLeastAsGood(x: Scored, y: Scored, n: int64)
    requires x.plausible == Plausible(x.c.signature, n) && y.plausible == Plausible(y.c.signature, n)
    requires !ScoredLess(y, x)
    ensures AtLeastAsGood(x.c, y.c, n)
  {
    hide Plausible, ByteLen;
    var a, b := Utf8.Bytes(x.c.signature), Utf8.Bytes(y.c.signature);
    ByteLenIsLength(x.c.signature);
    ByteLenIsLength(y.c.signature);
    if |a| == |b| {
      Lex.StringTrichotomy(x.c.signature, y.c.signature);
      Utf8.BytesOrder(x.c.signature, y.c.signature);
      Lex.LessMeans(a, b);
      if k: nat :| Lex.DiffersAt(a, b, k) { assert a[..k] == b[..k]; }
    }
  }

  /** What is chosen: a non-empty signature of some candidate that is at least as good as every other one. */
  lemma ChosenIsAtLeastAsGood(cands: seq<Candidate>, n: int64)
    ensures Choose(cands, n).Some? ==>
              exists x :: x in cands && x.signature != "" && x.signature == Choose(cands, n).value
                          && forall y :: y in cands && y.signature != "" ==> AtLeastAsGood(x, y, n)
  {
    hide Plausible, ScoredLess, Choose, AtLeastAsGood;
    ChooseIsBest(cands, n);
    if Choose(cands, n).Some? {
      var x :| Eligible(x, cands, n) && x.c.signature == Choose(cands, n).value
               && forall y :: Eligible(y, cands, n) ==> !ScoredLess(y, x);
      forall y | y in cands && y.signature != "" ensures AtLeastAsGood(x.c, y, n) {
        var z := Scored(y, Plausible(y.signature, n));
        assert Eligible(z, cands, n);
        NotLessIsAtLeastAsGood(x, z, n);
      }
    }
  }

  predicate Ascii(s: string) {
    forall i :: 0 <= i < |s| ==> s[i] as int < 0x80
  }

  /** For ASCII text that is the shorter signature, and among equally long ones the first in the alphabet. */
  lemma AsciiIsShortest(x: Candidate, y: Candidate, n: int64)
    requires AtLeastAsGood(x, y, n) && Ascii(x.signature) && Ascii(y.signature)
    requires Plausible(x.signature, n) == Plausible(y.signature, n) && x.priority == y.priority
    ensures |x.signature| <= |y.signature|
    ensures |x.signature| == |y.signature| && x.signature != y.signature ==>
              exists k: nat :: k < |x.signature| && x.signature[..k] == y.signature[..k] && x.signature[k] < y.signature[k]
  {
    hide Plausible, Utf8.Bytes;
    Utf8.AsciiBytes(x.signature);
    Utf8.AsciiBytes(y.signature);
    var a, b := Lex.Codes(x.signature), Lex.Codes(y.signature);
    if |x.signature| == |y.signature| && x.signature != y.signature {
      var k: nat :| k < |a| && a[..k] == b[..k] && a[k] < b[k];
      forall i | 0 <= i < k ensures x.signature[i] == y.signature[i] { assert a[..k][i] == b[..k][i]; }
      assert x.signature[..k] == y.signature[..k] && x.signature[k] < y.signature[k];
    }
  }

  /** A candidate with another signature that fits the calldata length. */
  predicate Rival(c: Candidate, signature: string, n: int64) {
    c.signature != "" && c.signature != signature && Plausible(c.signature, n)
  }

  /** Disambiguation: when the calldata really is an encoding for one of the candidates, every chosen
      signature is plausible too, and the true one is chosen as soon as each other candidate that is
      plausible at this length has a larger priority number. */
  lemma TrueSignatureWins(cands: seq<Candidate>, name: string, ts: seq<AbiType>, vs: seq<Value>, prio: nat, n: int64)
    requires '(' !in name && HaveTypes(vs, ts) && n == 4 + |EncTuple(vs, ts)|
    requires Candidate(Signature(name, ts), prio) in cands
    ensures Choose(cands, n).Some? && Plausible(Choose(cands, n).value, n)
    ensures (forall c | c in cands && Rival(c, Signature(name, ts), n) :: c.priority > prio)
            ==> Choose(cands, n) == Some(Signature(name, ts))
  {
    hide Plausible, Signature, EncTuple, HaveTypes, Choose;
    PlausibleAcceptsEncoding(name, ts, vs, n);
    SignatureNonEmpty(name, ts);
    var sig := Signature(name, ts);
    var truth := Scored(Candidate(sig, prio), true);
    assert Eligible(truth, cands, n);
    ChooseIsBest(cands, n);
    var x :| Eligible(x, cands, n) && x.c.signature == Choose(cands, n).value
             && forall y :: Eligible(y, cands, n) ==> !ScoredLess(y, x);
    assert !ScoredLess(truth, x);
  }

  lemma SignatureNonEmpty(name: string, ts: seq<AbiType>)
    ensures Signature(name, ts) != ""
  {
    assert Signature(name, ts)[|name|] == '(';
  }
}
