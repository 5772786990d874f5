/** pkg/enrich/selector.go: parsing Solidity type strings into ABI head layouts, and choosing among
    signatures that collide on a 4-byte selector. Each loop of the source is a method proved against a
    function; the functions are what SelectorProofs reasons about. */
module Selector {
  import opened Base
  import opened Text
  import opened Decimal
  import Lex
  import Sorting

  /** unicode.IsSpace. */
  predicate IsSpace(c: char) {
    || '\t' <= c <= '\r' || c == ' ' || c == '\U{0085}' || c == '\U{00A0}' || c == '\U{1680}'
    || '\U{2000}' <= c <= '\U{200A}' || c == '\U{2028}' || c == '\U{2029}' || c == '\U{202F}'
    || c == '\U{205F}' || c == '\U{3000}'
  }

  function TrimLeft(s: string): (r: string)
    ensures |r| <= |s|
  {
    if s != "" && IsSpace(s[0]) then TrimLeft(s[1..]) else s
  }

  function TrimRight(s: string): (r: string)
    ensures |r| <= |s|
  {
    if s != "" && IsSpace(s[|s| - 1]) then TrimRight(s[..|s| - 1]) else s
  }

  function TrimSpace(s: string): (r: string)
    ensures |r| <= |s|
  {
    TrimRight(TrimLeft(s))
  }

  function TrimAll(parts: seq<string>): (r: seq<string>)
    ensures |r| == |parts|
    ensures forall i :: 0 <= i < |r| ==> r[i] == TrimSpace(parts[i])
  {
    seq(|parts|, i requires 0 <= i < |parts| => TrimSpace(parts[i]))
  }

  // ---- splitTopLevel ----

  /** The parenthesis depth after reading c at depth d. */
  function Bump(c: char, d: int): int {
    if c == '(' then d + 1 else if c == ')' then d - 1 else d
  }

  /** The pieces of s between the commas met at depth 0, reading from depth d. */
  function Pieces(s: string, d: int): (r: seq<string>)
    ensures |r| >= 1
    ensures forall i :: 0 <= i < |r| ==> |r[i]| <= |s|
  {
    if s == "" then [""]
    else
      var rest := Pieces(s[1..], Bump(s[0], d));
      if s[0] == ',' && d == 0 then [""] + rest else [[s[0]] + rest[0]] + rest[1..]
  }

  function SplitTopLevel(s: string): (r: seq<string>)
    ensures forall i :: 0 <= i < |r| ==> |r[i]| <= |s|
  {
    if TrimSpace(s) == "" then [] else TrimAll(Pieces(s, 0))
  }

  /** Midway through the scan: the pieces are those already cut off, then the one being read. */
  ghost predicate Scanning(s: string, raw: seq<string>, start: nat, i: nat, depth: int) {
    && start <= i <= |s|
    && var rest := Pieces(s[i..], depth);
       Pieces(s, 0) == raw + [s[start..i] + rest[0]] + rest[1..]
  }

  lemma ScanStart(s: string)
    ensures Scanning(s, [], 0, 0, 0)
  {
    assert s[0..] == s && s[0..0] == "";
    var r := Pieces(s, 0);
    assert "" + r[0] == r[0];
    assert [] + [r[0]] + r[1..] == r;
  }

  lemma ScanPass(s: string, raw: seq<string>, start: nat, i: nat, depth: int)
    requires Scanning(s, raw, start, i, depth) && i < |s| && !(s[i] == ',' && depth == 0)
    ensures Scanning(s, raw, start, i + 1, Bump(s[i], depth))
  {
    assert s[i..][1..] == s[i + 1..];
    var rest := Pieces(s[i + 1..], Bump(s[i], depth));
    assert s[start..i] + ([s[i]] + rest[0]) == s[start..i + 1] + rest[0];
  }

  lemma ScanCut(s: string, raw: seq<string>, start: nat, i: nat)
    requires Scanning(s, raw, start, i, 0) && i < |s| && s[i] == ','
    ensures Scanning(s, raw + [s[start..i]], i + 1, i + 1, 0)
  {
    assert s[i..][1..] == s[i + 1..];
    var rest := Pieces(s[i + 1..], 0);
    CutPieces(raw, s[start..i], s[i + 1..i + 1], rest);
  }

  lemma CutPieces(raw: seq<string>, piece: string, empty: string, rest: seq<string>)
    requires empty == "" && |rest| >= 1
    ensures raw + [piece + ([""] + rest)[0]] + ([""] + rest)[1..]
            == raw + [piece] + [empty + rest[0]] + rest[1..]
  {
    assert piece + "" == piece && empty + rest[0] == rest[0];
    assert ([""] + rest)[1..] == rest == [rest[0]] + rest[1..];
  }

  lemma ScanEnd(s: string, raw: seq<string>, start: nat, depth: int)
    requires Scanning(s, raw, start, |s|, depth)
    ensures Pieces(s, 0) == raw + [s[start..]]
  {
    assert s[|s|..] == "";
    assert s[start..|s|] + "" == s[start..];
  }

  method ComputeSplitTopLevel(s: string) returns (out: seq<string>)
    ensures out == SplitTopLevel(s)
  {
    if TrimSpace(s) == "" {
      return [];
    }
    out := [];
    var depth, start := 0, 0;
    ghost var raw: seq<string> := [];
    ScanStart(s);
    hide Pieces, TrimSpace, TrimAll;
    assert TrimAll(raw) == [] by { TrimNothing(); }
    for i := 0 to |s|
      invariant start <= i && Scanning(s, raw, start, i, depth)
      invariant out == TrimAll(raw)
    {
      hide Scanning;
      if s[i] == ',' && depth == 0 {
        ScanCut(s, raw, start, i);
      } else {
        ScanPass(s, raw, start, i, depth);
      }
      match s[i]
      case '(' =>
        depth := depth + 1;
      case ')' =>
        depth := depth - 1;
      case ',' =>
        if depth == 0 {
          TrimMore(raw, s[start..i]);
          raw := raw + [s[start..i]];
          out := out + [TrimSpace(s[start..i])];
          start := i + 1;
        }
      case _ =>
    }
    ScanEnd(s, raw, start, depth);
    TrimMore(raw, s[start..]);
    out := out + [TrimSpace(s[start..])];
  }

  lemma TrimNothing()
    ensures TrimAll([]) == []
  {
  }

  lemma TrimMore(raw: seq<string>, piece: string)
    ensures TrimAll(raw + [piece]) == TrimAll(raw) + [TrimSpace(piece)]
  {
    hide TrimSpace;
    var all := raw + [piece];
    assert forall i :: 0 <= i < |raw| ==> all[i] == raw[i];
    assert TrimAll(all) == TrimAll(raw) + [TrimSpace(piece)];
  }

  // ---- headWords ----

  /** The three results of headWords: Bad when ok is false. */
  datatype Head = Bad | Head(words: int64, dynamic: bool)

  predicate IsElementary(typ: string) {
    || typ == "address" || typ == "bool" || typ == "function"
    || HasPrefix(typ, "uint") || HasPrefix(typ, "int") || HasPrefix(typ, "bytes")
    || HasPrefix(typ, "fixed") || HasPrefix(typ, "ufixed")
  }

  function HeadWords(typ: string): Head
    decreases |typ|, 1, 0
  {
    if HasSuffix(typ, "]") then
      var lb := LastIndexOf(typ, '[');
      if lb < 0 then Bad
      else
        var inner, n := typ[..lb], typ[lb + 1..|typ| - 1];
        if n == "" then Head(1, true)
        else if !AllDigits(n) then Bad
        else
          match HeadWords(inner)
          case Bad => Bad
          case Head(w, dyn) => if dyn then Head(1, true) else Head(Wrap64(w * Wrap64(Val(n))), false)
    else if HasPrefix(typ, "(") then
      if !HasSuffix(typ, ")") then Bad
      else TupleWords(SplitTopLevel(typ[1..|typ| - 1]), 0, |typ|)
    else if typ == "string" || typ == "bytes" then Head(1, true)
    else if IsElementary(typ) then Head(1, false)
    else Bad
  }

  /** The component loop of the tuple case, total words counted so far; it stops at the first dynamic
      component without looking at the rest. */
  function TupleWords(comps: seq<string>, total: int64, bound: nat): Head
    requires forall i :: 0 <= i < |comps| ==> |comps[i]| < bound
    decreases bound, 0, |comps|
  {
    if comps == [] then Head(total, false)
    else
      match HeadWords(comps[0])
      case Bad => Bad
      case Head(w, dyn) =>
        if dyn then Head(1, true) else TupleWords(comps[1..], Wrap64(total + w), bound)
  }

  /** The digit loop of the array case. */
  method ComputeCount(n: string) returns (ok: bool, count: int64)
    ensures ok == AllDigits(n)
    ensures ok ==> count == Wrap64(Val(n))
  {
    count := 0;
    for i := 0 to |n|
      invariant AllDigits(n[..i])
      invariant count == Wrap64(Val(n[..i]))
    {
      if !IsDigit(n[i]) { return false, 0; }
      assert n[..i + 1][..i] == n[..i];
      WrapStep(Val(n[..i]), DigitVal(n[i]));
      count := Wrap64(Wrap64(count * 10) + DigitVal(n[i]));
    }
    assert n[..|n|] == n;
    return true, count;
  }

  method ComputeHeadWords(typ: string) returns (r: Head)
    ensures r == HeadWords(typ)
    decreases |typ|, 1
  {
    if HasSuffix(typ, "]") {
      var lb := LastIndexOf(typ, '[');
      if lb < 0 { return Bad; }
      var inner, n := typ[..lb], typ[lb + 1..|typ| - 1];
      if n == "" { return Head(1, true); }
      var ok, count := ComputeCount(n);
      if !ok { return Bad; }
      var e := ComputeHeadWords(inner);
      match e
      case Bad => return Bad;
      case Head(w, dyn) =>
        if dyn { return Head(1, true); }
        return Head(Wrap64(w * count), false);
    }
    if HasPrefix(typ, "(") {
      if !HasSuffix(typ, ")") { return Bad; }
      var comps := ComputeSplitTopLevel(typ[1..|typ| - 1]);
      r := ComputeTupleWords(comps, |typ|);
      return r;
    }
    if typ == "string" || typ == "bytes" { return Head(1, true); }
    if IsElementary(typ) { return Head(1, false); }
    return Bad;
  }

  /** The component loop of the tuple case. */
  method ComputeTupleWords(comps: seq<string>, ghost bound: nat) returns (r: Head)
    requires forall i :: 0 <= i < |comps| ==> |comps[i]| < bound
    ensures r == TupleWords(comps, 0, bound)
    decreases bound, 0
  {
    hide Wrap64, HeadWords;
    var total: int64 := 0;
    for i := 0 to |comps|
      invariant TupleWords(comps, 0, bound) == TupleWords(comps[i..], total, bound)
    {
      var h := ComputeHeadWords(comps[i]);
      if h.Bad? { return Bad; }
      if h.dynamic { return Head(1, true); }
      assert comps[i..][1..] == comps[i + 1..];
      total := Wrap64(total + h.words);
    }
    return Head(total, false);
  }

  lemma WrapStep(v: nat, d: nat)
    ensures Wrap64(Wrap64(Wrap64(v) * 10) + d) == Wrap64(10 * v + d)
  {
    WrapMul(10, v);
    WrapAdd(d, 10 * v);
  }

  // ---- SplitParams and Plausible ----

  function SplitParams(signature: string): Option<seq<string>> {
    var open := IndexOf(signature, '(');
    if open < 0 || !HasSuffix(signature, ")") then None
    else Some(SplitTopLevel(signature[open + 1..|signature| - 1]))
  }

  /** The parameter loop of Plausible: None as soon as a parameter does not parse. */
  function SumHeads(params: seq<string>, head: int64, dynamic: bool): Option<(int64, bool)> {
    if params == [] then Some((head, dynamic))
    else
      match HeadWords(params[0])
      case Bad => None
      case Head(w, dyn) => SumHeads(params[1..], Wrap64(head + w), dynamic || dyn)
  }

  predicate Plausible(signature: string, calldataLen: int64) {
    match SplitParams(signature)
    case None => true
    case Some(params) =>
      var argBytes := Wrap64(calldataLen - 4);
      argBytes >= 0 &&
      match SumHeads(params, 0, false)
      case None => true
      case Some((head, dynamic)) =>
        if dynamic then argBytes >= Wrap64(head * 32) else argBytes == Wrap64(head * 32)
  }

  method ComputeSumHeads(params: seq<string>) returns (ok: bool, head: int64, dynamic: bool)
    ensures SumHeads(params, 0, false) == if ok then Some((head, dynamic)) else None
  {
    hide Wrap64, HeadWords;
    head, dynamic := 0, false;
    for i := 0 to |params|
      invariant SumHeads(params, 0, false) == SumHeads(params[i..], head, dynamic)
    {
      var h := ComputeHeadWords(params[i]);
      if h.Bad? { return false, 0, false; }
      assert params[i..][1..] == params[i + 1..];
      head := Wrap64(head + h.words);
      dynamic := dynamic || h.dynamic;
    }
    return true, head, dynamic;
  }

  method ComputePlausible(signature: string, calldataLen: int64) returns (b: bool)
    ensures b == Plausible(signature, calldataLen)
  {
    hide Wrap64, SumHeads, SplitTopLevel;
    var open := IndexOf(signature, '(');
    if open < 0 || !HasSuffix(signature, ")") { return true; }
    var params := ComputeSplitTopLevel(signature[open + 1..|signature| - 1]);
    var argBytes := Wrap64(calldataLen - 4);
    if argBytes < 0 { return false; }
    var ok, head, dynamic := ComputeSumHeads(params);
    if !ok { return true; }
    if !dynamic { return argBytes == Wrap64(head as int * 32); }
    return argBytes >= Wrap64(head as int * 32);
  }

  // ---- ChooseSignature ----

  datatype Candidate = Candidate(signature: string, priority: nat)

  datatype Scored = Scored(c: Candidate, plausible: bool)

  /** len of a Go string: its UTF-8 bytes. */
  function ByteLen(s: string): nat {
    if s == "" then 0
    else
      var c := s[0] as int;
      (if c < 0x80 then 1 else if c < 0x800 then 2 else if c < 0x1_0000 then 3 else 4) + ByteLen(s[1..])
  }

  /** The less function given to sort.SliceStable. */
  predicate ScoredLess(a: Scored, b: Scored) {
    if a.plausible != b.plausible then a.plausible
    else if a.c.priority != b.c.priority then a.c.priority < b.c.priority
    else if ByteLen(a.c.signature) != ByteLen(b.c.signature) then
      ByteLen(a.c.signature) < ByteLen(b.c.signature)
    else Lex.StringLess(a.c.signature, b.c.signature)
  }

  predicate ScoredLeq(a: Scored, b: Scored) {
    !ScoredLess(b, a)
  }

  function Score(cands: seq<Candidate>, calldataLen: int64): seq<Scored> {
    if cands == [] then []
    else
      var c := cands[|cands| - 1];
      var front := Score(cands[..|cands| - 1], calldataLen);
      if c.signature == "" then front else front + [Scored(c, Plausible(c.signature, calldataLen))]
  }

  function Choose(cands: seq<Candidate>, calldataLen: int64): Option<string> {
    var sorted := Sorting.Sort(Score(cands, calldataLen), ScoredLeq);
    if sorted == [] then None else Some(sorted[0].c.signature)
  }

  method ChooseSignature(cands: seq<Candidate>, calldataLen: int64) returns (signature: string, ok: bool)
    ensures ok == Choose(cands, calldataLen).Some?
    ensures signature == if ok then Choose(cands, calldataLen).value else ""
  {
    if |cands| == 0 { return "", false; }
    var scored := [];
    for i := 0 to |cands|
      invariant scored == Score(cands[..i], calldataLen)
    {
      assert cands[..i + 1][..i] == cands[..i];
      if cands[i].signature == "" { continue; }
      var plausible := ComputePlausible(cands[i].signature, calldataLen);
      scored := scored + [Scored(cands[i], plausible)];
    }
    assert cands[..|cands|] == cands;
    if |scored| == 0 { return "", false; }
    var sorted := Sorting.Sort(scored, ScoredLeq);
    return sorted[0].c.signature, true;
  }
}
