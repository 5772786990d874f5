/** pkg/api/handlers_txs.go: the keyset cursor of an address's internal transactions, ordered by
    (block, transaction index, trace position) descending. */
module TraceCursor {
  import opened Base
  import opened Decimal
  import Text
  import Lex
  import Keyset
  import Sorting

  datatype Cursor = Cursor(block: uint32, txIndex: uint16, trace: seq<uint16>, hasTrace: bool)

  /** The sort key of a row of address_traces for one chain and address. */
  datatype Row = Row(block: uint32, txIndex: uint16, trace: seq<uint16>)

  // ---- String ----

  function PrintTrace(trace: seq<uint16>): (parts: seq<string>)
    ensures |parts| == |trace|
    ensures forall i :: 0 <= i < |parts| ==> parts[i] == Dec(trace[i])
  {
    seq(|trace|, i requires 0 <= i < |trace| => Dec(trace[i]))
  }

  function Show(c: Cursor): string {
    Dec(c.block) + ":" + (Dec(c.txIndex) + ":" + Text.Join(PrintTrace(c.trace), '.'))
  }

  method String(c: Cursor) returns (s: string)
    ensures s == Show(c)
  {
    var parts := [];
    for i := 0 to |c.trace|
      invariant parts == PrintTrace(c.trace)[..i]
    {
      parts := parts + [Dec(c.trace[i])];
    }
    assert parts == PrintTrace(c.trace);
    s := Dec(c.block) + ":" + (Dec(c.txIndex) + ":" + Text.Join(parts, '.'));
  }

  // ---- getTraceCursor ----

  function ParseTrace(parts: seq<string>): Option<seq<uint16>> {
    if parts == [] then Some([])
    else
      PowBits();
      match ParseTrace(parts[..|parts| - 1])
      case None => None
      case Some(front) =>
        match ParseUint(parts[|parts| - 1], 16)
        case None => None
        case Some(v) => Some(front + [v])
  }

  /** The cursor a request's parameter stands for; None for a missing or malformed one. */
  function Parse(raw: string): Option<Cursor> {
    var parts := Text.SplitN(raw, ':', 3);
    if raw == "" || |parts| < 2 then None
    else
      PowBits();
      match (ParseUint(parts[0], 32), ParseUint(parts[1], 16))
      case (Some(block), Some(idx)) =>
        if |parts| < 3 then Some(Cursor(block, idx, [], false))
        else if parts[2] == "" then Some(Cursor(block, idx, [], true))
        else
          (match ParseTrace(Text.Split(parts[2], '.'))
           case None => None
           case Some(trace) => Some(Cursor(block, idx, trace, true)))
      case _ => None
  }

  method GetTraceCursor(raw: string) returns (c: Option<Cursor>)
    ensures c == Parse(raw)
  {
    hide Text.SplitN, Text.Split, ParseTrace;
    PowBits();
    if raw == "" { return None; }
    var parts := Text.SplitN(raw, ':', 3);
    if |parts| < 2 { return None; }
    var bn := ParseUint(parts[0], 32);
    if bn.None? { return None; }
    var idx := ParseUint(parts[1], 16);
    if idx.None? { return None; }
    var trace: seq<uint16> := [];
    var hasTrace := false;
    if |parts| == 3 {
      hasTrace := true;
      if parts[2] != "" {
        var t := ParsePositions(Text.Split(parts[2], '.'));
        if t.None? { return None; }
        trace := t.value;
      }
    }
    return Some(Cursor(bn.value, idx.value, trace, hasTrace));
  }

  lemma NoPositions()
    ensures ParseTrace([]) == Some([])
  {
  }

  /** The loop over the positions, which gives up at the first that does not parse. */
  method ParsePositions(ps: seq<string>) returns (trace: Option<seq<uint16>>)
    ensures trace == ParseTrace(ps)
  {
    hide ParseTrace, ParseUint;
    var t: seq<uint16> := [];
    assert ps[..0] == [] && ParseTrace([]) == Some([]) by { NoPositions(); }
    for i := 0 to |ps|
      invariant ParseTrace(ps[..i]) == Some(t)
    {
      ParseOneMore(ps, i);
      var v := ParseUint(ps[i], 16);
      if v.None? {
        ParseTraceFails(ps, i + 1);
        return None;
      }
      t := t + [v.value];
    }
    assert ps[..|ps|] == ps;
    return Some(t);
  }

  lemma ParseOneMore(ps: seq<string>, i: nat)
    requires i < |ps| && ParseTrace(ps[..i]).Some?
    ensures ParseTrace(ps[..i + 1]).Some? <==> ParseUint(ps[i], 16).Some?
    ensures ParseUint(ps[i], 16).Some? ==>
              ParseUint(ps[i], 16).value < 0x1_0000 &&
              ParseTrace(ps[..i + 1]).value == ParseTrace(ps[..i]).value + [ParseUint(ps[i], 16).value]
  {
    PowBits();
    hide Val, Pow2, AllDigits;
    var parts := ps[..i + 1];
    assert parts[..i] == ps[..i] && parts[i] == ps[i];
  }

  lemma {:induction false} ParseTraceFails(parts: seq<string>, k: nat)
    requires k <= |parts| && ParseTrace(parts[..k]).None?
    ensures ParseTrace(parts).None?
    decreases |parts| - k
  {
    if k < |parts| {
      assert parts[..k + 1][..k] == parts[..k];
      ParseTraceFails(parts, k + 1);
    } else {
      assert parts[..k] == parts;
    }
  }

  // ---- Parsing undoes printing ----

  lemma {:induction false} ParsePrintedTrace(trace: seq<uint16>)
    ensures ParseTrace(PrintTrace(trace)) == Some(trace)
  {
    if trace != [] {
      var front := trace[..|trace| - 1];
      ParsePrintedTrace(front);
      hide Dec, Val, Pow2;
      assert PrintTrace(trace)[..|trace| - 1] == PrintTrace(front);
      PowBits();
      ParsePrinted(trace[|trace| - 1], 16);
      assert trace == front + [trace[|trace| - 1]];
    }
  }

  lemma {:induction false} NonEmptyJoin(parts: seq<string>)
    requires parts != [] && forall i :: 0 <= i < |parts| ==> parts[i] != ""
    ensures Text.Join(parts, '.') != ""
  {
  }

  lemma SplitShow(c: Cursor)
    ensures Text.SplitN(Show(c), ':', 3)
            == [Dec(c.block), Dec(c.txIndex), Text.Join(PrintTrace(c.trace), '.')]
  {
    hide Dec, Text.SplitN, Text.Join, PrintTrace;
    var traceText := Text.Join(PrintTrace(c.trace), '.');
    var tail := Dec(c.txIndex) + ":" + traceText;
    OnlyDigits(c.block, ':');
    OnlyDigits(c.txIndex, ':');
    Text.SplitNFirst(Dec(c.block), ':', tail, 3);
    Text.SplitNFirst(Dec(c.txIndex), ':', traceText, 2);
    Text.SplitNOne(traceText, ':');
    assert Dec(c.block) + ":" + tail == Show(c);
  }

  lemma ParseTraceText(trace: seq<uint16>)
    ensures var text := Text.Join(PrintTrace(trace), '.');
            (text == "" <==> trace == []) && (trace != [] ==> ParseTrace(Text.Split(text, '.')) == Some(trace))
  {
    hide Dec;
    if trace != [] {
      NonEmptyJoin(PrintTrace(trace));
      Text.SplitJoin(PrintTrace(trace), '.');
      ParsePrintedTrace(trace);
    }
  }

  /** getTraceCursor undoes String on exactly the cursors that carry a trace position, which are the only
      ones the handler prints: a printed cursor always has three parts. */
  lemma ParseShow(c: Cursor)
    ensures Parse(Show(c)) == Some(c.(hasTrace := true))
    ensures Parse(Show(c)) == Some(c) <==> c.hasTrace
  {
    hide Dec, Text.SplitN, Text.Split, ParseTrace, ParseUint;
    SplitShow(c);
    assert Show(c) != "" by { assert |Show(c)| >= 1; }
    PowBits();
    ParsePrinted(c.block, 32);
    ParsePrinted(c.txIndex, 16);
    ParseTraceText(c.trace);
  }

  /** The old form <block>:<tx_index> still parses, without a position. */
  lemma ParseOldForm(block: uint32, txIndex: uint16)
    ensures Parse(Dec(block) + ":" + Dec(txIndex)) == Some(Cursor(block, txIndex, [], false))
  {
    var tail := Dec(txIndex);
    Text.SplitNFirst(Dec(block), ':', tail, 3);
    assert Text.IndexOf(tail, ':') == -1;
    PowBits();
    ParsePrinted(block, 32);
    ParsePrinted(txIndex, 16);
  }

  // ---- What parses ----

  ghost predicate Spells(s: string, n: nat) {
    exists zeros: nat :: IsNumeral(s, n, zeros)
  }

  ghost predicate SpellsEach(parts: seq<string>, trace: seq<uint16>) {
    |parts| == |trace| && forall i :: 0 <= i < |parts| ==> Spells(parts[i], trace[i])
  }

  ghost predicate SpellsTrace(text: string, parts: seq<string>, trace: seq<uint16>) {
    text == Text.Join(parts, '.') && SpellsEach(parts, trace)
  }

  lemma NumberIff(s: string, bits: nat, n: nat)
    requires n < Pow2(bits)
    ensures ParseUint(s, bits) == Some(n) <==> Spells(s, n)
    ensures Spells(s, n) ==> s != "" && ':' !in s && '.' !in s
  {
    hide IsNumeral, ParseUint, Pow2;
    ParseUintIff(s, bits, n);
    if zeros: nat :| IsNumeral(s, n, zeros) {
      NumeralHasNo(s, n, zeros, ':');
      NumeralHasNo(s, n, zeros, '.');
    }
  }

  lemma {:induction false} ParseTraceIff(parts: seq<string>, trace: seq<uint16>)
    ensures ParseTrace(parts) == Some(trace) <==> SpellsEach(parts, trace)
  {
    hide ParseUint, Spells, Pow2;
    if parts != [] && trace != [] {
      var ps, p, ts, n := parts[..|parts| - 1], parts[|parts| - 1], trace[..|trace| - 1], trace[|trace| - 1];
      PowBits();
      assert parts == ps + [p] && trace == ts + [n];
      ParseTraceIff(ps, ts);
      NumberIff(p, 16, n);
      LastSpelled(ps, p, ts, n);
      ParseTraceLast(parts);
      hide ParseTrace, SpellsEach;
      LastDiffers(ParseTrace(ps), ParseUint(p, 16), ts, n);
    } else if parts != [] {
      ParseTraceLast(parts);
    }
  }

  lemma LastDiffers(front: Option<seq<uint16>>, last: Option<nat>, ts: seq<uint16>, n: uint16)
    requires last.Some? ==> last.value < 0x1_0000
    ensures (if front.None? || last.None? then None else Some(front.value + [last.value])) == Some(ts + [n])
            <==> front == Some(ts) && last == Some(n)
  {
    if front.Some? && last.Some? && front.value + [last.value] == ts + [n] {
      assert |front.value| == |ts|;
      assert front.value == (front.value + [last.value])[..|ts|] == (ts + [n])[..|ts|] == ts;
      assert last.value == (front.value + [last.value])[|ts|] == (ts + [n])[|ts|];
    }
  }

  lemma ParseTraceLast(parts: seq<string>)
    requires parts != []
    ensures var front, last := ParseTrace(parts[..|parts| - 1]), ParseUint(parts[|parts| - 1], 16);
            && (last.Some? ==> last.value < 0x1_0000)
            && ParseTrace(parts) != Some([])
            && ParseTrace(parts) == if front.None? || last.None? then None else Some(front.value + [last.value])
  {
    PowBits();
    hide Pow2, Val, AllDigits;
  }

  lemma LastSpelled(ps: seq<string>, p: string, ts: seq<uint16>, n: uint16)
    ensures SpellsEach(ps + [p], ts + [n]) <==> SpellsEach(ps, ts) && Spells(p, n)
  {
    hide Spells;
    if SpellsEach(ps + [p], ts + [n]) {
      assert forall i :: 0 <= i < |ps| ==> (ps + [p])[i] == ps[i] && (ts + [n])[i] == ts[i];
      assert (ps + [p])[|ps|] == p && (ts + [n])[|ps|] == n;
    }
  }

  /** A trace position is read from numerals between dots, from nothing when it is empty. */
  lemma TraceTextIff(text: string, trace: seq<uint16>)
    ensures (if text == "" then trace == [] else ParseTrace(Text.Split(text, '.')) == Some(trace))
            <==> exists parts :: SpellsTrace(text, parts, trace)
  {
    hide Text.Join, Text.Split, ParseTrace, SpellsEach;
    NothingJoined();
    if text == "" && trace == [] {
      assert SpellsTrace(text, [], trace);
    }
    if text != "" && ParseTrace(Text.Split(text, '.')) == Some(trace) {
      Text.SplitIs(text, '.');
      ParseTraceIff(Text.Split(text, '.'), trace);
      assert SpellsTrace(text, Text.Split(text, '.'), trace);
    }
    if parts: seq<string> :| SpellsTrace(text, parts, trace) {
      SpelledParts(parts, trace);
      if parts != [] {
        Text.SplitJoin(parts, '.');
        ParseTraceIff(parts, trace);
      }
    }
  }

  lemma NothingJoined()
    ensures Text.Join([], '.') == "" && SpellsEach([], [])
  {
  }

  lemma SpelledParts(parts: seq<string>, trace: seq<uint16>)
    requires SpellsEach(parts, trace)
    ensures forall i :: 0 <= i < |parts| ==> '.' !in parts[i]
    ensures parts == [] <==> trace == []
    ensures parts != [] ==> Text.Join(parts, '.') != ""
  {
    hide Text.Join, Pow2;
    PowBits();
    forall i | 0 <= i < |parts| ensures '.' !in parts[i] && parts[i] != "" { NumberIff(parts[i], 16, trace[i]); }
    if parts != [] { NonEmptyJoin(parts); }
  }

  ghost predicate Written(raw: string, c: Cursor, block: string, txIndex: string, text: string) {
    && Spells(block, c.block) && Spells(txIndex, c.txIndex)
    && if c.hasTrace then raw == block + ":" + (txIndex + ":" + text) && exists parts :: SpellsTrace(text, parts, c.trace)
       else raw == block + ":" + txIndex && c.trace == []
  }

  /** What parses, in general: two numerals in uint32 and uint16 with a colon between them, and perhaps, behind
      another colon, a trace position of uint16 numerals with dots between them. Anything else is no cursor. */
  lemma ParseIff(raw: string, c: Cursor)
    ensures Parse(raw) == Some(c) <==> exists block, txIndex, text :: Written(raw, c, block, txIndex, text)
  {
    hide Parse, Written;
    if Parse(raw) == Some(c) { ParsedIsWritten(raw, c); }
    if block: string, txIndex: string, text: string :| Written(raw, c, block, txIndex, text) { WrittenParses(raw, c, block, txIndex, text); }
  }

  lemma ParsedIsWritten(raw: string, c: Cursor)
    requires Parse(raw) == Some(c)
    ensures exists block, txIndex, text :: Written(raw, c, block, txIndex, text)
  {
    hide Text.SplitN, Text.Join, Text.Split, ParseTrace, ParseUint, Spells, SpellsTrace, Pow2;
    var parts := Text.SplitN(raw, ':', 3);
    Text.SplitNIs(raw, ':', 3);
    JoinPieces(parts);
    PowBits();
    NumberIff(parts[0], 32, c.block);
    NumberIff(parts[1], 16, c.txIndex);
    var text := if |parts| == 3 then parts[2] else "";
    TraceTextIff(text, c.trace);
    assert Written(raw, c, parts[0], parts[1], text);
  }

  lemma JoinPieces(parts: seq<string>)
    requires 2 <= |parts| <= 3
    ensures Text.Join(parts, ':') ==
            if |parts| == 2 then parts[0] + ":" + parts[1] else parts[0] + ":" + (parts[1] + ":" + parts[2])
  {
    assert Text.Join(parts[1..], ':') == if |parts| == 2 then parts[1] else parts[1] + ":" + parts[2];
  }

  lemma WrittenParses(raw: string, c: Cursor, block: string, txIndex: string, text: string)
    requires Written(raw, c, block, txIndex, text)
    ensures Parse(raw) == Some(c)
  {
    hide Text.SplitN, Text.Join, Text.Split, ParseTrace, ParseUint, Spells, SpellsTrace, Pow2;
    PowBits();
    NumberIff(block, 32, c.block);
    NumberIff(txIndex, 16, c.txIndex);
    TraceTextIff(text, c.trace);
    Text.SplitNOne(text, ':');
    if c.hasTrace {
      Text.SplitNFirst(block, ':', txIndex + ":" + text, 3);
      Text.SplitNFirst(txIndex, ':', text, 2);
    } else {
      Text.SplitNFirst(block, ':', txIndex, 3);
      OnePiece(txIndex);
    }
  }

  lemma OnePiece(s: string)
    requires ':' !in s
    ensures Text.SplitN(s, ':', 2) == [s]
  {
  }

  // ---- condition ----

  /** ClickHouse's lexicographic comparison of (block_number, transaction_index, trace_address) tuples. */
  predicate KeyLess(a: Row, b: Row) {
    || a.block < b.block
    || (a.block == b.block && (a.txIndex < b.txIndex || (a.txIndex == b.txIndex && Lex.Less(a.trace, b.trace))))
  }

  predicate Condition(c: Cursor, row: Row) {
    if !c.hasTrace then row.block < c.block || (row.block == c.block && row.txIndex < c.txIndex)
    else KeyLess(row, Row(c.block, c.txIndex, c.trace))
  }

  /** ORDER BY block_number DESC, transaction_index DESC, trace_address DESC. */
  predicate Before(a: Row, b: Row) {
    KeyLess(b, a)
  }

  /** The listing, spelled out: the later block first, then the later transaction, then the later trace position,
      where positions are compared at the first place where they differ and a call comes after its subcalls. */
  lemma OrderMeans(a: Row, b: Row)
    ensures Before(a, b) <==>
            || a.block > b.block
            || (a.block == b.block && a.txIndex > b.txIndex)
            || (a.block == b.block && a.txIndex == b.txIndex && exists k: nat :: Lex.DiffersAt(b.trace, a.trace, k))
  {
    Lex.LessMeans(b.trace, a.trace);
  }

  /** A cursor selects what is listed after its position; without a trace position, what belongs to earlier
      transactions. */
  lemma ConditionMeans(c: Cursor, row: Row)
    ensures Condition(c, row) <==>
            || row.block < c.block
            || (row.block == c.block && row.txIndex < c.txIndex)
            || (c.hasTrace && row.block == c.block && row.txIndex == c.txIndex
                && exists k: nat :: Lex.DiffersAt(row.trace, c.trace, k))
  {
    Lex.LessMeans(row.trace, c.trace);
  }

  function CursorOf(r: Row): Cursor {
    Cursor(r.block, r.txIndex, r.trace, true)
  }

  function InternalTxs(): Keyset.Endpoint<Row, Cursor> {
    Keyset.Endpoint(Before, (r: Row) => Show(CursorOf(r)), Parse, Condition)
  }

  lemma KeyOrder()
    ensures Keyset.StrictTotal(Before)
  {
    forall a ensures !Before(a, a) { Lex.Irreflexive(a.trace); }
    forall a, b, c | Before(a, b) && Before(b, c) ensures Before(a, c) {
      if Lex.Less(c.trace, b.trace) && Lex.Less(b.trace, a.trace) {
        Lex.Transitive(c.trace, b.trace, a.trace);
      }
    }
    forall a, b ensures a == b || Before(a, b) || Before(b, a) { Lex.Trichotomy(a.trace, b.trace); }
  }

  lemma Faithful(table: seq<Row>)
    ensures Keyset.Faithful(InternalTxs(), table)
  {
    KeyOrder();
    forall r: Row ensures Parse(Show(CursorOf(r))) == Some(CursorOf(r)) {
      ParseShow(CursorOf(r));
    }
  }

  /** Following next_cursor of the internal-txs endpoint from the first page lists the address's whole table
      once and in descending order, for every page size, if and only if no key is stored twice. */
  lemma WalkListsTable(table: seq<Row>)
    ensures Keyset.Faithful(InternalTxs(), table)
    ensures (forall limit: nat | limit >= 1 ::
               Keyset.Walk(InternalTxs(), table, "", limit) == Sorting.Sort(table, InternalTxs().Leq()))
            <==> Keyset.Distinct(table)
  {
    Faithful(table);
    Keyset.WalkIsTable(InternalTxs(), table);
  }

  /** A cursor in the old form resumes before its whole transaction: the rows it selects are those of
      earlier transactions, none of the transaction's own. */
  lemma OldFormSkipsTransaction(block: uint32, txIndex: uint16, row: Row)
    ensures var c := Parse(Dec(block) + ":" + Dec(txIndex));
            c.Some? && (Condition(c.value, row) <==>
                        forall trace: seq<uint16> :: Before(Row(block, txIndex, trace), row))
  {
    ParseOldForm(block, txIndex);
    if forall trace: seq<uint16> :: Before(Row(block, txIndex, trace), row) {
      assert Before(Row(block, txIndex, []), row);
    }
  }

  // ---- The handler's page ----

  /** handleAddressInternalTxs from the ordered query to the response: the row loop collects the rows and
      their positions side by side, and the next cursor is the position of the last row kept. When the query fails,
      or a row cannot be read (`scanned` were), or the rows end with an error, there is no page but an error. */
  method HandleAddressInternalTxs(table: seq<Row>, raw: string, limit: nat, offset: nat,
                                  queryFails: bool, scanned: Option<nat>, rowsFail: bool)
    returns (page: Option<Keyset.Page<Row>>)
    ensures page.Some? ==> page.value == Keyset.Handle(InternalTxs(), table, raw, limit, offset)
    ensures var cursor := Parse(raw);
            var rows := Keyset.Slice(Keyset.Selected(InternalTxs(), table, cursor), limit + 1,
                                     if cursor.Some? then 0 else offset);
            page.None? <==> queryFails || rowsFail || (scanned.Some? && scanned.value < |rows|)
  {
    hide Keyset.Selected, Show, Parse;
    var e := InternalTxs();
    var cursor := GetTraceCursor(raw);
    var queryOffset := if cursor.Some? then 0 else offset;
    var rows := Keyset.Slice(Keyset.Selected(e, table, cursor), limit + 1, queryOffset);
    if queryFails { return None; }
    var internalTxs, positions := [], [];
    for i := 0 to |rows|
      invariant internalTxs == rows[..i] && |positions| == i
      invariant forall j :: 0 <= j < i ==> positions[j] == CursorOf(rows[j])
      invariant scanned.Some? ==> i <= scanned.value
    {
      if scanned == Some(i) { return None; }
      internalTxs := internalTxs + [rows[i]];
      positions := positions + [CursorOf(rows[i])];
    }
    if rowsFail { return None; }
    var (items, hasMore) := Keyset.TrimResults(internalTxs, limit);
    var next := "";
    if hasMore && |items| > 0 {
      next := String(positions[|items| - 1]);
    }
    return Some(Keyset.Page(items, hasMore, next));
  }
}
