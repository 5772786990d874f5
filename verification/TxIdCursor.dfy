/** pkg/api/server.go: the keyset cursor of lists ordered by (block DESC, id ASC). */
module TxIdCursor {
  import opened Base
  import opened Decimal
  import Text
  import Lex
  import Keyset
  import Sorting

  datatype Cursor = Cursor(block: uint64, txId: string)

  datatype Row = Row(block: uint64, id: string)

  /** cursorBlockTxID. */
  function CursorBlockTxId(block: uint64, txId: string): string {
    Dec(block) + ":" + txId
  }

  /** getTxIDCursor. */
  function Parse(raw: string): Option<Cursor> {
    if raw == "" then None
    else
      PowBits();
      var parts := Text.SplitN(raw, ':', 2);
      match ParseUint(parts[0], 64)
      case None => None
      case Some(bn) => Some(Cursor(bn, if |parts| == 2 then parts[1] else ""))
  }

  predicate Condition(c: Cursor, row: Row) {
    if c.txId == "" then row.block < c.block
    else row.block < c.block || (row.block == c.block && Lex.StringLess(c.txId, row.id))
  }

  /** ORDER BY block DESC, id ASC. */
  predicate Before(a: Row, b: Row) {
    a.block > b.block || (a.block == b.block && Lex.StringLess(a.id, b.id))
  }

  /** The listing, spelled out: the later block first, and within a block the ids in the order of their characters. */
  lemma OrderMeans(a: Row, b: Row)
    ensures Before(a, b) <==>
            a.block > b.block || (a.block == b.block && exists k: nat :: Lex.DiffersAt(Lex.Codes(a.id), Lex.Codes(b.id), k))
  {
    Lex.LessMeans(Lex.Codes(a.id), Lex.Codes(b.id));
  }

  function ByBlockAndId(): Keyset.Endpoint<Row, Cursor> {
    Keyset.Endpoint(Before, (r: Row) => CursorBlockTxId(r.block, r.id), Parse, Condition)
  }

  /** getTxIDCursor undoes cursorBlockTxID for every block and every id, colons in the id included. */
  lemma ParseShow(block: uint64, txId: string)
    ensures Parse(CursorBlockTxId(block, txId)) == Some(Cursor(block, txId))
  {
    OnlyDigits(block, ':');
    hide Dec;
    Text.SplitNFirst(Dec(block), ':', txId, 2);
    Text.SplitNOne(txId, ':');
    PowBits();
    ParsePrinted(block, 64);
    hide Text.SplitN, ParseUint;
  }

  /** A bare block number, the old form, parses and resumes at the next lower block. */
  lemma ParseOldForm(block: uint64, row: Row)
    ensures var c := Parse(Dec(block)); c.Some? && (Condition(c.value, row) <==> row.block < block)
  {
    assert Text.IndexOf(Dec(block), ':') == -1;
    PowBits();
    ParsePrinted(block, 64);
  }

  ghost predicate Reads(raw: string, block: nat, number: string, zeros: nat, rest: string) {
    IsNumeral(number, block, zeros) && (raw == number + rest)
  }

  /** What parses: a block number in uint64, and behind a colon the id, empty when there is no colon. */
  lemma ParseIff(raw: string, c: Cursor)
    ensures Parse(raw) == Some(c) <==>
            exists number: string, zeros: nat ::
              Reads(raw, c.block, number, zeros, ":" + c.txId) || (c.txId == "" && Reads(raw, c.block, number, zeros, ""))
  {
    hide Text.SplitN, Text.Join, ParseUint, IsNumeral, Pow2;
    PowBits();
    if Parse(raw) == Some(c) {
      var parts := Text.SplitN(raw, ':', 2);
      Text.SplitNIs(raw, ':', 2);
      JoinTwo(parts);
      ParseUintIff(parts[0], 64, c.block);
      var zeros: nat :| IsNumeral(parts[0], c.block, zeros);
      assert |parts| == 1 ==> Reads(raw, c.block, parts[0], zeros, "");
      assert |parts| == 2 ==> Reads(raw, c.block, parts[0], zeros, ":" + c.txId);
    }
    forall number: string, zeros: nat
      | Reads(raw, c.block, number, zeros, ":" + c.txId) || (c.txId == "" && Reads(raw, c.block, number, zeros, ""))
      ensures Parse(raw) == Some(c)
    {
      ParseUintIff(number, 64, c.block);
      NumeralHasNo(number, c.block, zeros, ':');
      if Reads(raw, c.block, number, zeros, ":" + c.txId) {
        Text.SplitNFirst(number, ':', c.txId, 2);
        Text.SplitNOne(c.txId, ':');
        assert raw == number + [':'] + c.txId;
      } else {
        assert raw == number;
        OnePiece(raw);
      }
    }
  }

  lemma OnePiece(raw: string)
    requires ':' !in raw
    ensures Text.SplitN(raw, ':', 2) == [raw]
  {
  }

  lemma JoinTwo(parts: seq<string>)
    requires 1 <= |parts| <= 2
    ensures Text.Join(parts, ':') == if |parts| == 1 then parts[0] else parts[0] + (":" + parts[1])
  {
  }

  lemma KeyOrder()
    ensures Keyset.StrictTotal(Before)
  {
    forall a ensures !Before(a, a) { Lex.Irreflexive(Lex.Codes(a.id)); }
    forall a, b, c | Before(a, b) && Before(b, c) ensures Before(a, c) {
      if Lex.StringLess(a.id, b.id) && Lex.StringLess(b.id, c.id) {
        Lex.Transitive(Lex.Codes(a.id), Lex.Codes(b.id), Lex.Codes(c.id));
      }
    }
    forall a, b ensures a == b || Before(a, b) || Before(b, a) { Lex.StringTrichotomy(a.id, b.id); }
  }

  /** The condition selects exactly the rows listed after the cursor's own row if and only if the cursor's id
      is not empty: an empty id drops the rest of its block. */
  lemma ConditionSelectsAfter(c: Cursor)
    ensures (forall row :: Condition(c, row) <==> Before(Row(c.block, c.txId), row)) <==> c.txId != ""
  {
    if c.txId == "" {
      var row := Row(c.block, "a");
      assert Lex.Less(Lex.Codes(""), Lex.Codes("a"));
      assert Before(Row(c.block, c.txId), row) && !Condition(c, row);
    }
  }

  /** A row with an empty id shares its block with no other row. */
  predicate EmptyIdsAlone(table: seq<Row>) {
    forall r, x :: r in table && x in table && r.id == "" && x.block == r.block ==> x.id == ""
  }

  lemma CursorOfRow(r: Row)
    ensures ByBlockAndId().parse(ByBlockAndId().show(r)) == Some(Cursor(r.block, r.id))
  {
    ParseShow(r.block, r.id);
  }

  lemma CursorSelects(r: Row, x: Row)
    ensures (Condition(Cursor(r.block, r.id), x) <==> Before(r, x)) <==> (r.id == "" && x.block == r.block ==> x.id == "")
  {
    if r.id == "" && x.id != "" { assert Lex.Less(Lex.Codes(""), Lex.Codes(x.id)); }
    if r.id == x.id { Lex.Irreflexive(Lex.Codes(x.id)); }
  }

  /** Over a whole table, each row's printed cursor selects exactly the rows listed after it if and only if rows with
      an empty id are alone in their blocks, as they are when there are none. */
  lemma FaithfulIff(table: seq<Row>)
    ensures Keyset.Faithful(ByBlockAndId(), table) <==> EmptyIdsAlone(table)
  {
    KeyOrder();
    var e := ByBlockAndId();
    forall r | r in table ensures e.parse(e.show(r)) == Some(Cursor(r.block, r.id)) { CursorOfRow(r); }
    forall r: Row, x: Row
      ensures (e.cond(Cursor(r.block, r.id), x) <==> e.before(r, x)) <==> (r.id == "" && x.block == r.block ==> x.id == "")
    {
      CursorSelects(r, x);
    }
    assert e.parse("").None?;
    hide Condition, Before, Parse, CursorBlockTxId, ByBlockAndId;
    if Keyset.Faithful(e, table) {
      forall r, x | r in table && x in table ensures r.id == "" && x.block == r.block ==> x.id == "" {
        assert e.parse(e.show(r)).value == Cursor(r.block, r.id);
        assert e.cond(Cursor(r.block, r.id), x) <==> e.before(r, x);
      }
    }
    if EmptyIdsAlone(table) {
      forall r, x | r in table && x in table ensures e.cond(e.parse(e.show(r)).value, x) <==> e.before(r, x) {
        assert r.id == "" && x.block == r.block ==> x.id == "";
      }
    }
  }

  /** Following next_cursor of a (block DESC, id ASC) list from the first page gives the whole table once and
      in order, for every page size, if and only if no key is stored twice. */
  lemma WalkListsTable(table: seq<Row>)
    requires EmptyIdsAlone(table)
    ensures Keyset.Faithful(ByBlockAndId(), table)
    ensures (forall limit: nat | limit >= 1 ::
               Keyset.Walk(ByBlockAndId(), table, "", limit) == Sorting.Sort(table, ByBlockAndId().Leq()))
            <==> Keyset.Distinct(table)
  {
    FaithfulIff(table);
    Keyset.WalkIsTable(ByBlockAndId(), table);
  }
}
