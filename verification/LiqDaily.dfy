/** pkg/api/handlers_lending_liquidations.go, loadLiqDaily: rows ordered by day are streamed into one entry per day
    with two splits of its totals. Dollar amounts are exact here. */
module LiqDaily {
  import opened Base
  import Lex
  import Sorting

  datatype Sums = Sums(count: nat, unpriced: nat, repaid: real, seized: real)

  const ZERO := Sums(0, 0, 0.0, 0.0)

  /** One row of the query: a day, a protocol and a collateral column with their sums. */
  datatype Row = Row(date: string, protocol: string, coll: string, sums: Sums)

  datatype LiqTotals = LiqTotals(sums: Sums, protocolID: string, asset: string, symbol: string)

  datatype LiqDay = LiqDay(date: string, totals: Sums, byProtocol: seq<LiqTotals>, byCollateral: seq<LiqTotals>)

  datatype LiqAssetInfo = LiqAssetInfo(asset: string, symbol: string)

  type Assets = map<string, LiqAssetInfo>

  /** What the database answers: rows, then a row that cannot be read, or the end, perhaps with an error. */
  datatype Stream = Stream(rows: seq<Row>, unreadable: bool, failed: bool)

  function Plus(a: Sums, b: Sums): Sums {
    Sums(a.count + b.count, a.unpriced + b.unpriced, a.repaid + b.repaid, a.seized + b.seized)
  }

  function ResolveLiqAsset(assets: Assets, protocol: string, addr: string): (string, string) {
    var key := protocol + "|" + addr;
    if key in assets then (assets[key].asset, assets[key].symbol) else (addr, "")
  }

  /** The two ways a day is split. */
  datatype Split = ByProtocol | ByCollateral(assets: Assets)

  function Key(split: Split, r: Row): string {
    match split
    case ByProtocol => r.protocol
    case ByCollateral(assets) => ResolveLiqAsset(assets, r.protocol, "0x" + r.coll).0
  }

  function EntryKey(split: Split, e: LiqTotals): string {
    if split.ByProtocol? then e.protocolID else e.asset
  }

  function NewEntry(split: Split, r: Row): LiqTotals {
    match split
    case ByProtocol => LiqTotals(ZERO, r.protocol, "", "")
    case ByCollateral(assets) =>
      var (asset, symbol) := ResolveLiqAsset(assets, r.protocol, "0x" + r.coll);
      LiqTotals(ZERO, "", asset, symbol)
  }

  function AddRow(split: Split, m: map<string, LiqTotals>, r: Row): map<string, LiqTotals> {
    var k := Key(split, r);
    var e := if k in m then m[k] else NewEntry(split, r);
    m[k := e.(sums := Plus(e.sums, r.sums))]
  }

  /** The map of a split after the rows of one day. */
  function Group(split: Split, rows: seq<Row>): map<string, LiqTotals> {
    if rows == [] then map[] else AddRow(split, Group(split, rows[..|rows| - 1]), rows[|rows| - 1])
  }

  function Sum(rows: seq<Row>): Sums {
    if rows == [] then ZERO else Plus(Sum(rows[..|rows| - 1]), rows[|rows| - 1].sums)
  }

  function SumEntries(es: seq<LiqTotals>): Sums {
    if es == [] then ZERO else Plus(SumEntries(es[..|es| - 1]), es[|es| - 1].sums)
  }

  /** The rows of one key, and of one day. */
  function OfKey(split: Split, rows: seq<Row>, k: string): seq<Row> {
    if rows == [] then []
    else
      var r := rows[|rows| - 1];
      OfKey(split, rows[..|rows| - 1], k) + if Key(split, r) == k then [r] else []
  }

  function OfDay(rows: seq<Row>, date: string): seq<Row> {
    if rows == [] then []
    else
      var r := rows[|rows| - 1];
      OfDay(rows[..|rows| - 1], date) + if r.date == date then [r] else []
  }

  /** One more row belongs to the last stretch when it has its day, and begins a new one otherwise. */
  function AddToRuns(rs: seq<seq<Row>>, r: Row): (rs': seq<seq<Row>>)
    requires forall i :: 0 <= i < |rs| ==> rs[i] != []
    ensures forall i :: 0 <= i < |rs'| ==> rs'[i] != []
  {
    if rs != [] && rs[|rs| - 1][0].date == r.date then rs[..|rs| - 1] + [rs[|rs| - 1] + [r]] else rs + [[r]]
  }

  /** Maximal stretches of rows with the same day. */
  function Runs(rows: seq<Row>): (rs: seq<seq<Row>>)
    ensures forall i :: 0 <= i < |rs| ==> rs[i] != []
  {
    if rows == [] then [] else AddToRuns(Runs(rows[..|rows| - 1]), rows[|rows| - 1])
  }

  // ---- The splits ----

  /** The entries are those of the map, each once. */
  ghost predicate Lists(split: Split, es: seq<LiqTotals>, m: map<string, LiqTotals>) {
    && (forall e :: e in multiset(es) ==> EntryKey(split, e) in m && e == m[EntryKey(split, e)])
    && (forall k :: k in m ==> multiset(es)[m[k]] == 1)
  }

  function ById(): (LiqTotals, LiqTotals) -> bool {
    (a: LiqTotals, b: LiqTotals) => !Lex.StringLess(b.protocolID, a.protocolID)
  }

  function BySeized(): (LiqTotals, LiqTotals) -> bool {
    (a: LiqTotals, b: LiqTotals) => a.sums.seized >= b.sums.seized
  }

  lemma ByIdIsPreorder()
    ensures Sorting.TotalPreorder(ById())
  {
    var leq := ById();
    forall a: LiqTotals, b: LiqTotals, c: LiqTotals
      ensures leq(a, b) || leq(b, a)
      ensures leq(a, b) && leq(b, c) ==> leq(a, c)
    {
      var x, y, z := Lex.Codes(a.protocolID), Lex.Codes(b.protocolID), Lex.Codes(c.protocolID);
      Lex.Trichotomy(x, y);
      Lex.Trichotomy(y, z);
      Lex.Irreflexive(x);
      if Lex.Less(x, y) && Lex.Less(y, x) { Lex.Transitive(x, y, x); }
      if Lex.Less(z, x) && Lex.Less(x, y) { Lex.Transitive(z, x, y); }
      if Lex.Less(z, x) && Lex.Less(y, z) { Lex.Transitive(y, z, x); }
    }
  }

  /** What the output says of one day's rows. */
  ghost predicate DayOf(d: LiqDay, rows: seq<Row>, assets: Assets) {
    && rows != [] && d.date == rows[0].date && d.totals == Sum(rows)
    && Lists(ByProtocol, d.byProtocol, Group(ByProtocol, rows)) && Sorting.Sorted(d.byProtocol, ById())
    && Lists(ByCollateral(assets), d.byCollateral, Group(ByCollateral(assets), rows))
    && Sorting.Sorted(d.byCollateral, BySeized())
  }

  ghost predicate DaysOf(out: seq<LiqDay>, rows: seq<Row>, assets: Assets) {
    |out| == |Runs(rows)| && forall i :: 0 <= i < |out| ==> DayOf(out[i], Runs(rows)[i], assets)
  }

  // ---- The code ----

  /** Ranging over a map gives its values in some order. */
  method Values(split: Split, m: map<string, LiqTotals>) returns (es: seq<LiqTotals>)
    requires forall k :: k in m ==> EntryKey(split, m[k]) == k
    ensures Lists(split, es, m)
  {
    var rest := m.Keys;
    es := [];
    while rest != {}
      invariant rest <= m.Keys
      invariant forall e :: e in multiset(es) ==> EntryKey(split, e) in m.Keys - rest && e == m[EntryKey(split, e)]
      invariant forall k :: k in m ==> multiset(es)[m[k]] == if k in rest then 0 else 1
      decreases |rest|
    {
      var k :| k in rest;
      rest := rest - {k};
      es := es + [m[k]];
    }
  }

  lemma {:induction false} GroupKeys(split: Split, rows: seq<Row>)
    ensures forall k :: k in Group(split, rows) ==> EntryKey(split, Group(split, rows)[k]) == k
    ensures forall k :: k in Group(split, rows) <==> exists i :: 0 <= i < |rows| && Key(split, rows[i]) == k
  {
    if rows != [] {
      var before := rows[..|rows| - 1];
      GroupKeys(split, before);
      hide ResolveLiqAsset;
      assert Key(split, rows[|rows| - 1]) == EntryKey(split, NewEntry(split, rows[|rows| - 1]));
      forall k | k in Group(split, rows) ensures exists i :: 0 <= i < |rows| && Key(split, rows[i]) == k {
        if k in Group(split, before) {
          var i :| 0 <= i < |before| && Key(split, before[i]) == k;
          assert rows[i] == before[i];
        } else {
          assert Key(split, rows[|rows| - 1]) == k;
        }
      }
      forall i | 0 <= i < |rows| ensures Key(split, rows[i]) in Group(split, rows) {
        if i < |rows| - 1 { assert before[i] == rows[i]; }
      }
    }
  }

  /** flush: the last day gets its splits. */
  method Flush(d: LiqDay, ghost rows: seq<Row>, assets: Assets, byProto: map<string, LiqTotals>, byColl: map<string, LiqTotals>)
    returns (day: LiqDay)
    requires rows != [] && d.date == rows[0].date && d.totals == Sum(rows)
    requires byProto == Group(ByProtocol, rows) && byColl == Group(ByCollateral(assets), rows)
    ensures DayOf(day, rows, assets)
  {
    hide Group, Sum, ById, BySeized, Lists;
    GroupKeys(ByProtocol, rows);
    GroupKeys(ByCollateral(assets), rows);
    var p := Values(ByProtocol, byProto);
    var c := Values(ByCollateral(assets), byColl);
    ByIdIsPreorder();
    BySeizedIsPreorder();
    SortLists(ByProtocol, p, byProto, ById());
    SortLists(ByCollateral(assets), c, byColl, BySeized());
    day := d.(byProtocol := Sorting.Sort(p, ById()), byCollateral := Sorting.Sort(c, BySeized()));
  }

  lemma SortLists(split: Split, es: seq<LiqTotals>, m: map<string, LiqTotals>, leq: (LiqTotals, LiqTotals) -> bool)
    requires Sorting.TotalPreorder(leq) && Lists(split, es, m)
    ensures Lists(split, Sorting.Sort(es, leq), m) && Sorting.Sorted(Sorting.Sort(es, leq), leq)
  {
    Sorting.SortSorted(es, leq);
  }

  lemma BySeizedIsPreorder()
    ensures Sorting.TotalPreorder(BySeized())
  {
  }

  lemma RunsOneMore(rows: seq<Row>, n: nat)
    requires n < |rows|
    ensures Runs(rows[..n + 1]) == AddToRuns(Runs(rows[..n]), rows[n])
  {
    assert rows[..n + 1][..n] == rows[..n];
  }

  lemma AddOneRow(split: Split, rows: seq<Row>, r: Row)
    ensures Group(split, rows + [r]) == AddRow(split, Group(split, rows), r)
    ensures Sum(rows + [r]) == Plus(Sum(rows), r.sums)
  {
    assert (rows + [r])[..|rows|] == rows;
  }

  lemma EmptySums()
    ensures Runs([]) == [] && Sum([]) == ZERO && forall split: Split :: Group(split, []) == map[]
  {
  }

  /** All days but the last are finished; the last has its totals, and its splits are in the two maps. */
  ghost predicate Progress(out: seq<LiqDay>, runs: seq<seq<Row>>, assets: Assets,
    byProto: map<string, LiqTotals>, byColl: map<string, LiqTotals>)
  {
    && |out| == |runs|
    && (forall j :: 0 <= j < |out| - 1 ==> DayOf(out[j], runs[j], assets))
    && (out != [] ==>
          var d, rows := out[|out| - 1], runs[|out| - 1];
          && rows != [] && d.date == rows[0].date && d.totals == Sum(rows)
          && byProto == Group(ByProtocol, rows) && byColl == Group(ByCollateral(assets), rows))
  }

  /** The body of the row loop once the day of the row is open. */
  method Add(out: seq<LiqDay>, r: Row, assets: Assets, byProto: map<string, LiqTotals>, byColl: map<string, LiqTotals>)
    returns (out': seq<LiqDay>, byProto': map<string, LiqTotals>, byColl': map<string, LiqTotals>)
    requires out != []
    ensures var last := out[|out| - 1];
            out' == out[..|out| - 1] + [last.(totals := Plus(last.totals, r.sums))]
    ensures byProto' == AddRow(ByProtocol, byProto, r) && byColl' == AddRow(ByCollateral(assets), byColl, r)
  {
    var d := out[|out| - 1];
    out' := out[..|out| - 1] + [d.(totals := Plus(d.totals, r.sums))];
    var p := if r.protocol in byProto then byProto[r.protocol] else LiqTotals(ZERO, r.protocol, "", "");
    byProto' := byProto[r.protocol := p.(sums := Plus(p.sums, r.sums))];
    var (asset, symbol) := ResolveLiqAsset(assets, r.protocol, "0x" + r.coll);
    var c := if asset in byColl then byColl[asset] else LiqTotals(ZERO, "", asset, symbol);
    byColl' := byColl[asset := c.(sums := Plus(c.sums, r.sums))];
  }

  /** One turn of the row loop: a new row goes to the open day when its date is that day's; otherwise the open day is
      flushed first. */
  method TakeRow(assets: Assets, ghost runs: seq<seq<Row>>, r: Row,
                 out: seq<LiqDay>, byProto: map<string, LiqTotals>, byColl: map<string, LiqTotals>)
    returns (out': seq<LiqDay>, byProto': map<string, LiqTotals>, byColl': map<string, LiqTotals>)
    requires Progress(out, runs, assets, byProto, byColl) && forall i :: 0 <= i < |runs| ==> runs[i] != []
    ensures Progress(out', AddToRuns(runs, r), assets, byProto', byColl')
  {
    hide Group, Sum, AddRow, Plus, DayOf;
    EmptySums();
    out', byProto', byColl' := out, byProto, byColl;
    ghost var run: seq<Row> := [];
    if out == [] || out[|out| - 1].date != r.date {
      if out != [] {
        var day := Flush(out[|out| - 1], runs[|runs| - 1], assets, byProto, byColl);
        out' := out[..|out| - 1] + [day];
      }
      out' := out' + [LiqDay(r.date, ZERO, [], [])];
      byProto', byColl' := map[], map[];
      assert [] + [r] == [r];
    } else {
      run := runs[|runs| - 1];
    }
    AddOneRow(ByProtocol, run, r);
    AddOneRow(ByCollateral(assets), run, r);
    out', byProto', byColl' := Add(out', r, assets, byProto', byColl');
  }

  /** The flush after the loop. */
  method FlushLast(assets: Assets, ghost runs: seq<seq<Row>>,
                   out: seq<LiqDay>, byProto: map<string, LiqTotals>, byColl: map<string, LiqTotals>)
    returns (out': seq<LiqDay>)
    requires Progress(out, runs, assets, byProto, byColl)
    ensures |out'| == |runs| && forall i :: 0 <= i < |out'| ==> DayOf(out'[i], runs[i], assets)
  {
    hide Group, Sum, DayOf;
    if out == [] { return []; }
    var day := Flush(out[|out| - 1], runs[|runs| - 1], assets, byProto, byColl);
    out' := out[..|out| - 1] + [day];
  }

  /** The row loop. */
  method CollectDays(assets: Assets, rows: seq<Row>) returns (out: seq<LiqDay>)
    ensures DaysOf(out, rows, assets)
  {
    out := [];
    var byProto: map<string, LiqTotals>, byColl: map<string, LiqTotals> := map[], map[];
    EmptySums();
    assert rows[..0] == [] && Progress([], [], assets, byProto, byColl);
    hide Runs, DayOf, Progress;
    for i := 0 to |rows|
      invariant Progress(out, Runs(rows[..i]), assets, byProto, byColl)
    {
      RunsOneMore(rows, i);
      out, byProto, byColl := TakeRow(assets, Runs(rows[..i]), rows[i], out, byProto, byColl);
    }
    assert rows[..|rows|] == rows;
    out := FlushLast(assets, Runs(rows), out, byProto, byColl);
  }

  /** loadLiqDaily: no result without the assets, the rows, or when a row cannot be read; an error at the end of the
      rows is reported beside the days. */
  method LoadLiqDaily(known: Option<Assets>, answer: Option<Stream>) returns (out: seq<LiqDay>, err: bool)
    ensures known.None? || answer.None? ==> out == [] && err
    ensures known.Some? && answer.Some? ==>
              && err == (answer.value.unreadable || answer.value.failed)
              && if answer.value.unreadable then out == [] else DaysOf(out, answer.value.rows, known.value)
  {
    if known.None? || answer.None? { return [], true; }
    out := CollectDays(known.value, answer.value.rows);
    if answer.value.unreadable { return [], true; }
    err := answer.value.failed;
  }

  // ---- What the splits add up to ----

  lemma PlusZero()
    ensures forall a :: Plus(a, ZERO) == a == Plus(ZERO, a)
  {
  }

  lemma PlusMoves(a: Sums, b: Sums, c: Sums)
    ensures Plus(Plus(a, b), c) == Plus(Plus(a, c), b) == Plus(a, Plus(b, c))
  {
  }

  lemma {:induction false} GroupSums(split: Split, rows: seq<Row>, k: string)
    ensures k in Group(split, rows) <==> OfKey(split, rows, k) != []
    ensures k in Group(split, rows) ==> IsEntry(split, Group(split, rows)[k], OfKey(split, rows, k), k)
  {
    if rows != [] {
      var before, r := rows[..|rows| - 1], rows[|rows| - 1];
      GroupSums(split, before, k);
      var own := OfKey(split, before, k);
      var m := Group(split, before);
      assert OfKey(split, rows, k) == own + if Key(split, r) == k then [r] else [];
      assert Group(split, rows) == AddRow(split, m, r);
      assert own + [] == own;
      hide OfKey, Group;
      if Key(split, r) == k {
        EntryGrows(split, if k in m then m[k] else NewEntry(split, r), own, r, k);
      }
      hide IsEntry, NewEntry, Key, Plus;
    }
  }

  /** The entry of a key after its rows: their sums, with the labels of the first. */
  ghost predicate IsEntry(split: Split, e: LiqTotals, own: seq<Row>, k: string) {
    own != [] && EntryKey(split, e) == k && e == NewEntry(split, own[0]).(sums := Sum(own))
  }

  lemma EntryGrows(split: Split, e: LiqTotals, own: seq<Row>, r: Row, k: string)
    requires Key(split, r) == k
    requires if own == [] then e == NewEntry(split, r) else IsEntry(split, e, own, k)
    ensures IsEntry(split, e.(sums := Plus(e.sums, r.sums)), own + [r], k)
  {
    AddOneRow(split, own, r);
    EmptySums();
    hide ResolveLiqAsset, Plus, Sum;
  }

  ghost predicate Distinct(split: Split, es: seq<LiqTotals>) {
    forall i, j :: 0 <= i < j < |es| ==> EntryKey(split, es[i]) != EntryKey(split, es[j])
  }

  ghost predicate HasKey(split: Split, es: seq<LiqTotals>, k: string) {
    exists i :: 0 <= i < |es| && EntryKey(split, es[i]) == k
  }

  /** Each key of the day has one entry, with the sums of its rows and the labels of the first of them. */
  ghost predicate IsSplit(split: Split, es: seq<LiqTotals>, rows: seq<Row>) {
    && Distinct(split, es)
    && (forall i :: 0 <= i < |es| ==>
          var own := OfKey(split, rows, EntryKey(split, es[i]));
          own != [] && es[i] == NewEntry(split, own[0]).(sums := Sum(own)))
    && (forall k :: OfKey(split, rows, k) != [] ==> HasKey(split, es, k))
  }

  lemma OnceMeansDistinct<T>(s: seq<T>, i: nat, j: nat)
    requires i < j < |s| && multiset(s)[s[i]] == 1
    ensures s[i] != s[j]
  {
    assert s == s[..j] + s[j..];
    assert s[i] in s[..j] && s[j] in s[j..];
    assert multiset(s)[s[i]] == multiset(s[..j])[s[i]] + multiset(s[j..])[s[i]];
  }

  lemma ListsIsSplit(split: Split, es: seq<LiqTotals>, rows: seq<Row>)
    requires Lists(split, es, Group(split, rows))
    ensures IsSplit(split, es, rows)
  {
    hide Group, EntryKey, NewEntry, OfKey, Sum;
    var m := Group(split, rows);
    forall i | 0 <= i < |es|
      ensures EntryKey(split, es[i]) in m && es[i] == m[EntryKey(split, es[i])]
    {
      assert es[i] in multiset(es);
    }
    forall i, j | 0 <= i < j < |es| ensures EntryKey(split, es[i]) != EntryKey(split, es[j]) {
      OnceMeansDistinct(es, i, j);
    }
    forall i | 0 <= i < |es|
      ensures var own := OfKey(split, rows, EntryKey(split, es[i]));
              own != [] && es[i] == NewEntry(split, own[0]).(sums := Sum(own))
    {
      GroupSums(split, rows, EntryKey(split, es[i]));
    }
    forall k | OfKey(split, rows, k) != [] ensures HasKey(split, es, k) {
      GroupSums(split, rows, k);
      assert m[k] in multiset(es);
      assert m[k] in es;
    }
  }

  /** The sums of the rows of several keys. */
  function SumOfKeys(split: Split, rows: seq<Row>, es: seq<LiqTotals>): Sums {
    if es == [] then ZERO
    else Plus(SumOfKeys(split, rows, es[..|es| - 1]), Sum(OfKey(split, rows, EntryKey(split, es[|es| - 1]))))
  }

  lemma {:induction false} OneMoreRow(split: Split, rows: seq<Row>, r: Row, es: seq<LiqTotals>)
    requires Distinct(split, es)
    ensures SumOfKeys(split, rows + [r], es) ==
            if HasKey(split, es, Key(split, r)) then Plus(SumOfKeys(split, rows, es), r.sums) else SumOfKeys(split, rows, es)
  {
    if es != [] {
      var before, e := es[..|es| - 1], es[|es| - 1];
      assert es == before + [e];
      var own := OfKey(split, rows, EntryKey(split, e));
      OfOneMore(split, rows, r, EntryKey(split, e));
      AddOneRow(split, own, r);
      LastKey(split, before, e, Key(split, r));
      LastOfKeys(split, rows, before, e);
      LastOfKeys(split, rows + [r], before, e);
      PlusMoves(SumOfKeys(split, rows, before), Sum(own), r.sums);
      PlusMoves(SumOfKeys(split, rows, before), r.sums, Sum(own));
      hide EntryKey, Key, Plus, OfKey, Sum, HasKey, Distinct, SumOfKeys;
      OneMoreRow(split, rows, r, before);
    } else {
      hide Plus, OfKey, Sum;
    }
  }

  lemma OfOneMore(split: Split, rows: seq<Row>, r: Row, k: string)
    ensures OfKey(split, rows + [r], k) == if Key(split, r) == k then OfKey(split, rows, k) + [r] else OfKey(split, rows, k)
  {
    assert (rows + [r])[..|rows|] == rows;
  }

  lemma LastOfKeys(split: Split, rows: seq<Row>, before: seq<LiqTotals>, e: LiqTotals)
    ensures SumOfKeys(split, rows, before + [e]) ==
            Plus(SumOfKeys(split, rows, before), Sum(OfKey(split, rows, EntryKey(split, e))))
  {
    hide Plus, OfKey, Sum, EntryKey;
    assert (before + [e])[..|before|] == before;
  }

  lemma LastKey(split: Split, before: seq<LiqTotals>, e: LiqTotals, k: string)
    requires Distinct(split, before + [e])
    ensures Distinct(split, before)
    ensures HasKey(split, before + [e], k) <==> HasKey(split, before, k) || EntryKey(split, e) == k
    ensures !(HasKey(split, before, k) && EntryKey(split, e) == k)
  {
    hide EntryKey;
    var es := before + [e];
    assert es[|before|] == e;
    assert forall i :: 0 <= i < |before| ==> es[i] == before[i];
  }

  lemma {:induction false} NoRows(split: Split, es: seq<LiqTotals>)
    ensures SumOfKeys(split, [], es) == ZERO
  {
    if es != [] {
      PlusZero();
      EmptySums();
      assert OfKey(split, [], EntryKey(split, es[|es| - 1])) == [];
      hide Plus, OfKey, Sum, EntryKey;
      NoRows(split, es[..|es| - 1]);
    }
  }

  lemma {:induction false} KeysConserve(split: Split, rows: seq<Row>, es: seq<LiqTotals>)
    requires Distinct(split, es)
    requires forall r :: r in rows ==> HasKey(split, es, Key(split, r))
    ensures SumOfKeys(split, rows, es) == Sum(rows)
  {
    hide EntryKey, Key, Distinct, HasKey, Plus;
    if rows == [] {
      NoRows(split, es);
    } else {
      var before, r := rows[..|rows| - 1], rows[|rows| - 1];
      assert rows == before + [r];
      assert forall x :: x in before ==> x in rows;
      KeysConserve(split, before, es);
      assert r in rows;
      OneMoreRow(split, before, r, es);
    }
  }

  lemma {:induction false} EntriesAreKeySums(split: Split, rows: seq<Row>, es: seq<LiqTotals>)
    requires forall i :: 0 <= i < |es| ==> es[i].sums == Sum(OfKey(split, rows, EntryKey(split, es[i])))
    ensures SumEntries(es) == SumOfKeys(split, rows, es)
  {
    hide OfKey, Sum, EntryKey, Plus;
    if es != [] {
      EntriesAreKeySums(split, rows, es[..|es| - 1]);
    }
  }

  /** A split adds up to the total of its rows: none is lost and none counted twice. */
  lemma SplitConserves(split: Split, es: seq<LiqTotals>, rows: seq<Row>)
    requires IsSplit(split, es, rows)
    ensures SumEntries(es) == Sum(rows)
  {
    hide Plus, Sum, SumOfKeys, EntryKey, NewEntry, HasKey;
    EntriesAreKeySums(split, rows, es);
    forall r | r in rows ensures HasKey(split, es, Key(split, r)) {
      OwnRow(split, rows, r);
    }
    KeysConserve(split, rows, es);
  }

  lemma {:induction false} OwnRow(split: Split, rows: seq<Row>, r: Row)
    requires r in rows
    ensures r in OfKey(split, rows, Key(split, r))
  {
    var before, last := rows[..|rows| - 1], rows[|rows| - 1];
    if r != last {
      assert rows == before + [last];
      OwnRow(split, before, r);
    }
  }

  // ---- Days ----

  /** ORDER BY d. */
  ghost predicate Ordered(rows: seq<Row>) {
    forall i, j :: 0 <= i < j < |rows| ==> !Lex.StringLess(rows[j].date, rows[i].date)
  }

  ghost predicate RunsAreDays(rs: seq<seq<Row>>, rows: seq<Row>) {
    && (forall i :: 0 <= i < |rs| ==> rs[i] != [] && rs[i] == OfDay(rows, rs[i][0].date))
    && (forall i, j :: 0 <= i < j < |rs| ==> rs[i] != [] && rs[j] != [] && Lex.StringLess(rs[i][0].date, rs[j][0].date))
    && (forall d :: OfDay(rows, d) != [] ==> HasRun(rs, d))
  }

  ghost predicate HasRun(rs: seq<seq<Row>>, d: string) {
    exists i :: 0 <= i < |rs| && rs[i] != [] && rs[i][0].date == d
  }

  lemma OfDayMore(rows: seq<Row>, r: Row, d: string)
    ensures OfDay(rows + [r], d) == if r.date == d then OfDay(rows, d) + [r] else OfDay(rows, d)
  {
    assert (rows + [r])[..|rows|] == rows;
  }

  lemma ExtendRun(rs: seq<seq<Row>>, rows: seq<Row>, r: Row)
    requires RunsAreDays(rs, rows) && rs != [] && rs[|rs| - 1][0].date == r.date
    ensures RunsAreDays(rs[..|rs| - 1] + [rs[|rs| - 1] + [r]], rows + [r])
  {
    var last := |rs| - 1;
    var rs': seq<seq<Row>> := rs[..last] + [rs[last] + [r]];
    hide Lex.StringLess, OfDay;
    assert forall i :: 0 <= i < |rs| ==> rs[i] != [] && rs'[i] != [] && rs'[i][0] == rs[i][0];
    forall i | 0 <= i < |rs'| ensures rs'[i] == OfDay(rows + [r], rs'[i][0].date) {
      OfDayMore(rows, r, rs[i][0].date);
      if i < last {
        NotItself(rs[i][0].date, r.date);
        assert rs'[i] == rs[i];
      }
    }
    forall d | OfDay(rows + [r], d) != [] ensures HasRun(rs', d) {
      OfDayMore(rows, r, d);
      assert rs'[last][0].date == r.date;
      if d != r.date { SameHeads(rs, rs', d); }
    }
  }

  lemma SameHeads(rs: seq<seq<Row>>, rs': seq<seq<Row>>, d: string)
    requires |rs| == |rs'| && HasRun(rs, d)
    requires forall i :: 0 <= i < |rs| ==> rs[i] != [] && rs'[i] != [] && rs'[i][0] == rs[i][0]
    ensures HasRun(rs', d)
  {
    var i :| 0 <= i < |rs| && rs[i] != [] && rs[i][0].date == d;
    assert rs'[i][0].date == d;
  }

  lemma NotItself(a: string, b: string)
    ensures Lex.StringLess(a, b) ==> a != b
  {
    Lex.Irreflexive(Lex.Codes(a));
  }

  lemma NewRun(rs: seq<seq<Row>>, rows: seq<Row>, r: Row)
    requires RunsAreDays(rs, rows)
    requires forall i :: 0 <= i < |rs| ==> rs[i] != [] && Lex.StringLess(rs[i][0].date, r.date)
    ensures RunsAreDays(rs + [[r]], rows + [r])
  {
    var rs': seq<seq<Row>> := rs + [[r]];
    hide Lex.StringLess, OfDay;
    if OfDay(rows, r.date) != [] {
      assert HasRun(rs, r.date);
      var i :| 0 <= i < |rs| && rs[i] != [] && rs[i][0].date == r.date;
      NotItself(rs[i][0].date, r.date);
      assert false;
    }
    forall i | 0 <= i < |rs'| ensures rs'[i] == OfDay(rows + [r], rs'[i][0].date) {
      OfDayMore(rows, r, rs'[i][0].date);
      if i < |rs| { NotItself(rs[i][0].date, r.date); }
    }
    forall d | OfDay(rows + [r], d) != [] ensures HasRun(rs', d) {
      OfDayMore(rows, r, d);
      if d == r.date {
        assert rs'[|rs|][0].date == d;
      } else {
        assert HasRun(rs, d);
        var i :| 0 <= i < |rs| && rs[i] != [] && rs[i][0].date == d;
        assert rs'[i][0].date == d;
      }
    }
  }

  lemma {:induction false} OrderedRuns(rows: seq<Row>)
    requires Ordered(rows)
    ensures RunsAreDays(Runs(rows), rows) && EndsWith(Runs(rows), rows)
  {
    hide RunsAreDays, EndsWith;
    if rows == [] {
      NoRuns();
    } else {
      var before, r := rows[..|rows| - 1], rows[|rows| - 1];
      OrderedFront(rows);
      OrderedRuns(before);
      assert Runs(rows) == AddToRuns(Runs(before), r);
      hide Runs, Ordered, AddToRuns;
      OneMoreOrdered(Runs(before), before, r);
      assert rows == before + [r];
    }
  }

  /** The last stretch is that of the last row's day. */
  ghost predicate EndsWith(rs: seq<seq<Row>>, rows: seq<Row>) {
    if rows == [] then rs == []
    else rs != [] && rs[|rs| - 1] != [] && rs[|rs| - 1][0].date == rows[|rows| - 1].date
  }

  lemma OrderedFront(rows: seq<Row>)
    requires Ordered(rows) && rows != []
    ensures var before, r := rows[..|rows| - 1], rows[|rows| - 1];
            Ordered(before) && (before != [] ==> !Lex.StringLess(r.date, before[|before| - 1].date))
  {
    hide Lex.StringLess;
  }

  lemma OneMoreOrdered(rs: seq<seq<Row>>, rows: seq<Row>, r: Row)
    requires RunsAreDays(rs, rows) && EndsWith(rs, rows)
    requires forall i :: 0 <= i < |rs| ==> rs[i] != []
    requires rows != [] ==> !Lex.StringLess(r.date, rows[|rows| - 1].date)
    ensures RunsAreDays(AddToRuns(rs, r), rows + [r]) && EndsWith(AddToRuns(rs, r), rows + [r])
  {
    hide Lex.StringLess, RunsAreDays;
    if rs != [] && rs[|rs| - 1][0].date == r.date {
      ExtendRun(rs, rows, r);
    } else {
      if rs != [] { RunsAreEarlier(rs, rows, r.date); }
      NewRun(rs, rows, r);
    }
  }

  lemma RunsAreEarlier(rs: seq<seq<Row>>, rows: seq<Row>, date: string)
    requires RunsAreDays(rs, rows) && rs != []
    requires !Lex.StringLess(date, rs[|rs| - 1][0].date) && date != rs[|rs| - 1][0].date
    ensures forall i :: 0 <= i < |rs| ==> rs[i] != [] && Lex.StringLess(rs[i][0].date, date)
  {
    hide Lex.StringLess, OfDay, HasRun;
    var last := |rs| - 1;
    forall i | 0 <= i < |rs| ensures rs[i] != [] && Lex.StringLess(rs[i][0].date, date) {
      assert rs[i] != [];
      LaterDay(rs[i][0].date, rs[last][0].date, date);
    }
  }

  lemma NoRuns()
    ensures Runs([]) == [] && RunsAreDays([], []) && EndsWith([], [])
  {
  }

  lemma LaterDay(a: string, b: string, c: string)
    requires (a == b || Lex.StringLess(a, b)) && !Lex.StringLess(c, b) && c != b
    ensures Lex.StringLess(a, c)
  {
    Lex.StringTrichotomy(b, c);
    if a != b { Lex.Transitive(Lex.Codes(a), Lex.Codes(b), Lex.Codes(c)); }
  }

  // ---- The promises ----

  // Each field summed over the rows that belong.

  function Counts(rows: seq<Row>, belongs: Row -> bool): nat {
    if rows == [] then 0
    else Counts(rows[..|rows| - 1], belongs) + if belongs(rows[|rows| - 1]) then rows[|rows| - 1].sums.count else 0
  }

  function Unpriced(rows: seq<Row>, belongs: Row -> bool): nat {
    if rows == [] then 0
    else Unpriced(rows[..|rows| - 1], belongs) + if belongs(rows[|rows| - 1]) then rows[|rows| - 1].sums.unpriced else 0
  }

  function Repaid(rows: seq<Row>, belongs: Row -> bool): real {
    if rows == [] then 0.0
    else Repaid(rows[..|rows| - 1], belongs) + if belongs(rows[|rows| - 1]) then rows[|rows| - 1].sums.repaid else 0.0
  }

  function Seized(rows: seq<Row>, belongs: Row -> bool): real {
    if rows == [] then 0.0
    else Seized(rows[..|rows| - 1], belongs) + if belongs(rows[|rows| - 1]) then rows[|rows| - 1].sums.seized else 0.0
  }

  ghost predicate Totals(s: Sums, rows: seq<Row>, belongs: Row -> bool) {
    && s.count == Counts(rows, belongs) && s.unpriced == Unpriced(rows, belongs)
    && s.repaid == Repaid(rows, belongs) && s.seized == Seized(rows, belongs)
  }

  lemma TotalsOneMore(s: Sums, before: seq<Row>, r: Row, belongs: Row -> bool)
    requires Totals(s, before, belongs)
    ensures Totals(if belongs(r) then Plus(s, r.sums) else s, before + [r], belongs)
  {
    assert (before + [r])[..|before|] == before;
  }

  lemma NoTotals(belongs: Row -> bool)
    ensures Totals(Sum([]), [], belongs)
  {
  }

  lemma {:induction false} OfDayTotals(rows: seq<Row>, date: string, belongs: Row -> bool)
    requires forall r :: belongs(r) <==> r.date == date
    ensures Totals(Sum(OfDay(rows, date)), rows, belongs)
  {
    hide Totals, Sum, Plus;
    if rows == [] {
      NoTotals(belongs);
    } else {
      var before, r := rows[..|rows| - 1], rows[|rows| - 1];
      hide OfDay;
      OfDayTotals(before, date, belongs);
      OfDayMore(before, r, date);
      AddOneRow(ByProtocol, OfDay(before, date), r);
      TotalsOneMore(Sum(OfDay(before, date)), before, r, belongs);
      assert rows == before + [r];
    }
  }

  lemma {:induction false} OfKeyTotals(split: Split, rows: seq<Row>, date: string, k: string, belongs: Row -> bool)
    requires forall r :: belongs(r) <==> r.date == date && Key(split, r) == k
    ensures Totals(Sum(OfKey(split, OfDay(rows, date), k)), rows, belongs)
  {
    hide Key, Totals, Sum, Plus;
    if rows == [] {
      NoTotals(belongs);
      assert OfKey(split, OfDay(rows, date), k) == [];
    } else {
      hide OfKey, OfDay;
      var before, r := rows[..|rows| - 1], rows[|rows| - 1];
      OfKeyTotals(split, before, date, k, belongs);
      assert rows == before + [r];
      OfDayMore(before, r, date);
      OfOneMore(split, OfDay(before, date), r, k);
      AddOneRow(split, OfKey(split, OfDay(before, date), k), r);
      TotalsOneMore(Sum(OfKey(split, OfDay(before, date), k)), before, r, belongs);
    }
  }

  lemma {:induction false} OfKeyMember(split: Split, rows: seq<Row>, k: string, r: Row)
    ensures r in OfKey(split, rows, k) <==> r in rows && Key(split, r) == k
  {
    if rows != [] {
      hide Key;
      var before, last := rows[..|rows| - 1], rows[|rows| - 1];
      OfKeyMember(split, before, k, r);
      assert rows == before + [last];
      assert r in rows <==> r in before || r == last;
    }
  }

  lemma {:induction false} OfDayMember(rows: seq<Row>, date: string, r: Row)
    ensures r in OfDay(rows, date) <==> r in rows && r.date == date
  {
    if rows != [] {
      var before, last := rows[..|rows| - 1], rows[|rows| - 1];
      OfDayMember(before, date, r);
      assert rows == before + [last];
      assert r in rows <==> r in before || r == last;
    }
  }

  /** The collateral asset of a row: what the protocol's asset list has under its address, else the address itself. */
  function AssetOf(assets: Assets, r: Row): LiqAssetInfo {
    var key := r.protocol + "|0x" + r.coll;
    if key in assets then assets[key] else LiqAssetInfo("0x" + r.coll, "")
  }

  lemma KeyIs(assets: Assets, r: Row)
    ensures Key(ByProtocol, r) == r.protocol && Key(ByCollateral(assets), r) == AssetOf(assets, r).asset
    ensures NewEntry(ByProtocol, r) == LiqTotals(ZERO, r.protocol, "", "")
    ensures NewEntry(ByCollateral(assets), r) == LiqTotals(ZERO, "", AssetOf(assets, r).asset, AssetOf(assets, r).symbol)
  {
    assert r.protocol + "|0x" + r.coll == r.protocol + "|" + ("0x" + r.coll);
  }

  /** The two splits of a day over the input rows: an entry for every protocol of the day, and one for every
      collateral asset, with the sums of the rows that have it, field by field, and the asset's symbol as one of
      these rows finds it. */
  ghost predicate SplitsAre(d: LiqDay, rows: seq<Row>, assets: Assets) {
    && (forall e :: e in d.byProtocol ==>
          && Totals(e.sums, rows, (r: Row) => r.date == d.date && r.protocol == e.protocolID)
          && exists r :: r in rows && r.date == d.date && r.protocol == e.protocolID)
    && (forall e :: e in d.byCollateral ==>
          && Totals(e.sums, rows, (r: Row) => r.date == d.date && AssetOf(assets, r).asset == e.asset)
          && exists r :: r in rows && r.date == d.date && AssetOf(assets, r) == LiqAssetInfo(e.asset, e.symbol))
    && (forall r :: r in rows && r.date == d.date ==>
          && (exists e :: e in d.byProtocol && e.protocolID == r.protocol)
          && (exists e :: e in d.byCollateral && e.asset == AssetOf(assets, r).asset))
  }

  lemma SplitIs(split: Split, es: seq<LiqTotals>, rows: seq<Row>, date: string, e: LiqTotals, belongs: Row -> bool)
      returns (first: Row)
    requires IsSplit(split, es, OfDay(rows, date)) && e in es
    requires forall r :: belongs(r) <==> r.date == date && Key(split, r) == EntryKey(split, e)
    ensures Totals(e.sums, rows, belongs)
    ensures first in rows && first.date == date && Key(split, first) == EntryKey(split, e)
    ensures e == NewEntry(split, first).(sums := e.sums)
  {
    hide Key, EntryKey, NewEntry, Totals, OfDay, Sum;
    var own := OfKey(split, OfDay(rows, date), EntryKey(split, e));
    var i :| 0 <= i < |es| && es[i] == e;
    OfKeyTotals(split, rows, date, EntryKey(split, e), belongs);
    first := own[0];
    OfKeyMember(split, OfDay(rows, date), EntryKey(split, e), first);
    OfDayMember(rows, date, first);
  }

  lemma SplitHas(split: Split, es: seq<LiqTotals>, rows: seq<Row>, date: string, r: Row)
    requires IsSplit(split, es, OfDay(rows, date)) && r in rows && r.date == date
    ensures exists e :: e in es && EntryKey(split, e) == Key(split, r)
  {
    hide Key, EntryKey, NewEntry, OfDay, Sum;
    OfDayMember(rows, date, r);
    OfKeyMember(split, OfDay(rows, date), Key(split, r), r);
    assert OfKey(split, OfDay(rows, date), Key(split, r)) != [];
    var i :| 0 <= i < |es| && EntryKey(split, es[i]) == Key(split, r);
    assert es[i] in es;
  }

  lemma SplitsOfDay(d: LiqDay, rows: seq<Row>, assets: Assets)
    requires DayAddsUp(d, OfDay(rows, d.date), assets)
    ensures SplitsAre(d, rows, assets)
  {
    hide OfDay, Sum, SumEntries, Key, NewEntry, Totals, AssetOf, IsSplit, Lex.StringLess;
    forall r ensures Key(ByProtocol, r) == r.protocol && Key(ByCollateral(assets), r) == AssetOf(assets, r).asset {
      KeyIs(assets, r);
    }
    forall e | e in d.byProtocol
      ensures Totals(e.sums, rows, (r: Row) => r.date == d.date && r.protocol == e.protocolID)
      ensures exists r :: r in rows && r.date == d.date && r.protocol == e.protocolID
    {
      var first := SplitIs(ByProtocol, d.byProtocol, rows, d.date, e,
                           (r: Row) => r.date == d.date && r.protocol == e.protocolID);
    }
    forall e | e in d.byCollateral
      ensures Totals(e.sums, rows, (r: Row) => r.date == d.date && AssetOf(assets, r).asset == e.asset)
      ensures exists r :: r in rows && r.date == d.date && AssetOf(assets, r) == LiqAssetInfo(e.asset, e.symbol)
    {
      var first := SplitIs(ByCollateral(assets), d.byCollateral, rows, d.date, e,
                           (r: Row) => r.date == d.date && AssetOf(assets, r).asset == e.asset);
      KeyIs(assets, first);
    }
    forall r | r in rows && r.date == d.date
      ensures exists e :: e in d.byProtocol && e.protocolID == r.protocol
      ensures exists e :: e in d.byCollateral && e.asset == AssetOf(assets, r).asset
    {
      SplitHas(ByProtocol, d.byProtocol, rows, d.date, r);
      SplitHas(ByCollateral(assets), d.byCollateral, rows, d.date, r);
    }
  }

  /** For rows ordered by day: the days come out in increasing order, each day with rows once. A day's totals are
      the sums of that day's rows field by field, the entries of its two splits are those of the day's protocols and
      collateral assets, each once, and both splits add up to the totals and are sorted, by protocol and by seized
      amount. */
  lemma DailyTotals(out: seq<LiqDay>, rows: seq<Row>, assets: Assets)
    requires DaysOf(out, rows, assets) && Ordered(rows)
    ensures forall i, j :: 0 <= i < j < |out| ==> Lex.StringLess(out[i].date, out[j].date)
    ensures forall r :: r in rows ==> exists i :: 0 <= i < |out| && out[i].date == r.date
    ensures forall i :: 0 <= i < |out| ==>
              && (exists r :: r in rows && r.date == out[i].date)
              && Totals(out[i].totals, rows, (r: Row) => r.date == out[i].date)
              && SplitsAre(out[i], rows, assets)
              && DayAddsUp(out[i], OfDay(rows, out[i].date), assets)
  {
    DaysAddUp(out, rows, assets);
    forall i | 0 <= i < |out|
      ensures Totals(out[i].totals, rows, (r: Row) => r.date == out[i].date) && SplitsAre(out[i], rows, assets)
    {
      SplitsOfDay(out[i], rows, assets);
      OfDayTotals(rows, out[i].date, (r: Row) => r.date == out[i].date);
    }
    hide DayAddsUp, SplitsAre, DaysOf, Ordered, Totals, Lex.StringLess, OfDay;
    forall r | r in rows ensures exists i :: 0 <= i < |out| && out[i].date == r.date {
      OfDayMember(rows, r.date, r);
    }
    forall i | 0 <= i < |out| ensures exists r :: r in rows && r.date == out[i].date {
      RowOfDay(rows, out[i].date);
    }
  }

  lemma RowOfDay(rows: seq<Row>, date: string)
    requires OfDay(rows, date) != []
    ensures exists r :: r in rows && r.date == date
  {
    OfDayMember(rows, date, OfDay(rows, date)[0]);
  }

  lemma DaysAddUp(out: seq<LiqDay>, rows: seq<Row>, assets: Assets)
    requires DaysOf(out, rows, assets) && Ordered(rows)
    ensures forall i, j :: 0 <= i < j < |out| ==> Lex.StringLess(out[i].date, out[j].date)
    ensures forall d :: OfDay(rows, d) != [] <==> exists i :: 0 <= i < |out| && out[i].date == d
    ensures forall i :: 0 <= i < |out| ==> DayAddsUp(out[i], OfDay(rows, out[i].date), assets)
  {
    OrderedRuns(rows);
    var rs: seq<seq<Row>> := Runs(rows);
    forall i | 0 <= i < |out|
      ensures out[i].date == rs[i][0].date && DayAddsUp(out[i], OfDay(rows, out[i].date), assets)
    {
      DaySums(out[i], rs[i], assets);
    }
    hide DayAddsUp, Runs, Lex.StringLess;
    forall d | OfDay(rows, d) != [] ensures exists i :: 0 <= i < |out| && out[i].date == d {
      assert HasRun(rs, d);
      var i :| 0 <= i < |rs| && rs[i] != [] && rs[i][0].date == d;
      assert out[i].date == d;
    }
  }

  ghost predicate DayAddsUp(d: LiqDay, rows: seq<Row>, assets: Assets) {
    && d.totals == Sum(rows) == SumEntries(d.byProtocol) == SumEntries(d.byCollateral)
    && IsSplit(ByProtocol, d.byProtocol, rows) && IsSplit(ByCollateral(assets), d.byCollateral, rows)
    && (forall i, j :: 0 <= i < j < |d.byProtocol| ==>
          Lex.StringLess(d.byProtocol[i].protocolID, d.byProtocol[j].protocolID))
    && (forall i, j :: 0 <= i < j < |d.byCollateral| ==>
          d.byCollateral[i].sums.seized >= d.byCollateral[j].sums.seized)
  }

  lemma DaySums(d: LiqDay, rows: seq<Row>, assets: Assets)
    requires DayOf(d, rows, assets)
    ensures d.date == rows[0].date && DayAddsUp(d, rows, assets)
  {
    var p, c := d.byProtocol, d.byCollateral;
    hide Lex.StringLess, Sum, Group, Lists, SumEntries;
    ListsIsSplit(ByProtocol, p, rows);
    ListsIsSplit(ByCollateral(assets), c, rows);
    SplitConserves(ByProtocol, p, rows);
    SplitConserves(ByCollateral(assets), c, rows);
    hide OfKey, NewEntry, HasKey;
    forall i, j | 0 <= i < j < |p| ensures Lex.StringLess(p[i].protocolID, p[j].protocolID) {
      assert ById()(p[i], p[j]);
      assert EntryKey(ByProtocol, p[i]) != EntryKey(ByProtocol, p[j]);
      Lex.StringTrichotomy(p[i].protocolID, p[j].protocolID);
    }
    forall i, j | 0 <= i < j < |c| ensures c[i].sums.seized >= c[j].sums.seized {
      assert BySeized()(c[i], c[j]);
    }
  }

  function SumDays(out: seq<LiqDay>): Sums {
    if out == [] then ZERO else Plus(SumDays(out[..|out| - 1]), out[|out| - 1].totals)
  }

  /** Over all days nothing is lost either, whether the rows come in order or not. */
  lemma AllDaysConserve(out: seq<LiqDay>, rows: seq<Row>, assets: Assets)
    requires DaysOf(out, rows, assets)
    ensures SumDays(out) == Sum(rows)
  {
    hide DayOf, Plus, Sum, Runs, SumRuns;
    assert forall i :: 0 <= i < |out| ==> out[i].totals == Sum(Runs(rows)[i]) by { TotalsOfRuns(out, rows, assets); }
    DaysAreRuns(out, Runs(rows));
    RunsConserve(rows);
  }

  lemma TotalsOfRuns(out: seq<LiqDay>, rows: seq<Row>, assets: Assets)
    requires DaysOf(out, rows, assets)
    ensures forall i :: 0 <= i < |out| ==> out[i].totals == Sum(Runs(rows)[i])
  {
    hide Sum, Runs, Lists, ById, BySeized, Group;
  }

  function SumRuns(rs: seq<seq<Row>>): Sums {
    if rs == [] then ZERO else Plus(SumRuns(rs[..|rs| - 1]), Sum(rs[|rs| - 1]))
  }

  lemma {:induction false} DaysAreRuns(out: seq<LiqDay>, rs: seq<seq<Row>>)
    requires |out| == |rs| && forall i :: 0 <= i < |out| ==> out[i].totals == Sum(rs[i])
    ensures SumDays(out) == SumRuns(rs)
  {
    hide Plus, Sum;
    if out != [] { DaysAreRuns(out[..|out| - 1], rs[..|rs| - 1]); }
  }

  lemma LastRun(before: seq<seq<Row>>, run: seq<Row>)
    ensures SumRuns(before + [run]) == Plus(SumRuns(before), Sum(run))
  {
    hide Plus, Sum;
    assert (before + [run])[..|before|] == before;
  }

  lemma {:induction false} RunsConserve(rows: seq<Row>)
    ensures SumRuns(Runs(rows)) == Sum(rows)
  {
    if rows == [] {
      EmptySums();
    } else {
      var before, r := rows[..|rows| - 1], rows[|rows| - 1];
      RunsConserve(before);
      var rs: seq<seq<Row>> := Runs(before);
      EmptySums();
      PlusZero();
      AddOneRow(ByProtocol, [], r);
      assert [] + [r] == [r];
      assert Sum(rows) == Plus(Sum(before), r.sums);
      hide Plus, Sum, SumRuns;
      if rs != [] && rs[|rs| - 1][0].date == r.date {
        var first, last := rs[..|rs| - 1], rs[|rs| - 1];
        assert rs == first + [last];
        LastRun(first, last);
        LastRun(first, last + [r]);
        AddOneRow(ByProtocol, last, r);
        PlusMoves(SumRuns(first), Sum(last), r.sums);
      } else {
        LastRun(rs, [r]);
      }
    }
  }
}
