/** pkg/api/websocket.go: the block feed of one chain. The poller reads the head, reads the last block seen,
    fetches what is ready in between, broadcasts it and writes the new last block; the hub may forget the last
    block between any two of these steps, and the indexer may add blocks. */
module BlockFeed {
  import opened Base

  /** One row of blockBurnSelect, as far as readiness goes. */
  datatype BlockRow = BlockRow(number: uint32, txCount: uint32, seenTxRows: uint64)

  /** What the query delivers: the rows in ascending order, None for a row that does not scan, and whether
      rows.Err reports a failure afterwards. */
  datatype Stream = Stream(rows: seq<Option<BlockRow>>, err: bool)

  predicate Ready(b: BlockRow) {
    b.txCount == b.seenTxRows
  }

  /** The rows before the first one that does not scan or is not ready. */
  function ReadyPrefix(rows: seq<Option<BlockRow>>): (blocks: seq<BlockRow>)
    ensures |blocks| <= |rows|
  {
    if rows == [] || rows[0].None? || !Ready(rows[0].value) then []
    else [rows[0].value] + ReadyPrefix(rows[1..])
  }

  /** The highest block read, from - 1 when there is none. */
  function HighestReady(from: uint64, blocks: seq<BlockRow>): uint64 {
    if blocks != [] then blocks[|blocks| - 1].number else if from > 0 then from - 1 else 0
  }

  datatype Fetch = Fetch(blocks: seq<BlockRow>, highestReady: uint64)

  function FetchResult(from: uint64, stream: Stream): Fetch {
    var blocks := ReadyPrefix(stream.rows);
    Fetch(if stream.err then [] else blocks, HighestReady(from, blocks))
  }

  /** What a fetch of these rows has to deliver: the longest run from the first row on in which every row scans and
      has all of its transactions in raw_txs, dropped when the stream fails, and the number of the run's last block. */
  ghost predicate Fetched(rows: seq<Option<BlockRow>>, err: bool, from: uint64, blocks: seq<BlockRow>, highestReady: uint64) {
    exists n: nat ::
      && LongestRun(rows, n)
      && |blocks| == (if err then 0 else n)
      && (forall i :: 0 <= i < |blocks| ==> blocks[i] == rows[i].value)
      && highestReady == (if n > 0 then rows[n - 1].value.number else if from > 0 then from - 1 else 0)
  }

  /** A poll that fetches from block `from` on sends what was fetched and moves on past it, never back. */
  ghost predicate Advanced(rows: seq<Option<BlockRow>>, err: bool, from: uint64, sent: seq<BlockRow>, now: uint64) {
    exists highest: uint64 ::
      Fetched(rows, err, from, sent, highest) && now == if highest >= from then highest else from - 1
  }

  ghost predicate LongestRun(rows: seq<Option<BlockRow>>, n: nat) {
    && n <= |rows|
    && (forall i :: 0 <= i < n ==> rows[i].Some? && rows[i].value.txCount == rows[i].value.seenTxRows)
    && (n < |rows| ==> rows[n].None? || rows[n].value.txCount != rows[n].value.seenTxRows)
  }

  lemma {:induction false} PrefixIsLongestRun(rows: seq<Option<BlockRow>>)
    ensures var blocks := ReadyPrefix(rows);
            LongestRun(rows, |blocks|) && forall i :: 0 <= i < |blocks| ==> rows[i] == Some(blocks[i])
  {
    if rows != [] && rows[0].Some? && rows[0].value.txCount == rows[0].value.seenTxRows {
      var rest := rows[1..];
      PrefixIsLongestRun(rest);
      assert forall i :: 0 <= i < |rest| ==> rest[i] == rows[i + 1];
    }
  }

  lemma FetchIs(from: uint64, stream: Stream)
    ensures Fetched(stream.rows, stream.err, from, FetchResult(from, stream).blocks, FetchResult(from, stream).highestReady)
  {
    PrefixIsLongestRun(stream.rows);
    hide ReadyPrefix;
    assert LongestRun(stream.rows, |ReadyPrefix(stream.rows)|);
  }

  /** fetchBlocksWithBurn: `queryFailed` is an error of the query itself. */
  method FetchBlocksWithBurn(from: uint64, queryFailed: bool, stream: Stream)
    returns (blocks: seq<BlockRow>, highestReady: uint64)
    ensures Fetch(blocks, highestReady) == FetchResult(from, if queryFailed then Stream([], true) else stream)
    ensures Fetched(if queryFailed then [] else stream.rows, queryFailed || stream.err, from, blocks, highestReady)
  {
    hide ReadyPrefix, Ready, HighestReady, Fetched;
    ghost var answer := if queryFailed then Stream([], true) else stream;
    FetchIs(from, answer);
    assert answer.rows == (if queryFailed then [] else stream.rows) && answer.err == (queryFailed || stream.err);
    NothingRead(from);
    highestReady := 0;
    if from > 0 { highestReady := from - 1; }
    if queryFailed { return [], highestReady; }
    var rows := stream.rows;
    blocks := [];
    var i := 0;
    assert rows[0..] == rows;
    while i < |rows|
      invariant 0 <= i <= |rows|
      invariant ReadyPrefix(rows) == blocks + ReadyPrefix(rows[i..])
      invariant highestReady == HighestReady(from, blocks)
    {
      PrefixFrom(rows, i);
      var row := rows[i];
      if row.None? || !Ready(row.value) {
        break;
      }
      OneMoreBlock(from, blocks, row.value, ReadyPrefix(rows[i + 1..]));
      blocks := blocks + [row.value];
      highestReady := row.value.number;
      i := i + 1;
    }
    PrefixFrom(rows, i);
    assert blocks + [] == blocks;
    if stream.err { return [], highestReady; }
  }

  lemma NothingRead(from: uint64)
    ensures ReadyPrefix([]) == [] && HighestReady(from, []) == if from > 0 then from - 1 else 0
  {
  }

  lemma OneMoreBlock(from: uint64, blocks: seq<BlockRow>, b: BlockRow, rest: seq<BlockRow>)
    ensures HighestReady(from, blocks + [b]) == b.number
    ensures blocks + ([b] + rest) == (blocks + [b]) + rest
  {
  }

  lemma PrefixFrom(rows: seq<Option<BlockRow>>, i: nat)
    requires i <= |rows|
    ensures ReadyPrefix(rows[i..])
            == if i == |rows| || rows[i].None? || !Ready(rows[i].value) then []
               else [rows[i].value] + ReadyPrefix(rows[i + 1..])
  {
    if i < |rows| { assert rows[i..][1..] == rows[i + 1..]; }
  }

  // ---- The protocol ----

  /** What the feed did: took the head as its starting point, or broadcast a block. */
  datatype Event = Started(number: uint64) | Sent(block: BlockRow)

  function Number(e: Event): uint64 {
    match e
    case Started(n) => n
    case Sent(b) => b.number
  }

  /** Where the poller is in its round for the chain. */
  datatype Poller =
    | Idle
    | GotHead(latest: uint32)
    | GotLast(latest: uint32, lastSeen: uint64)
    | Sending(blocks: seq<BlockRow>, highestReady: uint64, lastSeen: uint64)
    | Writing(highestReady: uint64, lastSeen: uint64)

  datatype State = State(
    head: uint32,          // max(block_number) in raw_blocks
    last: uint64,          // h.lastBlock[chain], 0 when absent
    poller: Poller,
    log: seq<Event>)

  datatype Step =
    | Grow(head: uint32)          // the indexer adds blocks
    | Forget                      // the hub's last client of the chain leaves
    | ReadHead
    | ReadLast
    | Decide(stream: Stream)      // start, skip, or fetch; the stream is what a fetch delivers
    | Broadcast
    | WriteLast

  function Sends(blocks: seq<BlockRow>): (r: seq<Event>)
    ensures |r| == |blocks| && forall i :: 0 <= i < |r| ==> r[i] == Sent(blocks[i])
  {
    seq(|blocks|, i requires 0 <= i < |blocks| => Sent(blocks[i]))
  }

  predicate Enabled(s: State, a: Step) {
    match a
    case Grow(h) => h >= s.head
    case Forget => true
    case ReadHead => s.poller.Idle?
    case ReadLast => s.poller.GotHead?
    case Decide(_) => s.poller.GotLast? && s.poller.lastSeen < 0xFFFF_FFFF_FFFF_FFFF
    case Broadcast => s.poller.Sending?
    case WriteLast => s.poller.Writing?
  }

  function Next(s: State, a: Step): State
    requires Enabled(s, a)
  {
    match a
    case Grow(h) => s.(head := h)
    case Forget => s.(last := 0)
    case ReadHead => s.(poller := GotHead(s.head))
    case ReadLast => s.(poller := GotLast(s.poller.latest, s.last))
    case Decide(stream) =>
      var latest, lastSeen := s.poller.latest, s.poller.lastSeen;
      if lastSeen == 0 then s.(last := latest, poller := Idle, log := s.log + [Started(latest)])
      else if latest > lastSeen then
        var f := FetchResult(lastSeen + 1, stream);
        s.(poller := Sending(f.blocks, f.highestReady, lastSeen))
      else s.(poller := Idle)
    case Broadcast => s.(poller := Writing(s.poller.highestReady, s.poller.lastSeen), log := s.log + Sends(s.poller.blocks))
    case WriteLast =>
      s.(poller := Idle, last := if s.poller.highestReady > s.poller.lastSeen then s.poller.highestReady else s.last)
  }

  const INITIAL := State(0, 0, Idle, [])

  /** The query of [from, to]: rows in ascending order. */
  ghost predicate Ascending(rows: seq<Option<BlockRow>>, from: uint64, to: uint64) {
    && (forall i :: 0 <= i < |rows| && rows[i].Some? ==> from <= rows[i].value.number <= to)
    && (forall i, j :: 0 <= i < j < |rows| && rows[i].Some? && rows[j].Some? ==>
          rows[i].value.number < rows[j].value.number)
  }

  /** Over a dense table: consecutive rows from the first on, none past the end. */
  ghost predicate Dense(rows: seq<Option<BlockRow>>, from: uint64, to: uint64) {
    && from + |rows| <= to + 1
    && forall i :: 0 <= i < |rows| && rows[i].Some? ==> rows[i].value.number == from + i
  }

  /** The stream ended without rows.Err, or had delivered nothing ready before it failed. */
  predicate Clean(stream: Stream) {
    stream.err ==> ReadyPrefix(stream.rows) == []
  }

  ghost predicate Follows(blocks: seq<BlockRow>, from: int) {
    forall i :: 0 <= i < |blocks| ==> blocks[i].number == from + i
  }

  /** The fetch loses nothing: its ready rows are consecutive from the first block asked for, and are delivered. */
  ghost predicate Gapless(stream: Stream, from: uint64) {
    Clean(stream) && Follows(ReadyPrefix(stream.rows), from)
  }

  predicate Fetches(s: State, a: Step) {
    a.Decide? && s.poller.GotLast? && s.poller.lastSeen != 0 && s.poller.latest > s.poller.lastSeen
  }

  ghost predicate StepOk(s: State, a: Step) {
    && Enabled(s, a)
    && (Fetches(s, a) ==> Ascending(a.stream.rows, s.poller.lastSeen + 1, s.poller.latest))
  }

  ghost predicate StepGapless(s: State, a: Step) {
    Fetches(s, a) && s.poller.lastSeen < 0xFFFF_FFFF_FFFF_FFFF ==> Gapless(a.stream, s.poller.lastSeen + 1)
  }

  ghost predicate IsRun(states: seq<State>, steps: seq<Step>) {
    && |states| == |steps| + 1
    && states[0] == INITIAL
    && forall i :: 0 <= i < |steps| ==> StepOk(states[i], steps[i]) && states[i + 1] == Next(states[i], steps[i])
  }

  ghost predicate AllGapless(states: seq<State>, steps: seq<Step>)
    requires |states| == |steps| + 1
  {
    forall i :: 0 <= i < |steps| ==> StepGapless(states[i], steps[i])
  }

  // ---- Fetching ----

  lemma {:induction false} PrefixAt(rows: seq<Option<BlockRow>>)
    ensures var blocks := ReadyPrefix(rows);
            forall i :: 0 <= i < |blocks| ==> rows[i] == Some(blocks[i]) && blocks[i].txCount == blocks[i].seenTxRows
  {
    if rows != [] && rows[0].Some? && Ready(rows[0].value) { PrefixAt(rows[1..]); }
  }

  lemma PrefixOfAscending(rows: seq<Option<BlockRow>>, from: uint64, to: uint64)
    requires Ascending(rows, from, to) && from >= 1
    ensures var blocks := ReadyPrefix(rows);
            && (forall i :: 0 <= i < |blocks| ==> from <= blocks[i].number <= to && blocks[i].txCount == blocks[i].seenTxRows)
            && (forall i, j :: 0 <= i < j < |blocks| ==> blocks[i].number < blocks[j].number)
            && from - 1 <= HighestReady(from, blocks)
            && (from - 1 <= to ==> HighestReady(from, blocks) <= to)
            && (blocks != [] ==> HighestReady(from, blocks) == blocks[|blocks| - 1].number >= from)
  {
    hide Ready;
    PrefixAt(rows);
  }

  lemma {:induction false} PrefixOfDense(rows: seq<Option<BlockRow>>, from: uint64, to: uint64)
    requires Dense(rows, from, to) && from >= 1
    ensures var blocks := ReadyPrefix(rows);
            && (forall i :: 0 <= i < |blocks| ==> blocks[i].number == from + i && blocks[i].txCount == blocks[i].seenTxRows)
            && HighestReady(from, blocks) == from + |blocks| - 1
  {
    if rows != [] && rows[0].Some? && Ready(rows[0].value) && from < 0xFFFF_FFFF_FFFF_FFFF {
      var rest := rows[1..];
      forall i | 0 <= i < |rest| && rest[i].Some? ensures rest[i].value.number == from + 1 + i {
        assert rest[i] == rows[i + 1];
      }
      PrefixOfDense(rest, from + 1, to);
    }
  }

  /** A fetch over a dense table leaves no gap behind it, that is highestReady is the last block returned, if
      and only if the stream was clean: when rows.Err follows ready rows, they are dropped but counted. */
  lemma NoGapIffClean(from: uint64, to: uint64, stream: Stream)
    requires from >= 1 && Dense(stream.rows, from, to)
    ensures var f := FetchResult(from, stream);
            (f.highestReady == from + |f.blocks| - 1) <==> Clean(stream)
  {
    PrefixOfDense(stream.rows, from, to);
  }

  // ---- The invariant ----

  /** The number of the last event. */
  function LastNumber(log: seq<Event>): uint64 {
    if log == [] then 0 else Number(log[|log| - 1])
  }

  /** Consecutive: a broadcast follows its predecessor's number, a new start does not go back, and every block
      that was sent was ready. */
  ghost predicate LogOk(log: seq<Event>) {
    forall i :: 0 <= i < |log| ==> EventOk(log, i)
  }

  ghost predicate EventOk(log: seq<Event>, i: nat)
    requires i < |log|
  {
    && (log[i].Sent? ==> i > 0 && Number(log[i]) == Number(log[i - 1]) + 1 && log[i].block.txCount == log[i].block.seenTxRows)
    && (log[i].Started? && i > 0 ==> Number(log[i]) >= Number(log[i - 1]))
  }

  lemma Longer(log: seq<Event>, more: seq<Event>, i: nat)
    requires i < |log| && EventOk(log, i)
    ensures EventOk(log + more, i)
  {
    assert (log + more)[i] == log[i] && (i > 0 ==> (log + more)[i - 1] == log[i - 1]);
  }

  ghost predicate PollerOk(s: State) {
    var n := LastNumber(s.log);
    match s.poller
    case Idle => true
    case GotHead(latest) => n <= latest <= s.head
    case GotLast(latest, lastSeen) => n <= latest <= s.head && (lastSeen == 0 || (lastSeen == n && s.log != []))
    case Sending(blocks, highestReady, lastSeen) =>
      && s.log != [] && lastSeen == n && highestReady == n + |blocks| <= s.head
      && forall i :: 0 <= i < |blocks| ==> blocks[i].number == n + 1 + i && blocks[i].txCount == blocks[i].seenTxRows
    case Writing(highestReady, lastSeen) => s.log != [] && highestReady == n && lastSeen <= n
  }

  ghost predicate Inv(s: State) {
    && LogOk(s.log)
    && LastNumber(s.log) <= s.head
    && (s.last != 0 ==> s.log != [] && (s.last == LastNumber(s.log) || (s.poller.Writing? && s.last == s.poller.lastSeen)))
    && PollerOk(s)
  }

  lemma LogSends(log: seq<Event>, blocks: seq<BlockRow>)
    requires LogOk(log) && log != []
    requires forall i :: 0 <= i < |blocks| ==> blocks[i].number == LastNumber(log) + 1 + i && blocks[i].txCount == blocks[i].seenTxRows
    ensures LogOk(log + Sends(blocks)) && LastNumber(log + Sends(blocks)) == LastNumber(log) + |blocks|
  {
    hide Ready;
    var all := log + Sends(blocks);
    forall i: nat | i < |all| ensures EventOk(all, i) {
      if i < |log| {
        Longer(log, Sends(blocks), i);
      } else {
        assert all[i] == Sent(blocks[i - |log|]);
        if i > |log| { assert all[i - 1] == Sent(blocks[i - 1 - |log|]); }
      }
    }
  }

  lemma LogStarts(log: seq<Event>, latest: uint64)
    requires LogOk(log) && LastNumber(log) <= latest
    ensures LogOk(log + [Started(latest)]) && LastNumber(log + [Started(latest)]) == latest
  {
    hide Ready;
    var log' := log + [Started(latest)];
    forall i: nat | i < |log'| ensures EventOk(log', i) {
      if i < |log| { Longer(log, [Started(latest)], i); }
    }
  }

  lemma DecideInv(s: State, stream: Stream)
    requires Inv(s) && StepOk(s, Decide(stream))
    ensures Inv(Next(s, Decide(stream))) <==> StepGapless(s, Decide(stream))
  {
    var latest, lastSeen := s.poller.latest, s.poller.lastSeen;
    if lastSeen == 0 {
      hide Ready, LogOk;
      LogStarts(s.log, latest);
    } else if latest > lastSeen {
      PrefixOfAscending(stream.rows, lastSeen + 1, latest);
      hide ReadyPrefix, LogOk, Ready;
    }
  }

  lemma BroadcastInv(s: State)
    requires Inv(s) && s.poller.Sending?
    ensures Inv(Next(s, Broadcast))
  {
    LogSends(s.log, s.poller.blocks);
    hide LogOk;
  }

  /** A step keeps the invariant if and only if it is not a fetch that loses something. */
  lemma NextInv(s: State, a: Step)
    requires Inv(s) && StepOk(s, a)
    ensures Inv(Next(s, a)) <==> StepGapless(s, a)
  {
    match a
    case Decide(stream) => DecideInv(s, stream);
    case Broadcast => BroadcastInv(s);
    case _ => hide LogOk;
  }

  lemma {:induction false} RunInv(states: seq<State>, steps: seq<Step>, i: nat)
    requires IsRun(states, steps) && AllGapless(states, steps) && i < |states|
    ensures Inv(states[i])
  {
    hide Inv, Next, StepOk, StepGapless;
    if i == 0 {
      assert Inv(INITIAL) by { InitialInv(); }
    } else {
      RunInv(states, steps, i - 1);
      NextInv(states[i - 1], steps[i - 1]);
    }
  }

  /** Over a whole run the last block stays in step with the broadcasts if and only if every fetch is gapless. */
  lemma RunInvIff(states: seq<State>, steps: seq<Step>)
    requires IsRun(states, steps)
    ensures (forall i :: 0 <= i < |states| ==> Inv(states[i])) <==> AllGapless(states, steps)
  {
    hide Inv, Next, StepOk, StepGapless;
    if AllGapless(states, steps) {
      forall i | 0 <= i < |states| ensures Inv(states[i]) { RunInv(states, steps, i); }
    }
    if forall i :: 0 <= i < |states| ==> Inv(states[i]) {
      forall i | 0 <= i < |steps| ensures StepGapless(states[i], steps[i]) {
        NextInv(states[i], steps[i]);
        assert Inv(states[i + 1]);
      }
    }
  }

  /** What a fetch that does not end cleanly loses: nothing is broadcast, and the last block moves past the ready
      blocks that were read. */
  lemma UncleanFetchSkips(s: State, stream: Stream)
    requires Inv(s) && StepOk(s, Decide(stream)) && Fetches(s, Decide(stream)) && !Clean(stream)
    ensures var s1 := Next(s, Decide(stream));
            Enabled(s1, Broadcast) && var s2 := Next(s1, Broadcast);
            Enabled(s2, WriteLast) && var s3 := Next(s2, WriteLast);
            var read := ReadyPrefix(stream.rows);
            s3.log == s.log && read != [] && s3.last == read[|read| - 1].number > LastNumber(s.log)
  {
    PrefixOfAscending(stream.rows, s.poller.lastSeen + 1, s.poller.latest);
    assert s.log + Sends([]) == s.log;
    hide LogOk;
  }

  lemma InitialInv()
    ensures Inv(INITIAL)
  {
  }

  /** A fetch over a dense table is gapless exactly when its stream is clean. */
  lemma DenseIsGapless(stream: Stream, from: uint64, to: uint64)
    requires from >= 1 && Dense(stream.rows, from, to)
    ensures Ascending(stream.rows, from, to) && (Gapless(stream, from) <==> Clean(stream))
  {
    PrefixOfDense(stream.rows, from, to);
  }

  /** In every interleaving whose fetches are all gapless: each broadcast is the block right after the previous
      broadcast or start, with all of its transactions indexed, and a restart never goes back. */
  lemma FeedIsConsecutive(states: seq<State>, steps: seq<Step>, i: nat)
    requires IsRun(states, steps) && AllGapless(states, steps) && i < |states|
    ensures var log := states[i].log;
            && LogOk(log)
            && forall k :: 0 <= k < |log| && log[k].Sent? ==>
                 && log[k].block.txCount == log[k].block.seenTxRows && k > 0
                 && log[k].block.number == (if log[k - 1].Sent? then log[k - 1].block.number else log[k - 1].number) + 1
  {
    RunInv(states, steps, i);
    var log := states[i].log;
    forall k | 0 <= k < |log| && log[k].Sent?
      ensures log[k].block.txCount == log[k].block.seenTxRows && k > 0
      ensures log[k].block.number == (if log[k - 1].Sent? then log[k - 1].block.number else log[k - 1].number) + 1
    {
      assert EventOk(log, k);
    }
  }

  // ---- Whatever the fetches lose ----

  /** Every broadcast is a ready block with a higher number than what came before, and a start does not go back. */
  ghost predicate Rises(log: seq<Event>) {
    forall i :: 0 <= i < |log| ==> EventRises(log, i)
  }

  ghost predicate EventRises(log: seq<Event>, i: nat)
    requires i < |log|
  {
    && (log[i].Sent? ==>
          i > 0 && Number(log[i]) > Number(log[i - 1]) && log[i].block.txCount == log[i].block.seenTxRows)
    && (log[i].Started? && i > 0 ==> Number(log[i]) >= Number(log[i - 1]))
  }

  /** Ready blocks in ascending order, after `low` and up to `high`. */
  ghost predicate Climbs(blocks: seq<BlockRow>, low: uint64, high: uint64) {
    && (forall i :: 0 <= i < |blocks| ==> low < blocks[i].number <= high && blocks[i].txCount == blocks[i].seenTxRows)
    && (forall i, j :: 0 <= i < j < |blocks| ==> blocks[i].number < blocks[j].number)
  }

  ghost predicate PollerRises(s: State) {
    var n := LastNumber(s.log);
    match s.poller
    case Idle => true
    case GotHead(latest) => n <= latest <= s.head
    case GotLast(latest, lastSeen) =>
      && n <= latest <= s.head && (lastSeen == 0 || (n <= lastSeen && s.log != []))
      && (s.last == 0 || s.last == lastSeen)
    case Sending(blocks, highestReady, lastSeen) =>
      && (s.last == 0 || s.last == lastSeen)
      && s.log != [] && n <= lastSeen <= highestReady <= s.head && Climbs(blocks, lastSeen, highestReady)
    case Writing(highestReady, lastSeen) =>
      && (s.last == 0 || s.last == lastSeen)
      && s.log != [] && n <= highestReady <= s.head && lastSeen <= highestReady
  }

  ghost predicate RisingInv(s: State) {
    && Rises(s.log)
    && LastNumber(s.log) <= s.head
    && (s.last != 0 ==> s.log != [] && (LastNumber(s.log) <= s.last || s.poller.Writing?))
    && PollerRises(s)
  }

  lemma LongerRises(log: seq<Event>, more: seq<Event>, i: nat)
    requires i < |log| && EventRises(log, i)
    ensures EventRises(log + more, i)
  {
    assert (log + more)[i] == log[i] && (i > 0 ==> (log + more)[i - 1] == log[i - 1]);
  }

  lemma SendsRise(log: seq<Event>, blocks: seq<BlockRow>, low: uint64, high: uint64)
    requires Rises(log) && log != [] && LastNumber(log) <= low && Climbs(blocks, low, high)
    ensures Rises(log + Sends(blocks))
    ensures LastNumber(log + Sends(blocks)) == if blocks == [] then LastNumber(log) else blocks[|blocks| - 1].number
  {
    hide Ready;
    var all := log + Sends(blocks);
    forall i: nat | i < |all| ensures EventRises(all, i) {
      if i < |log| {
        LongerRises(log, Sends(blocks), i);
      } else {
        assert all[i] == Sent(blocks[i - |log|]);
        if i > |log| { assert all[i - 1] == Sent(blocks[i - 1 - |log|]); }
      }
    }
    if blocks == [] { assert all == log; }
  }

  lemma StartRises(log: seq<Event>, latest: uint64)
    requires Rises(log) && LastNumber(log) <= latest
    ensures Rises(log + [Started(latest)]) && LastNumber(log + [Started(latest)]) == latest
  {
    hide Ready;
    var log' := log + [Started(latest)];
    forall i: nat | i < |log'| ensures EventRises(log', i) {
      if i < |log| { LongerRises(log, [Started(latest)], i); }
    }
  }

  lemma DecideRises(s: State, stream: Stream)
    requires RisingInv(s) && StepOk(s, Decide(stream))
    ensures RisingInv(Next(s, Decide(stream)))
  {
    var latest, lastSeen := s.poller.latest, s.poller.lastSeen;
    if lastSeen == 0 {
      hide Ready, Rises;
      StartRises(s.log, latest);
    } else if latest > lastSeen {
      PrefixOfAscending(stream.rows, lastSeen + 1, latest);
      hide ReadyPrefix, Rises, Ready, Ascending;
    }
  }

  lemma NextRises(s: State, a: Step)
    requires RisingInv(s) && StepOk(s, a)
    ensures RisingInv(Next(s, a))
  {
    match a
    case Decide(stream) => DecideRises(s, stream);
    case Broadcast =>
      SendsRise(s.log, s.poller.blocks, s.poller.lastSeen, s.poller.highestReady);
      hide Rises;
    case _ => hide Rises;
  }

  lemma {:induction false} RunRises(states: seq<State>, steps: seq<Step>, i: nat)
    requires IsRun(states, steps) && i < |states|
    ensures RisingInv(states[i])
  {
    hide RisingInv, Next, StepOk;
    if i == 0 {
      assert RisingInv(INITIAL) by { InitialRises(); }
    } else {
      RunRises(states, steps, i - 1);
      NextRises(states[i - 1], steps[i - 1]);
    }
  }

  lemma InitialRises()
    ensures RisingInv(INITIAL)
  {
  }

  lemma {:induction false} NumbersGrow(log: seq<Event>, i: nat, j: nat)
    requires Rises(log) && i < j < |log|
    ensures Number(log[i]) <= Number(log[j])
    ensures log[j].Sent? ==> Number(log[i]) < Number(log[j])
  {
    assert EventRises(log, j);
    if i < j - 1 { NumbersGrow(log, i, j - 1); }
  }

  /** However the streams end, broadcast block numbers are strictly increasing over the whole run, restarts
      included, and only blocks whose transactions are all indexed are broadcast. */
  lemma BroadcastsIncrease(states: seq<State>, steps: seq<Step>, i: nat, j: nat, k: nat)
    requires IsRun(states, steps) && i < |states|
    requires j < k < |states[i].log| && states[i].log[j].Sent? && states[i].log[k].Sent?
    ensures states[i].log[j].block.number < states[i].log[k].block.number
    ensures forall m :: 0 <= m < |states[i].log| && states[i].log[m].Sent? ==>
              states[i].log[m].block.txCount == states[i].log[m].block.seenTxRows
  {
    RunRises(states, steps, i);
    NumbersGrow(states[i].log, j, k);
    forall m: nat | m < |states[i].log| && states[i].log[m].Sent?
      ensures states[i].log[m].block.txCount == states[i].log[m].block.seenTxRows
    {
      assert EventRises(states[i].log, m);
    }
  }

  // ---- When the log is consecutive ----

  /** A fetch that loses something. */
  ghost predicate Loses(s: State, a: Step) {
    Fetches(s, a) && s.poller.lastSeen < 0xFFFF_FFFF_FFFF_FFFF && !Gapless(a.stream, s.poller.lastSeen + 1)
  }

  predicate Restarts(s: State, a: Step) {
    a.Decide? && s.poller.GotLast? && s.poller.lastSeen == 0
  }

  predicate SendsSome(s: State, a: Step) {
    a.Broadcast? && s.poller.Sending? && s.poller.blocks != []
  }

  /** Before step k something has been lost since the last start. */
  ghost predicate Pending(states: seq<State>, steps: seq<Step>, k: nat)
    requires k <= |steps| < |states|
  {
    exists i :: 0 <= i < k && LostAt(states, steps, i, k)
  }

  ghost predicate LostAt(states: seq<State>, steps: seq<Step>, i: nat, k: nat)
    requires i < k <= |steps| < |states|
  {
    Loses(states[i], steps[i]) && forall m :: i < m < k ==> !Restarts(states[m], steps[m])
  }

  lemma PendingStep(states: seq<State>, steps: seq<Step>, k: nat)
    requires k < |steps| < |states|
    ensures Pending(states, steps, k + 1) <==>
            !Restarts(states[k], steps[k]) && (Loses(states[k], steps[k]) || Pending(states, steps, k))
  {
    hide Loses, Restarts;
    if !Restarts(states[k], steps[k]) && Pending(states, steps, k) {
      var i :| 0 <= i < k && LostAt(states, steps, i, k);
      assert LostAt(states, steps, i, k + 1);
    }
    if Loses(states[k], steps[k]) {
      assert LostAt(states, steps, k, k + 1);
      NotBoth(states[k], steps[k]);
    }
    if Pending(states, steps, k + 1) {
      var i :| 0 <= i < k + 1 && LostAt(states, steps, i, k + 1);
      if i < k { assert LostAt(states, steps, i, k); } else { NotBoth(states[k], steps[k]); }
    }
  }

  lemma NotBoth(s: State, a: Step)
    ensures !(Loses(s, a) && Restarts(s, a))
  {
  }

  /** Where the poller stands when something is pending: past the last broadcast or start. */
  ghost predicate Stands(s: State, pending: bool) {
    var n := LastNumber(s.log);
    match s.poller
    case Idle => s.last != 0 ==> (pending <==> s.last > n)
    case GotHead(_) => s.last != 0 ==> (pending <==> s.last > n)
    case GotLast(_, lastSeen) => lastSeen != 0 ==> (pending <==> lastSeen > n)
    case Sending(blocks, highestReady, _) =>
      if pending then highestReady > n && (blocks == [] || !Follows(blocks, n + 1))
      else highestReady == n + |blocks| && Follows(blocks, n + 1)
    case Writing(highestReady, _) => pending <==> highestReady > n
  }

  /** Sending blocks keeps the log consecutive if and only if they follow its last number. */
  lemma LogSendsIff(log: seq<Event>, blocks: seq<BlockRow>)
    requires LogOk(log) && log != [] && forall i :: 0 <= i < |blocks| ==> blocks[i].txCount == blocks[i].seenTxRows
    ensures LogOk(log + Sends(blocks)) <==> Follows(blocks, LastNumber(log) + 1)
  {
    if Follows(blocks, LastNumber(log) + 1) { LogSends(log, blocks); }
    if LogOk(log + Sends(blocks)) { SentFollow(log, blocks, |blocks|); }
  }

  lemma {:induction false} SentFollow(log: seq<Event>, blocks: seq<BlockRow>, k: nat)
    requires LogOk(log + Sends(blocks)) && log != [] && k <= |blocks|
    ensures Follows(blocks[..k], LastNumber(log) + 1)
    ensures k == |blocks| ==> Follows(blocks, LastNumber(log) + 1)
  {
    hide Ready;
    if k > 0 {
      SentFollow(log, blocks, k - 1);
      var all := log + Sends(blocks);
      var i := |log| + k - 1;
      assert EventOk(all, i) && all[i] == Sent(blocks[k - 1]);
      assert all[i - 1] == if k == 1 then log[|log| - 1] else Sent(blocks[k - 2]);
      if k > 1 { assert blocks[..k - 1][k - 2] == blocks[k - 2]; }
    }
    assert blocks[..|blocks|] == blocks;
  }

  lemma {:induction false} PrefixStaysOk(log: seq<Event>, more: seq<Event>)
    requires LogOk(log + more)
    ensures LogOk(log)
  {
    var all := log + more;
    forall i: nat | i < |log| ensures EventOk(log, i) {
      assert EventOk(all, i) && all[i] == log[i] && (i > 0 ==> all[i - 1] == log[i - 1]);
    }
  }

  lemma FetchStands(n: uint64, lastSeen: uint64, to: uint64, stream: Stream, pending: bool)
    requires n <= lastSeen < to && Ascending(stream.rows, lastSeen + 1, to) && (pending <==> lastSeen > n)
    ensures var f := FetchResult(lastSeen + 1, stream);
            if !Gapless(stream, lastSeen + 1) || pending
            then f.highestReady > n && (f.blocks == [] || !Follows(f.blocks, n + 1))
            else f.highestReady == n + |f.blocks| && Follows(f.blocks, n + 1)
  {
    PrefixOfAscending(stream.rows, lastSeen + 1, to);
    var read := ReadyPrefix(stream.rows);
    hide ReadyPrefix, Ready, Ascending;
    if read != [] && lastSeen > n { assert read[0].number > n + 1; }
  }

  lemma DecideStands(s: State, stream: Stream, pending: bool)
    requires RisingInv(s) && LogOk(s.log) && Stands(s, pending) && StepOk(s, Decide(stream))
    ensures var a := Decide(stream);
            && LogOk(Next(s, a).log)
            && Stands(Next(s, a), !Restarts(s, a) && (Loses(s, a) || pending))
  {
    var latest, lastSeen := s.poller.latest, s.poller.lastSeen;
    if lastSeen == 0 {
      hide Ready, LogOk, Rises;
      LogStarts(s.log, latest);
    } else if latest > lastSeen {
      FetchStands(LastNumber(s.log), lastSeen, latest, stream, pending);
      hide LogOk, Rises, Follows, Gapless, FetchResult, Ascending;
    } else {
      hide LogOk, Rises;
    }
  }

  /** While the log is consecutive a step keeps it so exactly when it does not broadcast with something pending. */
  lemma NextStands(s: State, a: Step, pending: bool)
    requires RisingInv(s) && LogOk(s.log) && Stands(s, pending) && StepOk(s, a)
    ensures LogOk(Next(s, a).log) <==> !(SendsSome(s, a) && pending)
    ensures LogOk(Next(s, a).log) ==> Stands(Next(s, a), !Restarts(s, a) && (Loses(s, a) || pending))
  {
    match a
    case Decide(stream) => DecideStands(s, stream, pending);
    case Broadcast =>
      LogSendsIff(s.log, s.poller.blocks);
      assert s.poller.blocks == [] ==> s.log + Sends(s.poller.blocks) == s.log;
      SendsRise(s.log, s.poller.blocks, s.poller.lastSeen, s.poller.highestReady);
      hide LogOk, Rises, Ready;
    case _ => hide LogOk, Rises;
  }

  lemma BrokenStays(s: State, a: Step)
    requires StepOk(s, a) && LogOk(Next(s, a).log)
    ensures LogOk(s.log)
  {
    if a.Broadcast? { PrefixStaysOk(s.log, Sends(s.poller.blocks)); }
    if Restarts(s, a) { PrefixStaysOk(s.log, [Started(s.poller.latest)]); }
  }

  /** What has been broadcast is consecutive between starts at some point of a run if and only if no fetch up to
      there that lost something was followed by a broadcast before the next start. */
  lemma {:induction false} FeedIsConsecutiveIff(states: seq<State>, steps: seq<Step>, k: nat)
    requires IsRun(states, steps) && k < |states|
    ensures LogOk(states[k].log) <==> forall j :: 0 <= j < k && SendsSome(states[j], steps[j]) ==> !Pending(states, steps, j)
    ensures LogOk(states[k].log) ==> Stands(states[k], Pending(states, steps, k))
  {
    hide RisingInv, LogOk, Stands, Next, StepOk, SendsSome, Restarts, Loses, Pending;
    if k == 0 {
      InitialStands();
      assert !Pending(states, steps, 0) by { NothingPending(states, steps); }
    } else {
      FeedIsConsecutiveIff(states, steps, k - 1);
      var s, a := states[k - 1], steps[k - 1];
      PendingStep(states, steps, k - 1);
      if LogOk(s.log) {
        RunRises(states, steps, k - 1);
        NextStands(s, a, Pending(states, steps, k - 1));
      } else if LogOk(states[k].log) {
        BrokenStays(s, a);
      }
    }
  }

  lemma InitialStands()
    ensures LogOk(INITIAL.log) && Stands(INITIAL, false)
  {
  }

  lemma NothingPending(states: seq<State>, steps: seq<Step>)
    requires |steps| < |states|
    ensures !Pending(states, steps, 0)
  {
  }

  // ---- The poller's code ----

  class Hub {
    var lastBlock: map<uint32, uint64>

    /** The body of pollNewBlocks for one chain; `head` is None when reading the head fails. Without
        interference it takes the protocol's steps one after the other. */
    method PollChain(chain: uint32, head: Option<uint32>, queryFailed: bool, stream: Stream)
      returns (sent: seq<BlockRow>)
      requires chain in lastBlock ==> lastBlock[chain] < 0xFFFF_FFFF_FFFF_FFFF
      modifies this
      ensures forall c :: c != chain ==> (c in lastBlock <==> c in old(lastBlock))
                                         && (c in lastBlock ==> lastBlock[c] == old(lastBlock)[c])
      ensures head.None? ==> sent == [] && lastBlock == old(lastBlock)
      ensures head.Some? ==>
                var last := if chain in old(lastBlock) then old(lastBlock)[chain] else 0;
                var s := State(head.value, last, GotLast(head.value, last), []);
                var d := Next(s, Decide(if queryFailed then Stream([], true) else stream));
                var e := if d.poller.Sending? then Next(Next(d, Broadcast), WriteLast) else d;
                && sent == (if d.poller.Sending? then d.poller.blocks else [])
                && (if chain in lastBlock then lastBlock[chain] else 0) == e.last
      ensures head.Some? ==>
                var last := if chain in old(lastBlock) then old(lastBlock)[chain] else 0;
                var now := if chain in lastBlock then lastBlock[chain] else 0;
                if last == 0 then sent == [] && now == head.value
                else if head.value <= last then sent == [] && now == last
                else Advanced(if queryFailed then [] else stream.rows, queryFailed || stream.err, last + 1, sent, now)
    {
      hide ReadyPrefix, Fetched;
      sent := [];
      if head.None? { return; }
      var latestBlock := head.value;
      var lastSeen := if chain in lastBlock then lastBlock[chain] else 0;
      if lastSeen == 0 {
        lastBlock := lastBlock[chain := latestBlock];
        return;
      }
      if latestBlock > lastSeen {
        var blocks, highestReady := FetchBlocksWithBurn(lastSeen + 1, queryFailed, stream);
        sent := blocks;
        if highestReady > lastSeen {
          lastBlock := lastBlock[chain := highestReady];
        }
      }
    }
  }
}
