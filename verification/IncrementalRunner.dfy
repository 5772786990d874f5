/** pkg/evmindexer/incremental.go: each cycle runs the next batch of at most 2000 blocks of every incremental
    indexer and then saves its watermark, all in uint64. */
module IncrementalRunner {
  import opened Base

  const BATCH: int := 2000

  /** A block range whose SQL succeeded, both ends included. */
  datatype Range = Range(from: uint64, to: uint64)

  /** One indexer: the watermark in memory and in the database, where 0 means never run, and what was executed. */
  datatype Track = Track(mem: uint64, db: uint64, executed: seq<Range>)

  datatype Outcome = SqlFailed | SaveFailed(applied: bool) | Saved

  datatype Event = Cycle(latest: uint64, outcome: Outcome) | Restart

  /** The last processed block, startBlock - 1 for an indexer that never ran. */
  function LastBlock(startBlock: uint64, mem: uint64): uint64 {
    if mem == 0 then WrapU64(startBlock - 1) else mem
  }

  /** The range a cycle runs after lastBlock, when there is one. */
  function NextRange(lastBlock: uint64, latest: uint64): Range
    requires lastBlock < latest
  {
    var from := WrapU64(lastBlock + 1);
    if WrapU64(latest - from + 1) > BATCH then Range(from, WrapU64(from + BATCH - 1)) else Range(from, latest)
  }

  function CycleTrack(t: Track, startBlock: uint64, latest: uint64, outcome: Outcome): Track {
    var last := LastBlock(startBlock, t.mem);
    if last >= latest then t else RunRange(t, NextRange(last, latest), outcome)
  }

  /** The SQL of one range, and the watermark after it. */
  function RunRange(t: Track, r: Range, outcome: Outcome): Track {
    var t1 := t.(executed := t.executed + [r]);
    match outcome
    case SqlFailed => t
    case Saved => t1.(mem := r.to, db := r.to)
    case SaveFailed(applied) => if applied then t1.(db := r.to) else t1
  }

  function Step(t: Track, startBlock: uint64, e: Event): Track {
    match e
    case Cycle(latest, outcome) => CycleTrack(t, startBlock, latest, outcome)
    case Restart => t.(mem := t.db)
  }

  const INITIAL := Track(0, 0, [])

  function After(startBlock: uint64, events: seq<Event>): Track {
    if events == [] then INITIAL else Step(After(startBlock, events[..|events| - 1]), startBlock, events[|events| - 1])
  }

  /** The highest executed block, startBlock - 1 when nothing was executed. */
  function Highest(executed: seq<Range>, startBlock: int): int {
    if executed == [] then startBlock - 1
    else
      var h := Highest(executed[..|executed| - 1], startBlock);
      var to := executed[|executed| - 1].to;
      if to > h then to else h
  }

  predicate InRange(r: Range, b: int) {
    r.from <= b <= r.to
  }

  /** The executed ranges have at most 2000 blocks each and together are exactly startBlock through hi. */
  ghost predicate CoversExactly(executed: seq<Range>, startBlock: int, hi: int) {
    && (forall k :: 0 <= k < |executed| ==>
          startBlock <= executed[k].from <= executed[k].to <= hi && executed[k].to - executed[k].from + 1 <= 2000)
    && (forall b :: startBlock <= b <= hi ==> Executed(executed, b))
  }

  ghost predicate Executed(executed: seq<Range>, b: int) {
    exists k :: 0 <= k < |executed| && InRange(executed[k], b)
  }

  ghost predicate Inv(t: Track, startBlock: uint64) {
    var hi := Highest(t.executed, startBlock);
    && CoversExactly(t.executed, startBlock, hi)
    && (t.mem != 0 ==> startBlock <= t.mem <= hi)
    && (t.db != 0 ==> startBlock <= t.db <= hi)
    && t.mem <= t.db
    && startBlock - 1 <= hi
  }

  /** No wrap happens in a cycle that runs: the batch starts right after the last block and ends at the head or
      2000 blocks on. */
  lemma RangeBounds(lastBlock: uint64, latest: uint64)
    requires lastBlock < latest
    ensures var r := NextRange(lastBlock, latest);
            && r.from == lastBlock + 1 && r.from <= r.to <= latest
            && r.to == if latest - lastBlock > 2000 then lastBlock + 2000 else latest
  {
  }

  lemma LastBlockValue(startBlock: uint64, mem: uint64)
    requires startBlock >= 1
    ensures LastBlock(startBlock, mem) == if mem == 0 then startBlock - 1 else mem
  {
  }

  lemma AddRange(executed: seq<Range>, r: Range, startBlock: uint64)
    requires startBlock >= 1
    requires CoversExactly(executed, startBlock, Highest(executed, startBlock))
    requires startBlock <= r.from <= r.to && r.to - r.from + 1 <= 2000
    requires r.from <= Highest(executed, startBlock) + 1
    ensures CoversExactly(executed + [r], startBlock, Highest(executed + [r], startBlock))
    ensures Highest(executed + [r], startBlock)
            == if r.to > Highest(executed, startBlock) then r.to else Highest(executed, startBlock)
  {
    var all := executed + [r];
    assert all[..|all| - 1] == executed;
    var hi := Highest(executed, startBlock);
    var hi' := Highest(all, startBlock);
    forall b | startBlock <= b <= hi' ensures Executed(all, b) {
      if b <= hi {
        assert Executed(executed, b);
        var k :| 0 <= k < |executed| && InRange(executed[k], b);
        assert all[k] == executed[k];
      } else {
        assert InRange(all[|executed|], b);
      }
    }
  }

  lemma CycleInv(t: Track, startBlock: uint64, latest: uint64, outcome: Outcome)
    requires startBlock >= 1 && Inv(t, startBlock)
    ensures var t' := CycleTrack(t, startBlock, latest, outcome);
            Inv(t', startBlock) && t'.mem >= t.mem
  {
    hide CoversExactly, NextRange, LastBlock, Highest, WrapU64;
    var last := LastBlock(startBlock, t.mem);
    LastBlockValue(startBlock, t.mem);
    if last < latest && outcome != SqlFailed {
      RangeBounds(last, latest);
      AddRange(t.executed, NextRange(last, latest), startBlock);
    }
  }

  /** A cycle that succeeds moves both watermarks to the head, or 2000 blocks on, and has executed exactly the
      blocks in between. When the save fails the blocks are executed all the same, and only the watermark in the
      database may have moved; a cycle without work or whose SQL fails does nothing. */
  lemma SavedCycleAdvances(t: Track, startBlock: uint64, latest: uint64, outcome: Outcome)
    requires startBlock >= 1
    ensures var t' := CycleTrack(t, startBlock, latest, outcome);
            var last := if t.mem == 0 then startBlock - 1 else t.mem;
            var to := if latest - last > 2000 then last + 2000 else latest;
            if last >= latest || outcome.SqlFailed? then t' == t
            else
              && t'.executed == t.executed + [Range(last + 1, to)]
              && t'.mem == (if outcome.Saved? then to else t.mem)
              && t'.db == (if outcome == SaveFailed(false) then t.db else to)
  {
    hide NextRange, LastBlock;
    LastBlockValue(startBlock, t.mem);
    var last := LastBlock(startBlock, t.mem);
    if last < latest { RangeBounds(last, latest); }
  }

  lemma {:induction false} RunInv(startBlock: uint64, events: seq<Event>)
    requires startBlock >= 1
    ensures Inv(After(startBlock, events), startBlock)
  {
    hide CoversExactly, CycleTrack;
    if events == [] {
      assert CoversExactly([], startBlock, startBlock - 1) by { NothingCovered(startBlock); }
    } else {
      var before := events[..|events| - 1];
      RunInv(startBlock, before);
      match events[|events| - 1]
      case Cycle(latest, outcome) => CycleInv(After(startBlock, before), startBlock, latest, outcome);
      case Restart =>
    }
  }

  lemma NothingCovered(startBlock: int)
    ensures CoversExactly([], startBlock, startBlock - 1)
  {
  }

  /** Over any run with failures and restarts, from a start block of at least 1: the executed ranges have at
      most 2000 blocks each, and together they are exactly startBlock through some block that neither
      watermark, in memory or saved, is past. */
  lemma NoGaps(startBlock: uint64, events: seq<Event>)
    requires startBlock >= 1
    ensures var t := After(startBlock, events);
            var hi := Highest(t.executed, startBlock);
            && CoversExactly(t.executed, startBlock, hi)
            && (t.mem == 0 || startBlock <= t.mem <= hi)
            && (t.db == 0 || startBlock <= t.db <= hi)
  {
    RunInv(startBlock, events);
  }

  /** The watermark in memory never decreases, restarts included. */
  lemma WatermarkNeverDecreases(startBlock: uint64, events: seq<Event>, e: Event)
    requires startBlock >= 1
    ensures After(startBlock, events + [e]).mem >= After(startBlock, events).mem
  {
    hide Inv, CycleTrack, After;
    AfterOneMore(startBlock, events, e);
    RunInv(startBlock, events);
    match e
    case Cycle(latest, outcome) => CycleInv(After(startBlock, events), startBlock, latest, outcome);
    case Restart => assert Inv(After(startBlock, events), startBlock); RestartMem(After(startBlock, events), startBlock);
  }

  lemma AfterOneMore(startBlock: uint64, events: seq<Event>, e: Event)
    ensures After(startBlock, events + [e]) == Step(After(startBlock, events), startBlock, e)
  {
    assert (events + [e])[..|events|] == events;
  }

  lemma RestartMem(t: Track, startBlock: uint64)
    requires Inv(t, startBlock)
    ensures t.mem <= t.db
  {
  }

  // ---- The saved watermark ----

  /** The head block never goes back from one cycle to a later one. */
  ghost predicate HeadGrows(events: seq<Event>) {
    forall i, j :: 0 <= i < j < |events| && events[i].Cycle? && events[j].Cycle? ==> events[i].latest <= events[j].latest
  }

  /** The head of the last cycle. */
  function Head(events: seq<Event>): int {
    if events == [] then 0
    else match events[|events| - 1]
         case Cycle(latest, _) => latest
         case Restart => Head(events[..|events| - 1])
  }

  lemma {:induction false} HeadIsLargest(events: seq<Event>, latest: uint64, outcome: Outcome)
    requires HeadGrows(events + [Cycle(latest, outcome)])
    ensures Head(events) <= latest
    decreases |events|
  {
    if events != [] {
      var last := |events| - 1;
      var all := events + [Cycle(latest, outcome)];
      assert all[last] == events[last] && all[|events|] == Cycle(latest, outcome);
      if events[last].Restart? {
        var shorter := events[..last] + [Cycle(latest, outcome)];
        forall i, j | 0 <= i < j < |shorter| && shorter[i].Cycle? && shorter[j].Cycle?
          ensures shorter[i].latest <= shorter[j].latest
        {
          assert shorter[i] == all[i];
          assert shorter[j] == if j < last then all[j] else all[|events|];
        }
        HeadIsLargest(events[..last], latest, outcome);
      }
    }
  }

  /** A watermark saved by a cycle that reported failure is at most what the next cycle will save. */
  ghost predicate SavedAhead(t: Track, startBlock: uint64, head: int) {
    t.db <= t.mem || (t.db <= head && t.db <= LastBlock(startBlock, t.mem) + BATCH)
  }

  lemma {:induction false} SavedStaysAhead(startBlock: uint64, events: seq<Event>)
    requires startBlock >= 1 && HeadGrows(events)
    ensures SavedAhead(After(startBlock, events), startBlock, Head(events))
  {
    if events != [] {
      var before, e := events[..|events| - 1], events[|events| - 1];
      assert events == before + [e];
      SavedStaysAhead(startBlock, before);
      RunInv(startBlock, before);
      hide CoversExactly, NextRange, After, WrapU64;
      AfterOneMore(startBlock, before, e);
      var t := After(startBlock, before);
      if e.Cycle? {
        HeadIsLargest(before, e.latest, e.outcome);
        var last := LastBlock(startBlock, t.mem);
        if last < e.latest { RangeBounds(last, e.latest); }
      }
    }
  }

  /** With a head that only grows, the saved watermark never decreases either. */
  lemma SavedNeverDecreases(startBlock: uint64, events: seq<Event>, e: Event)
    requires startBlock >= 1 && HeadGrows(events + [e])
    ensures After(startBlock, events + [e]).db >= After(startBlock, events).db
  {
    assert HeadGrows(events) by {
      forall i, j | 0 <= i < j < |events| && events[i].Cycle? && events[j].Cycle?
        ensures events[i].latest <= events[j].latest
      {
        assert (events + [e])[i] == events[i] && (events + [e])[j] == events[j];
      }
    }
    SavedStaysAhead(startBlock, events);
    RunInv(startBlock, events);
    AfterOneMore(startBlock, events, e);
    hide CoversExactly, NextRange, After, WrapU64;
    if e.Cycle? {
      HeadIsLargest(events, e.latest, e.outcome);
      var last := LastBlock(startBlock, After(startBlock, events).mem);
      if last < e.latest { RangeBounds(last, e.latest); }
    }
  }

  // ---- A start block of 0 ----

  lemma {:induction false} ZeroStartIdle(events: seq<Event>)
    ensures After(0, events) == INITIAL
  {
    if events != [] { ZeroStartIdle(events[..|events| - 1]); }
  }

  /** With start block 0 the initial watermark wraps to 2^64 - 1 and nothing ever runs; from 1 on, the first
      cycle that sees the start block runs it. So indexing can begin if and only if startBlock >= 1. */
  lemma StartsIffPositive(startBlock: uint64)
    ensures (exists events :: After(startBlock, events).executed != []) <==> startBlock >= 1
  {
    if startBlock == 0 {
      forall events ensures After(startBlock, events).executed == [] { ZeroStartIdle(events); }
    } else {
      hide NextRange;
      var e := Cycle(startBlock, Saved);
      AfterOneMore(startBlock, [], e);
      assert After(startBlock, [] + [e]).executed != [];
    }
  }

  // ---- The loop over indexers ----

  /** A batch that is saved moves the watermark. */
  lemma LastBlockMoves(startBlock: uint64, t: Track, latest: uint64, outcome: Outcome)
    requires LastBlock(startBlock, t.mem) < latest
    ensures RunRange(t, NextRange(LastBlock(startBlock, t.mem), latest), outcome).mem != t.mem <==> outcome.Saved?
  {
    hide NextRange;
    RangeBounds(LastBlock(startBlock, t.mem), latest);
  }

  class IndexRunner {
    const startBlock: uint64
    const incrementalIndexers: seq<string>
    var watermarks: map<string, uint64>
    var saved: map<string, uint64>
    ghost var executed: map<string, seq<Range>>

    constructor (startBlock: uint64, indexers: seq<string>)
      ensures this.startBlock == startBlock && incrementalIndexers == indexers
      ensures forall k :: View(k) == INITIAL
    {
      this.startBlock := startBlock;
      incrementalIndexers := indexers;
      watermarks, saved, executed := map[], map[], map[];
    }

    ghost function View(k: string): Track
      reads this
    {
      Track(if k in watermarks then watermarks[k] else 0,
            if k in saved then saved[k] else 0,
            if k in executed then executed[k] else [])
    }

    /** The body of the loop. */
    method RunOne(k: string, latest: uint64, outcome: Outcome) returns (worked: bool)
      modifies this
      ensures View(k) == CycleTrack(old(View(k)), startBlock, latest, outcome)
      ensures forall j: string :: j != k ==> View(j) == old(View(j))
      ensures worked <==> View(k).mem != old(View(k)).mem
    {
      hide RunRange;
      var mem: uint64 := if k in watermarks then watermarks[k] else 0;
      assert mem == View(k).mem;
      hide View;
      var lastBlockNum := mem;
      if lastBlockNum == 0 { lastBlockNum := WrapU64(startBlock - 1); }
      worked := false;
      if lastBlockNum < latest {
        RangeBounds(lastBlockNum, latest);
        LastBlockMoves(startBlock, View(k), latest, outcome);
        var fromBlock := WrapU64(lastBlockNum + 1);
        var toBlock := latest;
        if WrapU64(toBlock - fromBlock + 1) > BATCH {
          toBlock := WrapU64(fromBlock + BATCH - 1);
        }
        worked := RunIndexer(k, Range(fromBlock, toBlock), outcome);
      }
    }

    /** The SQL of the batch, and the watermark after it. */
    method RunIndexer(k: string, r: Range, outcome: Outcome) returns (worked: bool)
      modifies this
      ensures View(k) == RunRange(old(View(k)), r, outcome)
      ensures forall j: string :: j != k ==> View(j) == old(View(j))
      ensures worked == outcome.Saved?
    {
      if outcome == SqlFailed { return false; }
      executed := executed[k := View(k).executed + [r]];
      if outcome.Saved? || outcome.applied {
        saved := saved[k := r.to];
      }
      if outcome.Saved? {
        watermarks := watermarks[k := r.to];
      }
      return outcome.Saved?;
    }

    /** processIncrementalBatch: each indexer takes one cycle step of its own, a failure of one affects no
        other, and the result says whether any watermark moved. */
    method ProcessIncrementalBatch(latest: uint64, outcome: string -> Outcome) returns (hasWork: bool)
      requires forall i, j :: 0 <= i < j < |incrementalIndexers| ==> incrementalIndexers[i] != incrementalIndexers[j]
      modifies this
      ensures forall k: string :: View(k) ==
                if k in incrementalIndexers then CycleTrack(old(View(k)), startBlock, latest, outcome(k))
                else old(View(k))
      ensures hasWork <==> exists k: string :: k in incrementalIndexers && View(k).mem != old(View(k)).mem
    {
      hide CycleTrack;
      hasWork := false;
      for i := 0 to |incrementalIndexers|
        invariant forall k: string :: View(k) ==
                    if k in incrementalIndexers[..i] then CycleTrack(old(View(k)), startBlock, latest, outcome(k))
                    else old(View(k))
        invariant hasWork <==> exists k: string :: k in incrementalIndexers[..i] && View(k).mem != old(View(k)).mem
      {
        var k := incrementalIndexers[i];
        assert k !in incrementalIndexers[..i];
        assert View(k) == old(View(k));
        label before:
        var worked := RunOne(k, latest, outcome(k));
        assert forall j: string :: j in incrementalIndexers[..i + 1] <==> j in incrementalIndexers[..i] || j == k;
        assert forall j: string :: j in incrementalIndexers[..i] ==> View(j) == old@before(View(j));
        hasWork := hasWork || worked;
      }
      assert incrementalIndexers[..|incrementalIndexers|] == incrementalIndexers;
    }

    /** loadWatermarks after a restart. */
    method Restart()
      modifies this
      ensures forall k: string ::
                View(k) == old(View(k)).(mem := old(View(k)).db) == Step(old(View(k)), startBlock, Event.Restart)
    {
      watermarks := saved;
    }
  }
}
