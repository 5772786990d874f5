/** pkg/evmindexer/granular.go: each cycle runs the next batch of complete periods of every metric and
    granularity and then saves its watermark. SQL may fail, a save may fail with or without having been
    applied, and the process may restart; the executed ranges still cover time without a gap. */
module GranularRunner {
  import opened Base
  import opened Periods
  import opened Calendar
  import Text

  /** A SQL execution over [first, end) that succeeded, and the block time it ran at. */
  datatype Run = Run(first: int, end: int, latest: int)

  /** One metric and granularity: the watermark in memory, the one in the database, and what was executed. */
  datatype Track = Track(mem: Option<int>, db: Option<int>, executed: seq<Run>)

  datatype Outcome = SqlFailed | SaveFailed(applied: bool) | Saved

  datatype Event = Cycle(latest: int, outcome: Outcome) | Restart

  /** A watermark that was never set counts as the epoch, 1970-01-01. */
  function LastPeriod(w: Option<int>): int {
    if w.None? then 0 else w.value
  }

  /** One cycle of one metric and granularity. */
  function CycleTrack(t: Track, g: Granularity, latest: int, outcome: Outcome): Track {
    var periods := Capped(Complete(LastPeriod(t.mem), latest, g));
    if periods == [] then t
    else
      var last := periods[|periods| - 1];
      RunPeriods(t, Run(periods[0], NextPeriod(last, g), latest), last, outcome)
  }

  /** The SQL of a batch whose last period is `last`, and the watermark after it. */
  function RunPeriods(t: Track, r: Run, last: int, outcome: Outcome): Track {
    var t1 := t.(executed := t.executed + [r]);
    match outcome
    case SqlFailed => t
    case Saved => t1.(mem := Some(last), db := Some(last))
    case SaveFailed(applied) => if applied then t1.(db := Some(last)) else t1
  }

  function Step(t: Track, g: Granularity, e: Event): Track {
    match e
    case Cycle(latest, outcome) => CycleTrack(t, g, latest, outcome)
    case Restart => t.(mem := t.db)
  }

  const INITIAL := Track(None, None, [])

  function After(g: Granularity, events: seq<Event>): Track {
    if events == [] then INITIAL else Step(After(g, events[..|events| - 1]), g, events[|events| - 1])
  }

  // ---- The invariant ----

  /** The whole period i lies inside one executed range. */
  ghost predicate Executed(executed: seq<Run>, i: int, g: Granularity) {
    exists k :: 0 <= k < |executed| && executed[k].first <= Begin(i, g) && Begin(i + 1, g) <= executed[k].end
  }

  /** Everything from the first period after the epoch's through w has been executed. */
  ghost predicate Covers(executed: seq<Run>, w: int, g: Granularity) {
    forall i :: Index(0, g) < i <= Index(w, g) ==> Executed(executed, i, g)
  }

  /** An executed range is a run of whole periods after the epoch that had ended when it ran. */
  ghost predicate RunOk(r: Run, g: Granularity) {
    && IsPeriodStart(r.first, g) && IsPeriodStart(r.end, g)
    && NextPeriod(0, g) <= r.first < r.end <= r.latest
  }

  ghost predicate WatermarkOk(w: Option<int>, g: Granularity) {
    w.Some? ==> IsPeriodStart(w.value, g) && w.value >= NextPeriod(0, g)
  }

  ghost predicate Inv(t: Track, g: Granularity) {
    && WatermarkOk(t.mem, g) && WatermarkOk(t.db, g)
    && Covers(t.executed, LastPeriod(t.mem), g)
    && Covers(t.executed, LastPeriod(t.db), g)
    && forall k :: 0 <= k < |t.executed| ==> RunOk(t.executed[k], g)
  }

  /** The facts about the batch of a cycle that started at a good watermark. */
  lemma BatchFacts(w: Option<int>, g: Granularity, latest: int) returns (i: int, n: nat)
    requires WatermarkOk(w, g) && Complete(LastPeriod(w), latest, g) != []
    ensures var periods := Capped(Complete(LastPeriod(w), latest, g));
            && i == Index(LastPeriod(w), g) && n == |periods| >= 1
            && Index(0, g) <= i
            && periods[0] == Begin(i + 1, g)
            && periods[n - 1] == Begin(i + n, g)
            && NextPeriod(periods[n - 1], g) == Begin(i + n + 1, g) <= latest
  {
    hide Begin, Index, StartOfPeriod, NextPeriod;
    var all := Complete(LastPeriod(w), latest, g);
    var periods := Capped(all);
    i, n := Index(LastPeriod(w), g), |periods|;
    if w.Some? {
      PeriodsPartitionTime(0, g);
      IndexMonotone(0, w.value, g);
    }
    IndexOfBegin(i + n, g);
    NextIsBegin(periods[n - 1], g);
    InsidePeriod(latest, g);
    if i + n + 1 < Index(latest, g) { BeginIncreases(i + n + 1, Index(latest, g), g); }
  }

  lemma RunExecutes(i: int, n: nat, j: int, g: Granularity)
    requires i < j <= i + n
    ensures Begin(i + 1, g) <= Begin(j, g) && Begin(j + 1, g) <= Begin(i + n + 1, g)
  {
    hide Begin;
    if i + 1 < j { BeginIncreases(i + 1, j, g); }
    if j < i + n { BeginIncreases(j + 1, i + n + 1, g); }
  }

  lemma CoversMore(executed: seq<Run>, r: Run, w: int, g: Granularity)
    requires Covers(executed, w, g)
    ensures Covers(executed + [r], w, g)
  {
    hide Begin, Index;
    forall i | Index(0, g) < i <= Index(w, g) ensures Executed(executed + [r], i, g) {
      assert Executed(executed, i, g);
      var k :| 0 <= k < |executed| && executed[k].first <= Begin(i, g) && Begin(i + 1, g) <= executed[k].end;
      assert (executed + [r])[k] == executed[k];
    }
  }

  lemma CoversThrough(executed: seq<Run>, r: Run, w: int, i: int, n: nat, g: Granularity)
    requires Covers(executed, w, g) && i == Index(w, g)
    requires r.first == Begin(i + 1, g) && r.end == Begin(i + n + 1, g)
    ensures Covers(executed + [r], Begin(i + n, g), g)
  {
    hide Begin, Index;
    CoversMore(executed, r, w, g);
    IndexOfBegin(i + n, g);
    forall j | Index(0, g) < j <= i + n ensures Executed(executed + [r], j, g) {
      if j > i {
        RunExecutes(i, n, j, g);
        assert (executed + [r])[|executed|] == r;
      }
    }
  }

  lemma BeginIsStart(i: int, g: Granularity)
    ensures IsPeriodStart(Begin(i, g), g)
    ensures i > Index(0, g) ==> Begin(i, g) >= NextPeriod(0, g)
  {
    hide Begin, Index, StartOfPeriod, NextPeriod;
    IndexOfBegin(i, g);
    StartsAreBegins(Begin(i, g), g);
    NextIsBegin(0, g);
    if i > Index(0, g) + 1 { BeginIncreases(Index(0, g) + 1, i, g); }
  }

  lemma CycleInv(t: Track, g: Granularity, latest: int, outcome: Outcome)
    requires Inv(t, g)
    ensures Inv(CycleTrack(t, g, latest, outcome), g)
  {
    hide Begin, Index, IsPeriodStart, NextPeriod, Covers;
    var periods := Capped(Complete(LastPeriod(t.mem), latest, g));
    if periods != [] && outcome != SqlFailed {
      var i, n := BatchFacts(t.mem, g, latest);
      var last := periods[n - 1];
      var r := Run(periods[0], NextPeriod(last, g), latest);
      BeginIsStart(i + 1, g);
      BeginIsStart(i + n, g);
      BeginIsStart(i + n + 1, g);
      BeginIncreases(i + 1, i + n + 1, g);
      CoversMore(t.executed, r, LastPeriod(t.mem), g);
      CoversMore(t.executed, r, LastPeriod(t.db), g);
      CoversThrough(t.executed, r, LastPeriod(t.mem), i, n, g);
    }
  }

  lemma InitialInv(g: Granularity)
    ensures Inv(INITIAL, g)
  {
    hide Begin, Index;
  }

  lemma {:induction false} RunInv(g: Granularity, events: seq<Event>)
    ensures Inv(After(g, events), g)
  {
    hide Inv, CycleTrack;
    InitialInv(g);
    if events != [] {
      var before := After(g, events[..|events| - 1]);
      RunInv(g, events[..|events| - 1]);
      match events[|events| - 1]
      case Cycle(latest, outcome) => CycleInv(before, g, latest, outcome);
      case Restart => RestartInv(before, g);
    }
  }

  lemma RestartInv(t: Track, g: Granularity)
    requires Inv(t, g)
    ensures Inv(t.(mem := t.db), g)
  {
  }

  /** Over any run of cycles with SQL failures, save failures and restarts, every instant from
      nextPeriod(epoch) to the end of the watermark's period, in memory or saved, lies in an executed range,
      and no range passes the block time it ran at. */
  lemma NoGaps(g: Granularity, events: seq<Event>, x: int)
    ensures var t := After(g, events);
            && (forall w | w == t.mem || w == t.db ::
                  w.Some? && NextPeriod(0, g) <= x < NextPeriod(w.value, g) ==>
                  exists k :: 0 <= k < |t.executed| && t.executed[k].first <= x < t.executed[k].end)
            && (forall k :: 0 <= k < |t.executed| ==>
                  NextPeriod(0, g) <= t.executed[k].first < t.executed[k].end <= t.executed[k].latest)
  {
    hide Begin, Index, StartOfPeriod, NextPeriod, After;
    RunInv(g, events);
    var t := After(g, events);
    forall w | w == t.mem || w == t.db
      ensures w.Some? && NextPeriod(0, g) <= x < NextPeriod(w.value, g) ==>
              exists k :: 0 <= k < |t.executed| && t.executed[k].first <= x < t.executed[k].end
    {
      if w.Some? && NextPeriod(0, g) <= x < NextPeriod(w.value, g) {
        var i := PeriodBetween(x, w.value, g);
        assert Executed(t.executed, i, g);
        var k :| 0 <= k < |t.executed| && t.executed[k].first <= Begin(i, g) && Begin(i + 1, g) <= t.executed[k].end;
      }
    }
  }

  lemma PeriodBetween(x: int, w: int, g: Granularity) returns (i: int)
    requires NextPeriod(0, g) <= x < NextPeriod(w, g)
    ensures Begin(i, g) <= x < Begin(i + 1, g) && Index(0, g) < i <= Index(w, g)
  {
    hide Begin, Index, NextPeriod;
    i := Index(x, g);
    InsidePeriod(x, g);
    NextIsBegin(0, g);
    NextIsBegin(w, g);
    if i < Index(0, g) + 1 && i + 1 < Index(0, g) + 1 { BeginIncreases(i + 1, Index(0, g) + 1, g); }
    if Index(w, g) + 1 < i { BeginIncreases(Index(w, g) + 1, i, g); }
  }

  /** What a cycle does: it takes up to six of the complete periods after the watermark, the epoch when there is
      none. Unless the SQL fails it executes from the start of the first to the end of the last of them, and it
      moves the watermark to the last one, in the database unless the save is lost and in memory when it is known to
      be saved. */
  lemma CycleDoes(t: Track, g: Granularity, latest: int, outcome: Outcome)
    ensures var all := Complete(if t.mem.Some? then t.mem.value else 0, latest, g);
            var n := if |all| > 6 then 6 else |all|;
            var t' := CycleTrack(t, g, latest, outcome);
            if n == 0 || outcome.SqlFailed? then t' == t
            else
              && t'.executed == t.executed + [Run(all[0], NextPeriod(all[n - 1], g), latest)]
              && t'.mem == (if outcome.Saved? then Some(all[n - 1]) else t.mem)
              && t'.db == (if outcome == SaveFailed(false) then t.db else Some(all[n - 1]))
  {
    hide Complete, NextPeriod;
  }

  /** A cycle with work and no failure moves the watermark forward; any other cycle leaves it. */
  lemma WatermarkAdvances(t: Track, g: Granularity, latest: int, outcome: Outcome)
    requires Inv(t, g)
    ensures var t' := CycleTrack(t, g, latest, outcome);
            if outcome == Saved && Complete(LastPeriod(t.mem), latest, g) != []
            then t'.mem.Some? && t'.mem.value > LastPeriod(t.mem) && t'.mem == t'.db
            else t'.mem == t.mem
  {
    hide Begin, Index, StartOfPeriod, NextPeriod, Covers;
    if outcome == Saved && Complete(LastPeriod(t.mem), latest, g) != [] {
      var i, n := BatchFacts(t.mem, g, latest);
      InsidePeriod(LastPeriod(t.mem), g);
      if n > 1 { BeginIncreases(i + 1, i + n, g); }
    }
  }

  // ---- The loops over metrics and granularities ----

  datatype Key = Key(metric: string, g: Granularity)

  const GRANULARITIES: seq<Granularity> := [Hour, Day, Week, Month]

  lemma AllGranularities()
    ensures forall g: Granularity :: g in GRANULARITIES[..|GRANULARITIES|]
  {
    var all := GRANULARITIES;
    assert all[..|all|] == all == [Hour, Day, Week, Month];
    forall g: Granularity ensures g in all {
      match g
      case Hour => assert all[0] == g;
      case Day => assert all[1] == g;
      case Week => assert all[2] == g;
      case Month => assert all[3] == g;
    }
  }

  /** Snapshot metrics run daily only. */
  predicate Runs(metricFile: string, g: Granularity) {
    !(Text.Contains(metricFile, "_snapshot") && g != Day)
  }

  lemma SnapshotsRunDaily(metricFile: string, g: Granularity)
    ensures Runs(metricFile, g) <==> g == Day || !exists i: nat :: Text.FoundAt(metricFile, "_snapshot", i)
  {
    Text.ContainsMeans(metricFile, "_snapshot");
  }

  class IndexRunner {
    const granularMetrics: seq<string>
    var watermarks: map<Key, int>           // in memory
    var saved: map<Key, int>                // indexer_watermarks
    ghost var executed: map<Key, seq<Run>>

    constructor (metrics: seq<string>)
      ensures granularMetrics == metrics
      ensures forall k :: View(k) == INITIAL
    {
      granularMetrics := metrics;
      watermarks, saved, executed := map[], map[], map[];
    }

    ghost function View(k: Key): Track
      reads this
    {
      Track(if k in watermarks then Some(watermarks[k]) else None,
            if k in saved then Some(saved[k]) else None,
            if k in executed then executed[k] else [])
    }

    /** The body of the two loops. `outcome` is how the database answers. */
    method RunOne(k: Key, latest: int, outcome: Outcome)
      requires WatermarkOk(View(k).mem, k.g)
      modifies this
      ensures View(k) == CycleTrack(old(View(k)), k.g, latest, outcome)
      ensures forall j: Key :: j != k ==> View(j) == old(View(j))
    {
      hide Begin, Index, StartOfPeriod, NextPeriod, RunPeriods;
      var lastPeriod := if k in watermarks then watermarks[k] else 0;
      NotZero(View(k).mem, k.g);
      var periods := GetPeriodsToProcess(lastPeriod, latest, k.g);
      if |periods| == 0 { return; }
      if |periods| > MAX_PERIODS_PER_BATCH { periods := periods[..MAX_PERIODS_PER_BATCH]; }
      var last := periods[|periods| - 1];
      RunMetricSql(k, Run(periods[0], NextPeriod(last, k.g), latest), last, outcome);
    }

    /** The SQL of the batch, and the watermark after it. */
    method RunMetricSql(k: Key, r: Run, last: int, outcome: Outcome)
      modifies this
      ensures View(k) == RunPeriods(old(View(k)), r, last, outcome)
      ensures forall j: Key :: j != k ==> View(j) == old(View(j))
    {
      if outcome == SqlFailed { return; }
      executed := executed[k := View(k).executed + [r]];
      if outcome.Saved? || outcome.applied {
        saved := saved[k := last];
      }
      if outcome.Saved? {
        watermarks := watermarks[k := last];
      }
    }

    /** The inner loop: one metric at every granularity it runs at. */
    method RunMetric(metricFile: string, latest: int, outcome: Key -> Outcome)
      requires forall g :: WatermarkOk(View(Key(metricFile, g)).mem, g)
      modifies this
      ensures forall k: Key :: View(k) ==
                if k.metric == metricFile && Runs(k.metric, k.g) then CycleTrack(old(View(k)), k.g, latest, outcome(k))
                else old(View(k))
    {
      hide WatermarkOk, CycleTrack;
      for j := 0 to |GRANULARITIES|
        invariant forall k: Key :: View(k) ==
                    if k.metric == metricFile && k.g in GRANULARITIES[..j] && Runs(k.metric, k.g)
                    then CycleTrack(old(View(k)), k.g, latest, outcome(k)) else old(View(k))
      {
        var k := Key(metricFile, GRANULARITIES[j]);
        if Text.Contains(metricFile, "_snapshot") && k.g != Day { continue; }
        RunOne(k, latest, outcome(k));
      }
      AllGranularities();
    }

    /** processGranularMetrics: every metric takes one cycle step of its own at every granularity, but only the daily
        one when its name has "_snapshot" in it, and a failure of one affects no other. */
    method ProcessGranularMetrics(latest: int, outcome: Key -> Outcome)
      requires forall i, j :: 0 <= i < j < |granularMetrics| ==> granularMetrics[i] != granularMetrics[j]
      requires forall k: Key :: WatermarkOk(View(k).mem, k.g)
      modifies this
      ensures forall k: Key :: View(k) ==
                if k.metric in granularMetrics && (k.g == Day || !exists i: nat :: Text.FoundAt(k.metric, "_snapshot", i))
                then CycleTrack(old(View(k)), k.g, latest, outcome(k)) else old(View(k))
    {
      hide WatermarkOk, CycleTrack, Runs;
      for i := 0 to |granularMetrics|
        invariant forall k: Key :: View(k) ==
                    if k.metric in granularMetrics[..i] && Runs(k.metric, k.g)
                    then CycleTrack(old(View(k)), k.g, latest, outcome(k)) else old(View(k))
      {
        assert granularMetrics[i] !in granularMetrics[..i];
        RunMetric(granularMetrics[i], latest, outcome);
      }
      assert granularMetrics[..|granularMetrics|] == granularMetrics;
      forall k: Key
        ensures Runs(k.metric, k.g) <==> k.g == Day || !exists i: nat :: Text.FoundAt(k.metric, "_snapshot", i)
      {
        SnapshotsRunDaily(k.metric, k.g);
      }
    }

    /** loadWatermarks after a restart. */
    method Restart()
      modifies this
      ensures forall k: Key :: View(k) == old(View(k)).(mem := old(View(k)).db) == Step(old(View(k)), k.g, Event.Restart)
    {
      watermarks := saved;
    }
  }

  lemma NotZero(w: Option<int>, g: Granularity)
    requires WatermarkOk(w, g)
    ensures !IsZero(LastPeriod(w))
  {
    hide StartOfPeriod, Begin, Index, NextPeriod, MonthStart;
    PeriodsPartitionTime(0, g);
    assert YearStart(1) * DAY < 0;
  }
}
