/** pkg/evmindexer/period_utils.go: hours, days, weeks and months as periods that partition time. */
module Periods {
  import opened Calendar

  datatype Granularity = Hour | Day | Week | Month

  // ---- The source's functions ----

  /** The loop of the week case: back one day at a time until it is Sunday. */
  function BackToSunday(t: int): int
    decreases Weekday(t)
  {
    if Weekday(t) == 0 then t
    else
      DayBack(t);
      BackToSunday(AddDate(t, 0, -1))
  }

  /** toStartOfPeriod. */
  function StartOfPeriod(t: int, g: Granularity): int {
    match g
    case Hour => Date(MonthOf(t), DayOfMonth(t), HourOf(t))
    case Day => Date(MonthOf(t), DayOfMonth(t), 0)
    case Week => var s := BackToSunday(t); Date(MonthOf(s), DayOfMonth(s), 0)
    case Month => Date(MonthOf(t), 1, 0)
  }

  method ToStartOfPeriod(t0: int, g: Granularity) returns (r: int)
    ensures r == StartOfPeriod(t0, g)
  {
    var t := t0;
    match g
    case Hour => return Date(MonthOf(t), DayOfMonth(t), HourOf(t));
    case Day => return Date(MonthOf(t), DayOfMonth(t), 0);
    case Week =>
      while Weekday(t) != 0
        invariant BackToSunday(t) == BackToSunday(t0)
        decreases Weekday(t)
      {
        DayBack(t);
        t := AddDate(t, 0, -1);
      }
      return Date(MonthOf(t), DayOfMonth(t), 0);
    case Month => return Date(MonthOf(t), 1, 0);
  }

  /** nextPeriod. */
  function NextPeriod(t: int, g: Granularity): int {
    var currentPeriod := StartOfPeriod(t, g);
    match g
    case Hour => currentPeriod + HOUR
    case Day => AddDate(currentPeriod, 0, 1)
    case Week => AddDate(currentPeriod, 0, 7)
    case Month => AddDate(currentPeriod, 1, 0)
  }

  /** isPeriodComplete. */
  predicate IsPeriodComplete(periodStart: int, latestBlockTime: int, g: Granularity) {
    var periodEnd := NextPeriod(periodStart, g);
    latestBlockTime > periodEnd || latestBlockTime == periodEnd
  }

  /** t.IsZero(): January 1 of the year 1. */
  predicate IsZero(t: int) {
    t == YearStart(1) * DAY
  }

  // ---- Date arithmetic on whole days ----

  lemma MidnightOf(t: int)
    ensures DayOf(t) * DAY + t % DAY == t
    ensures Date(MonthOf(t), DayOfMonth(t), 0) == DayOf(t) * DAY
  {
    hide MonthStart;
  }

  /** Adding days moves the day number, whatever months lie between. */
  lemma AddDays(t: int, n: int)
    ensures AddDate(t, 0, n) == t + n * DAY
  {
    hide MonthStart;
    MidnightOf(t);
  }

  lemma DayBack(t: int)
    requires Weekday(t) != 0
    ensures AddDate(t, 0, -1) == t - DAY && Weekday(t - DAY) == Weekday(t) - 1
  {
    AddDays(t, -1);
    ShiftDay(t, -1);
    hide MonthStart, AddDate, Calendar.MonthFrom;
  }

  lemma ShiftDay(t: int, n: int)
    ensures DayOf(t + n * DAY) == DayOf(t) + n && (t + n * DAY) % DAY == t % DAY
  {
  }

  lemma {:induction false} SundayBefore(t: int)
    ensures BackToSunday(t) == t - Weekday(t) * DAY
    decreases Weekday(t)
  {
    hide MonthStart, Calendar.MonthFrom;
    if Weekday(t) != 0 {
      DayBack(t);
      SundayBefore(t - DAY);
    }
  }

  // ---- Periods are numbered ----

  /** The start of the i-th period. */
  function Begin(i: int, g: Granularity): int {
    match g
    case Hour => i * HOUR
    case Day => i * DAY
    case Week => (7 * i - 4) * DAY
    case Month => MonthStart(i) * DAY
  }

  /** The number of the period that contains t. */
  function Index(t: int, g: Granularity): int {
    match g
    case Hour => t / HOUR
    case Day => t / DAY
    case Week => (DayOf(t) + 4) / 7
    case Month => MonthOf(t)
  }

  lemma BeginIncreases(i: int, j: int, g: Granularity)
    requires i < j
    ensures Begin(i, g) + HOUR <= Begin(j, g)
  {
    hide MonthStart;
    if g == Month { MonthsIncrease(i, j); }
  }

  lemma InsidePeriod(t: int, g: Granularity)
    ensures Begin(Index(t, g), g) <= t < Begin(Index(t, g) + 1, g)
  {
    hide MonthStart, Calendar.MonthFrom;
  }

  /** The period of t is the only one around t. */
  lemma IndexUnique(t: int, i: int, g: Granularity)
    requires Begin(i, g) <= t < Begin(i + 1, g)
    ensures Index(t, g) == i
  {
    hide Begin, Index;
    InsidePeriod(t, g);
    var j := Index(t, g);
    if j < i { if j + 1 < i { BeginIncreases(j + 1, i, g); } }
    if i < j { if i + 1 < j { BeginIncreases(i + 1, j, g); } }
  }

  lemma IndexOfBegin(i: int, g: Granularity)
    ensures Index(Begin(i, g), g) == i
  {
    hide Begin, Index;
    BeginIncreases(i, i + 1, g);
    IndexUnique(Begin(i, g), i, g);
  }

  lemma IndexMonotone(t: int, u: int, g: Granularity)
    requires t <= u
    ensures Index(t, g) <= Index(u, g)
  {
    hide Begin, Index;
    InsidePeriod(t, g);
    InsidePeriod(u, g);
    var i, j := Index(t, g), Index(u, g);
    if j < i { if j + 1 < i { BeginIncreases(j + 1, i, g); } }
  }

  lemma HourFields(t: int)
    ensures DayOf(t) * DAY + HourOf(t) * HOUR == t / HOUR * HOUR
  {
    var d, m := t / DAY, t % DAY;
    var h, r := m / HOUR, m % HOUR;
    assert t == d * DAY + m && m == h * HOUR + r;
    HourIs(t, 24 * d + h, r);
  }

  lemma HourIs(t: int, q: int, r: int)
    requires t == q * HOUR + r && 0 <= r < HOUR
    ensures t / HOUR == q
  {
  }

  lemma StartIsBegin(t: int, g: Granularity)
    ensures StartOfPeriod(t, g) == Begin(Index(t, g), g)
  {
    hide MonthStart, Calendar.MonthFrom, BackToSunday;
    match g
    case Hour => MidnightOf(t); HourFields(t);
    case Day => MidnightOf(t);
    case Week =>
      SundayBefore(t);
      ShiftDay(t, -Weekday(t));
      MidnightOf(t - Weekday(t) * DAY);
    case Month =>
  }

  /** The start of a month is its own first day, so adding a month to it stays on a first day. */
  lemma MonthOfStart(k: int)
    ensures MonthOf(MonthStart(k) * DAY) == k && DayOfMonth(MonthStart(k) * DAY) == 1
  {
    hide MonthStart, Calendar.MonthFrom;
    MonthAtLeast28(k);
    var t := MonthStart(k) * DAY;
    ShiftDay(0, MonthStart(k));
    MonthUnique(DayOf(t), MonthOf(t), k);
  }

  lemma NextIsBegin(t: int, g: Granularity)
    ensures NextPeriod(t, g) == Begin(Index(t, g) + 1, g)
  {
    hide MonthStart, Calendar.MonthFrom, StartOfPeriod, Index;
    StartIsBegin(t, g);
    var i := Index(t, g);
    match g
    case Hour =>
    case Day => AddDays(Begin(i, g), 1);
    case Week => AddDays(Begin(i, g), 7);
    case Month => MonthOfStart(i);
  }

  // ---- The promises ----

  ghost predicate IsPeriodStart(p: int, g: Granularity) {
    StartOfPeriod(p, g) == p
  }

  lemma StartsAreBegins(p: int, g: Granularity)
    ensures IsPeriodStart(p, g) <==> p == Begin(Index(p, g), g)
  {
    StartIsBegin(p, g);
  }

  /** Every instant lies in exactly one period, from its start to just before the next start, and both of
      these are period starts. */
  lemma PeriodsPartitionTime(t: int, g: Granularity)
    ensures StartOfPeriod(t, g) <= t < NextPeriod(t, g)
    ensures IsPeriodStart(StartOfPeriod(t, g), g) && IsPeriodStart(NextPeriod(t, g), g)
    ensures forall p :: IsPeriodStart(p, g) && p <= t < NextPeriod(p, g) ==> p == StartOfPeriod(t, g)
  {
    hide Begin, Index, StartOfPeriod, NextPeriod;
    var i := Index(t, g);
    StartIsBegin(t, g);
    NextIsBegin(t, g);
    InsidePeriod(t, g);
    IndexOfBegin(i, g);
    IndexOfBegin(i + 1, g);
    StartsAreBegins(Begin(i, g), g);
    StartsAreBegins(Begin(i + 1, g), g);
    forall p | IsPeriodStart(p, g) && p <= t < NextPeriod(p, g) ensures p == StartOfPeriod(t, g) {
      StartsAreBegins(p, g);
      NextIsBegin(p, g);
      IndexUnique(t, Index(p, g), g);
    }
  }

  /** Where periods start: on whole hours, at midnights, at the midnights of Sundays (day 3 was one, 1970-01-04), and
      at the midnight of the first day of a month. */
  lemma StartsAre(p: int, g: Granularity)
    ensures IsPeriodStart(p, g) <==>
            match g
            case Hour => p % 3_600_000_000_000 == 0
            case Day => p % 86_400_000_000_000 == 0
            case Week => p % 86_400_000_000_000 == 0 && (p / 86_400_000_000_000 - 3) % 7 == 0
            case Month => exists month :: p == MonthStart(month) * 86_400_000_000_000
  {
    hide StartOfPeriod, MonthStart, Calendar.MonthFrom;
    StartsAreBegins(p, g);
    match g
    case Hour =>
    case Day =>
    case Week => SundaysAre(p);
    case Month =>
      hide Begin, Index;
      if month :| p == MonthStart(month) * 86_400_000_000_000 {
        FirstOfMonth(month);
        IndexOfBegin(month, Month);
      }
      FirstOfMonth(Index(p, Month));
  }

  lemma FirstOfMonth(month: int)
    ensures Begin(month, Month) == MonthStart(month) * 86_400_000_000_000
  {
  }

  lemma SundaysAre(p: int)
    ensures p == Begin(Index(p, Week), Week) <==> p % 86_400_000_000_000 == 0 && (p / 86_400_000_000_000 - 3) % 7 == 0
  {
    var d := DayOf(p);
    assert (d + 4) % 7 == 0 <==> (d - 3) % 7 == 0;
    var w := (d + 4) / 7;
    assert 7 * w - 4 == d <==> (d + 4) % 7 == 0;
    Midnights(p, 7 * w - 4);
  }

  lemma Midnights(p: int, d: int)
    ensures p == d * DAY <==> p % DAY == 0 && p / DAY == d
  {
  }

  /** nextPeriod(t) is the least period start after t. */
  lemma NextIsLeastStart(t: int, p: int, g: Granularity)
    requires IsPeriodStart(p, g) && p > t
    ensures NextPeriod(t, g) <= p
  {
    hide Begin, Index, StartOfPeriod, NextPeriod;
    NextIsBegin(t, g);
    StartsAreBegins(p, g);
    InsidePeriod(t, g);
    var i, j := Index(t, g), Index(p, g);
    if j < i { BeginIncreases(j, i, g); }
    if i + 1 < j { BeginIncreases(i + 1, j, g); }
  }

  lemma StartIsMonotone(t: int, u: int, g: Granularity)
    requires t <= u
    ensures StartOfPeriod(t, g) <= StartOfPeriod(u, g)
  {
    hide Begin, Index, StartOfPeriod;
    StartIsBegin(t, g);
    StartIsBegin(u, g);
    IndexMonotone(t, u, g);
    if Index(t, g) < Index(u, g) { BeginIncreases(Index(t, g), Index(u, g), g); }
  }

  lemma StartIsIdempotent(t: int, g: Granularity)
    ensures StartOfPeriod(StartOfPeriod(t, g), g) == StartOfPeriod(t, g)
  {
    hide Begin, Index, StartOfPeriod, NextPeriod;
    PeriodsPartitionTime(t, g);
  }

  // ---- getPeriodsToProcess ----

  function NonNegative(n: int): nat {
    if n < 0 then 0 else n
  }

  /** The starts of the count periods from number first on. */
  function Consecutive(first: int, count: nat, g: Granularity): (r: seq<int>)
    ensures |r| == count && forall j :: 0 <= j < count ==> r[j] == Begin(first + j, g)
  {
    seq(count, j => Begin(first + j, g))
  }

  /** The periods after the one of lastProcessed that end no later than latestBlockTime. */
  function Complete(lastProcessed: int, latestBlockTime: int, g: Granularity): seq<int> {
    var first := Index(lastProcessed, g) + 1;
    Consecutive(first, NonNegative(Index(latestBlockTime, g) - first), g)
  }

  /** These are, in order, all the periods that start after lastProcessed and have ended at latestBlockTime. */
  lemma CompleteMeans(lastProcessed: int, latest: int, g: Granularity, p: int)
    ensures p in Complete(lastProcessed, latest, g) <==> IsPeriodStart(p, g) && p > lastProcessed && NextPeriod(p, g) <= latest
    ensures var c := Complete(lastProcessed, latest, g); forall i, j :: 0 <= i < j < |c| ==> c[i] < c[j]
  {
    hide Begin, Index, StartOfPeriod, NextPeriod, Consecutive;
    var c, i := Complete(lastProcessed, latest, g), Index(p, g);
    var first := Index(lastProcessed, g) + 1;
    forall j, k | 0 <= j < k < |c| ensures c[j] < c[k] { BeginIncreases(first + j, first + k, g); }
    if p in c {
      var j :| 0 <= j < |c| && c[j] == p;
      IndexOfBegin(first + j, g);
    }
    StartsAreBegins(p, g);
    NextIsBegin(p, g);
    if p == Begin(i, g) {
      AfterIff(lastProcessed, i, g);
      AfterIff(latest, i + 1, g);
      assert 0 <= i - first < |c| ==> c[i - first] == p;
    }
  }

  lemma AfterIff(t: int, i: int, g: Granularity)
    ensures Begin(i, g) > t <==> i > Index(t, g)
    ensures Begin(i, g) <= t <==> i <= Index(t, g)
  {
    hide Begin, Index;
    InsidePeriod(t, g);
    var k := Index(t, g);
    if i < k { BeginIncreases(i, k, g); }
    if i > k + 1 { BeginIncreases(k + 1, i, g); }
  }

  /** getPeriodsToProcess returns exactly the consecutive complete periods, and terminates. */
  method GetPeriodsToProcess(lastProcessed: int, latestBlockTime: int, g: Granularity) returns (periods: seq<int>)
    ensures periods == if IsZero(lastProcessed) then [] else Complete(lastProcessed, latestBlockTime, g)
    ensures forall p :: p in periods ==> IsPeriodStart(p, g) && IsPeriodComplete(p, latestBlockTime, g)
  {
    hide Begin, Index, StartOfPeriod, NextPeriod;
    periods := [];
    if IsZero(lastProcessed) {
      return;
    }
    ghost var first := Index(lastProcessed, g) + 1;
    NextIsBegin(lastProcessed, g);
    var currentPeriod := NextPeriod(lastProcessed, g);
    while IsPeriodComplete(currentPeriod, latestBlockTime, g)
      invariant currentPeriod == Begin(first + |periods|, g)
      invariant periods == Consecutive(first, |periods|, g)
      invariant |periods| > 0 ==> Begin(first + |periods|, g) <= latestBlockTime
      invariant forall p :: p in periods ==> IsPeriodStart(p, g) && IsPeriodComplete(p, latestBlockTime, g)
      decreases latestBlockTime - currentPeriod
    {
      var i := first + |periods|;
      IndexOfBegin(i, g);
      StartsAreBegins(currentPeriod, g);
      NextIsBegin(currentPeriod, g);
      BeginIncreases(i, i + 1, g);
      periods := periods + [currentPeriod];
      currentPeriod := NextPeriod(currentPeriod, g);
    }
    IndexOfBegin(first + |periods|, g);
    NextIsBegin(currentPeriod, g);
    CountComplete(first, |periods|, latestBlockTime, g);
  }

  lemma CountComplete(first: int, n: nat, latest: int, g: Granularity)
    requires n > 0 ==> Begin(first + n, g) <= latest
    requires latest < Begin(first + n + 1, g)
    ensures n == NonNegative(Index(latest, g) - first)
  {
    hide Begin, Index;
    InsidePeriod(latest, g);
    var i := Index(latest, g);
    if i < first + n && n > 0 { if i + 1 < first + n { BeginIncreases(i + 1, first + n, g); } }
    if i > first + n { if i > first + n + 1 { BeginIncreases(first + n + 1, i, g); } }
  }

  // ---- The batch cap ----

  const MAX_PERIODS_PER_BATCH: nat := 6

  function Capped(periods: seq<int>): (r: seq<int>) {
    if |periods| > MAX_PERIODS_PER_BATCH then periods[..MAX_PERIODS_PER_BATCH] else periods
  }

  /** Cycle after cycle at a fixed block time, each starting where the last batch ended. */
  function Batches(lastProcessed: int, latest: int, g: Granularity, cycles: nat): seq<int>
    decreases cycles
  {
    hide Begin, Index;
    var batch := Capped(Complete(lastProcessed, latest, g));
    if cycles == 0 || batch == [] then []
    else batch + Batches(batch[|batch| - 1], latest, g, cycles - 1)
  }

  /** What is left after the last of the first n periods is the rest of the list. */
  lemma CompleteAfter(lastProcessed: int, latest: int, g: Granularity, n: nat)
    requires 0 < n <= |Complete(lastProcessed, latest, g)|
    ensures Complete(Complete(lastProcessed, latest, g)[n - 1], latest, g) == Complete(lastProcessed, latest, g)[n..]
  {
    hide Begin, Index;
    IndexOfBegin(Index(lastProcessed, g) + n, g);
  }

  /** The cap only slices the work: enough capped cycles run exactly the uncapped list, in order. */
  lemma {:induction false} CapReachesEverything(lastProcessed: int, latest: int, g: Granularity, cycles: nat)
    requires |Complete(lastProcessed, latest, g)| <= cycles * MAX_PERIODS_PER_BATCH
    ensures Batches(lastProcessed, latest, g, cycles) == Complete(lastProcessed, latest, g)
    decreases cycles
  {
    hide Begin, Index;
    var all := Complete(lastProcessed, latest, g);
    if all != [] {
      var batch := Capped(all);
      CompleteAfter(lastProcessed, latest, g, |batch|);
      CapReachesEverything(batch[|batch| - 1], latest, g, cycles - 1);
      assert all == all[..|batch|] + all[|batch|..];
    }
  }
}
