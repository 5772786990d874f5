/** pkg/dexvolume/dexvolume.go: days are rolled up forward from the newest one in the table and backward from the
    oldest covered one, a few at a time, with a failure possible at every call. Days are counted from 1970-01-01. */
module DexVolume {
  import opened Base
  import Calendar

  const BACKFILL_DAYS := 365
  const MAX_DAYS_PER_INSERT := 31
  const HISTORY_DAYS_PER_INSERT := 7
  const DAY_2000 := 10957   // 2000-01-01

  /** What is stored. A day counts as rolled up once all of its rows are inserted, and appears in dex_daily once any
      is, so only if it has swaps. */
  datatype Store = Store(rolled: set<int>, daily: set<int>, watermark: Option<int>)

  const EMPTY := Store({}, {}, None)

  /** How a call ends. One that fails may have been applied, or, for a rollup, in part: some days are inserted, and of
      some only a part of the rows. */
  datatype Answer = Succeeds | Fails | FailsApplied | FailsPartly(days: set<int>, torn: set<int>)

  /** One turn of the backward loop: whether the budget allows it, and how its two calls end. */
  datatype Turn = Turn(inTime: bool, rollup: Answer, save: Answer)

  /** One call of Sync. `synced` is the first incomplete day, None when it, or the newest day in the table,
      cannot be read; a Sync may also stop between the two loops, where days are repaired and history is read. */
  datatype Sync = Sync(synced: Option<int>, forward: nat -> Answer, stops: bool, turns: nat -> Turn)

  /** The days of [from, to). */
  function Days(from: int, to: int): (r: set<int>)
    decreases to - from
    ensures forall d :: d in r <==> from <= d < to
  {
    if from >= to then {} else Days(from, to - 1) + {to - 1}
  }

  /** The days with swaps in the tracked pools never change: the factories are fixed. */
  function Insert(s: Store, swaps: set<int>, days: set<int>, shown: set<int>): Store {
    s.(rolled := s.rolled + days, daily := s.daily + shown * swaps)
  }

  function Rollup(s: Store, swaps: set<int>, from: int, to: int, a: Answer): Store {
    match a
    case Fails => s
    case FailsPartly(days, torn) => Insert(s, swaps, Days(from, to) * days, Days(from, to) * (days + torn))
    case _ => Insert(s, swaps, Days(from, to), Days(from, to))
  }

  function SaveWatermark(s: Store, from: int, a: Answer): Store {
    if a.Succeeds? || a.FailsApplied? then s.(watermark := Some(from)) else s
  }

  ghost predicate IsLast(s: set<int>, m: int) {
    m in s && forall d :: d in s ==> d <= m
  }

  ghost predicate IsFirst(s: set<int>, m: int) {
    m in s && forall d :: d in s ==> d >= m
  }

  /** max(day) and min(day): the zero date for an empty table. */
  ghost function LastDay(s: set<int>): (m: int)
    ensures if s == {} then m == 0 else IsLast(s, m)
  {
    if s == {} then 0
    else
      HasEnds(s);
      var m :| IsLast(s, m);
      m
  }

  ghost function FirstDay(s: set<int>): (m: int)
    ensures if s == {} then m == 0 else IsFirst(s, m)
  {
    if s == {} then 0
    else
      HasEnds(s);
      var m :| IsFirst(s, m);
      m
  }

  lemma HasElement(s: set<int>)
    ensures s == {} || exists x :: x in s
  {
    if forall x :: x !in s { assert s == {}; }
  }

  lemma {:induction false} HasEnds(s: set<int>)
    requires s != {}
    ensures exists m :: IsLast(s, m)
    ensures exists m :: IsFirst(s, m)
    decreases |s|
  {
    HasElement(s);
    var x :| x in s;
    var rest := s - {x};
    assert forall d :: d in s <==> d == x || d in rest;
    if rest == {} {
      assert IsLast(s, x) && IsFirst(s, x);
    } else {
      HasEnds(rest);
      var hi :| IsLast(rest, hi);
      var lo :| IsFirst(rest, lo);
      assert IsLast(s, if x > hi then x else hi);
      assert IsFirst(s, if x < lo then x else lo);
    }
  }

  // ---- The two loops, as functions of the store ----

  /** Where the forward loop begins. */
  ghost function ForwardFrom(s: Store, end: int): int {
    if LastDay(s.daily) < DAY_2000 then end - BACKFILL_DAYS else LastDay(s.daily) + 1
  }

  /** The forward loop from a day on; it succeeds when no call fails. */
  function Forward(s: Store, swaps: set<int>, from: int, end: int, answers: nat -> Answer, n: nat): (Store, bool)
    decreases end - from
  {
    if from >= end then (s, true)
    else
      var to := if from + MAX_DAYS_PER_INSERT > end then end else from + MAX_DAYS_PER_INSERT;
      var s' := Rollup(s, swaps, from, to, answers(n));
      if answers(n).Succeeds? then Forward(s', swaps, to, end, answers, n + 1) else (s', false)
  }

  /** The first day the backward loop takes as covered, None when nothing is rolled up yet. */
  ghost function CoveredFrom(s: Store): Option<int> {
    if s.watermark.Some? then s.watermark
    else if FirstDay(s.daily) < DAY_2000 then None
    else Some(FirstDay(s.daily))
  }

  /** The backward loop. */
  function Backward(s: Store, swaps: set<int>, first: int, covered: int, turns: nat -> Turn, n: nat): Store
    decreases covered - first
  {
    if covered <= first || !turns(n).inTime then s
    else
      var from := if covered - HISTORY_DAYS_PER_INSERT < first then first else covered - HISTORY_DAYS_PER_INSERT;
      var s1 := Rollup(s, swaps, from, covered, turns(n).rollup);
      if !turns(n).rollup.Succeeds? then s1
      else
        var s2 := SaveWatermark(s1, from, turns(n).save);
        if !turns(n).save.Succeeds? then s2 else Backward(s2, swaps, first, from, turns, n + 1)
  }

  /** One call of Sync. `first` is the day of the first tracked pool, before 2000 when there is none. */
  ghost function AfterSync(s: Store, swaps: set<int>, first: int, c: Sync): Store {
    if c.synced.None? then s
    else
      var (s1, ok) := Forward(s, swaps, ForwardFrom(s, c.synced.value), c.synced.value, c.forward, 0);
      if !ok || c.stops || first < DAY_2000 || CoveredFrom(s1).None? then s1
      else Backward(s1, swaps, first, CoveredFrom(s1).value, c.turns, 0)
  }

  ghost function After(s: Store, swaps: set<int>, first: int, cs: seq<Sync>): Store {
    if cs == [] then s else AfterSync(After(s, swaps, first, cs[..|cs| - 1]), swaps, first, cs[|cs| - 1])
  }

  // ---- The invariant ----

  ghost predicate AllRolled(s: Store, from: int, to: int) {
    forall d :: from <= d < to ==> d in s.rolled
  }

  /** Every swap is on or after 2000-01-01. */
  ghost predicate Dated(swaps: set<int>) {
    forall d :: d in swaps ==> d >= DAY_2000
  }

  /** The rolled-up days with swaps are in the table, and from the covered day to the newest day in the table every
      day is rolled up. */
  ghost predicate Inv(s: Store, swaps: set<int>) {
    && s.rolled * swaps <= s.daily <= swaps
    && (s.daily == {} ==> s.watermark.None?)
    && (s.watermark.Some? ==> s.watermark.value <= LastDay(s.daily))
    && (CoveredFrom(s).Some? ==> AllRolled(s, CoveredFrom(s).value, LastDay(s.daily) + 1))
  }

  /** The forward loop has rolled up everything before `at`. */
  ghost predicate Reached(s: Store, swaps: set<int>, from: int, at: int) {
    && Inv(s, swaps)
    && (forall d :: d in s.daily ==> d < at)
    && AllRolled(s, if CoveredFrom(s).None? then from else CoveredFrom(s).value, at)
  }

  /** A day that is not rolled up between the covered day and the newest day in the table. */
  ghost predicate Gap(s: Store, swaps: set<int>, g: int) {
    && s.daily <= swaps && s.daily != {} && CoveredFrom(s).Some?
    && CoveredFrom(s).value <= g <= LastDay(s.daily) && g !in s.rolled
  }

  ghost predicate HasGap(s: Store, swaps: set<int>) {
    exists g :: Gap(s, swaps, g)
  }

  // ---- When a rollup that is applied in part does no harm ----

  /** Forward: no day that has neither been inserted entirely nor rolled up before comes between the days in the
      table, if any, or a shown day with swaps, and a shown day with swaps, these days included. */
  ghost predicate HarmlessForward(s: Store, swaps: set<int>, from: int, to: int, part: set<int>, torn: set<int>) {
    var shown := (part + torn) * swaps;
    if s.daily != {} then
      forall g, h :: from <= g <= h < to && h in shown ==> g in part || g in s.rolled
    else
      forall f, g, h :: from <= f <= g <= h < to && f in shown && h in shown ==> g in part || g in s.rolled
  }

  /** Backward: the watermark is what counts, or no day that has neither been inserted entirely nor rolled up before
      comes after a shown day with swaps or is one. */
  ghost predicate HarmlessBackward(s: Store, swaps: set<int>, from: int, to: int, part: set<int>, torn: set<int>) {
    var shown := (part + torn) * swaps;
    s.watermark.Some? || forall g, h :: from <= h <= g < to && h in shown ==> g in part || g in s.rolled
  }

  /** Every rollup of the forward loop that is applied in part does no harm where it happens. */
  ghost predicate ForwardHarmless(s: Store, swaps: set<int>, from: int, end: int, answers: nat -> Answer, n: nat)
    decreases end - from
  {
    from < end ==>
      var to := if from + MAX_DAYS_PER_INSERT > end then end else from + MAX_DAYS_PER_INSERT;
      && (answers(n).FailsPartly? ==> HarmlessForward(s, swaps, from, to, answers(n).days, answers(n).torn))
      && (answers(n).Succeeds? ==> ForwardHarmless(Rollup(s, swaps, from, to, answers(n)), swaps, to, end, answers, n + 1))
  }

  /** The same of the backward loop. */
  ghost predicate BackwardHarmless(s: Store, swaps: set<int>, first: int, covered: int, turns: nat -> Turn, n: nat)
    decreases covered - first
  {
    covered > first && turns(n).inTime ==>
      var from := if covered - HISTORY_DAYS_PER_INSERT < first then first else covered - HISTORY_DAYS_PER_INSERT;
      var s2 := SaveWatermark(Rollup(s, swaps, from, covered, turns(n).rollup), from, turns(n).save);
      && (turns(n).rollup.FailsPartly? ==> HarmlessBackward(s, swaps, from, covered, turns(n).rollup.days, turns(n).rollup.torn))
      && (turns(n).rollup.Succeeds? && turns(n).save.Succeeds? ==>
            BackwardHarmless(s2, swaps, first, from, turns, n + 1))
  }

  ghost predicate SyncHarmless(s: Store, swaps: set<int>, first: int, c: Sync) {
    c.synced.Some? ==>
      var (s1, ok) := Forward(s, swaps, ForwardFrom(s, c.synced.value), c.synced.value, c.forward, 0);
      && ForwardHarmless(s, swaps, ForwardFrom(s, c.synced.value), c.synced.value, c.forward, 0)
      && (ok && !c.stops && first >= DAY_2000 && CoveredFrom(s1).Some? ==>
            BackwardHarmless(s1, swaps, first, CoveredFrom(s1).value, c.turns, 0))
  }

  /** Every rollup of the run that is applied in part does no harm. */
  ghost predicate AllHarmless(s: Store, swaps: set<int>, first: int, cs: seq<Sync>) {
    forall i :: 0 <= i < |cs| ==> SyncHarmless(After(s, swaps, first, cs[..i]), swaps, first, cs[i])
  }

  // ---- The forward loop ----

  /** What an INSERT does to the table's ends. */
  lemma InsertEnds(s: Store, swaps: set<int>, days: set<int>, shown: set<int>, from: int, to: int)
    requires days <= shown && forall d :: d in shown ==> from <= d < to
    ensures var s' := Insert(s, swaps, days, shown);
            && (s'.daily != {} ==> (s.daily != {} && LastDay(s'.daily) == LastDay(s.daily)) || from <= LastDay(s'.daily) < to)
            && (s'.daily != {} ==> (s.daily != {} && FirstDay(s'.daily) == FirstDay(s.daily)) || from <= FirstDay(s'.daily) < to)
            && (s.daily != {} ==> s'.daily != {} && LastDay(s'.daily) >= LastDay(s.daily) && FirstDay(s'.daily) <= FirstDay(s.daily))
            && s'.watermark == s.watermark
            && (s.rolled * swaps <= s.daily <= swaps ==> s'.rolled * swaps <= s'.daily <= swaps)
            && (forall d :: d in s'.rolled <==> d in s.rolled || d in days)
  {
    var s' := Insert(s, swaps, days, shown);
    assert forall d :: d in s'.daily <==> d in s.daily || (d in swaps && d in shown);
    if s.daily != {} {
      assert LastDay(s.daily) in s'.daily && FirstDay(s.daily) in s'.daily;
    }
  }

  lemma RollForward(s: Store, swaps: set<int>, from: int, at: int, to: int)
    requires Dated(swaps) && Reached(s, swaps, from, at) && from <= at < to
    ensures var s' := Insert(s, swaps, Days(at, to), Days(at, to));
            Reached(s', swaps, from, to) && (CoveredFrom(s).Some? ==> CoveredFrom(s') == CoveredFrom(s))
  {
    var s' := Insert(s, swaps, Days(at, to), Days(at, to));
    InsertEnds(s, swaps, Days(at, to), Days(at, to), at, to);
    hide Insert;
    if s.daily != {} { assert LastDay(s.daily) in s.daily && FirstDay(s.daily) in s.daily; }
    if s'.daily != {} { assert LastDay(s'.daily) in s'.daily && FirstDay(s'.daily) in s'.daily; }
  }

  lemma StartForward(s: Store, swaps: set<int>, end: int)
    requires Dated(swaps) && Inv(s, swaps)
    ensures Reached(s, swaps, ForwardFrom(s, end), ForwardFrom(s, end))
  {
    if s.daily != {} { assert LastDay(s.daily) in swaps && FirstDay(s.daily) in swaps; }
  }

  lemma InvOrGap(s: Store, swaps: set<int>)
    requires Dated(swaps) && s.rolled * swaps <= s.daily <= swaps
    requires s.daily == {} ==> s.watermark.None?
    requires s.watermark.Some? ==> s.watermark.value <= LastDay(s.daily)
    ensures Inv(s, swaps) <==> !HasGap(s, swaps)
  {
    if !Inv(s, swaps) {
      var g :| CoveredFrom(s).value <= g < LastDay(s.daily) + 1 && g !in s.rolled;
      assert Gap(s, swaps, g);
    }
  }

  /** A forward rollup that fails after inserting some of its days keeps the invariant if and only if it meets its
      condition, and leaves a gap otherwise, whether or not the table was empty. */
  lemma PartialForwardIff(s: Store, swaps: set<int>, from: int, at: int, to: int, part: set<int>, torn: set<int>)
    requires Dated(swaps) && Reached(s, swaps, from, at) && at < to
    ensures var s' := Rollup(s, swaps, at, to, FailsPartly(part, torn));
            && (Inv(s', swaps) <==> HarmlessForward(s, swaps, at, to, part, torn))
            && (Inv(s', swaps) <==> !HasGap(s', swaps))
            && (CoveredFrom(s).Some? ==> CoveredFrom(s') == CoveredFrom(s))
  {
    var days, shown := Days(at, to) * part, Days(at, to) * (part + torn);
    var s' := Insert(s, swaps, days, shown);
    InsertEnds(s, swaps, days, shown, at, to);
    if s.daily != {} { assert FirstDay(s.daily) in swaps && LastDay(s.daily) in s.daily; }
    if s'.daily != {} { assert FirstDay(s'.daily) in swaps && LastDay(s'.daily) in swaps; }
    InvOrGap(s', swaps);
    forall h | at <= h < to && h in (part + torn) * swaps
      ensures h in s'.daily && FirstDay(s'.daily) <= h <= LastDay(s'.daily)
    {
      assert h in shown;
    }
    assert forall h :: h in s'.daily && h !in s.daily ==> at <= h < to && h in (part + torn) * swaps;
    if s.daily == {} && s'.daily != {} { assert FirstDay(s'.daily) in (part + torn) * swaps; }
    if s'.daily != {} && LastDay(s'.daily) >= at { assert LastDay(s'.daily) in (part + torn) * swaps; }
    hide Insert, HasGap;
  }

  /** The forward loop keeps the invariant if and only if its partial rollups are harmless, and when it succeeds
      every complete day from the covered one on is rolled up. */
  lemma {:induction false} ForwardInv(s: Store, swaps: set<int>, from: int, at: int, end: int, answers: nat -> Answer, n: nat)
    requires Dated(swaps) && Reached(s, swaps, from, at) && from <= at
    ensures var (s', ok) := Forward(s, swaps, at, end, answers, n);
            && (Inv(s', swaps) <==> ForwardHarmless(s, swaps, at, end, answers, n))
            && (Inv(s', swaps) || HasGap(s', swaps))
            && (CoveredFrom(s).Some? ==> CoveredFrom(s') == CoveredFrom(s))
            && (ok ==> Reached(s', swaps, from, if at > end then at else end))
    decreases end - at
  {
    ReachedInv(s, swaps, from, at);
    if at < end {
      var to := if at + MAX_DAYS_PER_INSERT > end then end else at + MAX_DAYS_PER_INSERT;
      RollForward(s, swaps, from, at, to);
      var s1 := Insert(s, swaps, Days(at, to), Days(at, to));
      ReachedInv(s1, swaps, from, to);
      hide Reached, Inv, Insert, HasGap, HarmlessForward;
      if answers(n).FailsPartly? { PartialForwardIff(s, swaps, from, at, to, answers(n).days, answers(n).torn); }
      if answers(n).Succeeds? { ForwardInv(s1, swaps, from, to, end, answers, n + 1); }
    }
  }

  lemma ReachedInv(s: Store, swaps: set<int>, from: int, at: int)
    requires Reached(s, swaps, from, at)
    ensures Inv(s, swaps)
  {
  }

  // ---- The backward loop ----

  /** The backward loop has rolled up everything from `covered` to the newest day in the table. */
  ghost predicate Filled(s: Store, swaps: set<int>, covered: int) {
    && Inv(s, swaps) && s.daily != {}
    && covered <= LastDay(s.daily)
    && AllRolled(s, covered, LastDay(s.daily) + 1)
  }

  lemma RollBackward(s: Store, swaps: set<int>, from: int, covered: int)
    requires Dated(swaps) && Filled(s, swaps, covered) && from < covered
    ensures var s' := Insert(s, swaps, Days(from, covered), Days(from, covered));
            && Filled(s', swaps, from)
            && LastDay(s'.daily) == LastDay(s.daily)
            && Filled(s'.(watermark := Some(from)), swaps, from)
            && Inv(s'.(watermark := Some(from)), swaps)
  {
    var s' := Insert(s, swaps, Days(from, covered), Days(from, covered));
    InsertEnds(s, swaps, Days(from, covered), Days(from, covered), from, covered);
    hide Insert;
    assert LastDay(s.daily) in swaps && FirstDay(s.daily) in swaps;
    assert FirstDay(s'.daily) in s'.daily && FirstDay(s'.daily) in swaps;
  }

  /** A backward rollup that fails after inserting some of its days keeps the invariant if and only if it meets its
      condition, and leaves a gap otherwise. */
  lemma PartialBackwardIff(s: Store, swaps: set<int>, from: int, covered: int, part: set<int>, torn: set<int>)
    requires Dated(swaps) && Filled(s, swaps, covered) && from < covered
    requires s.watermark.None? ==> covered <= FirstDay(s.daily)
    ensures var s' := Rollup(s, swaps, from, covered, FailsPartly(part, torn));
            && (Inv(s', swaps) <==> HarmlessBackward(s, swaps, from, covered, part, torn))
            && (Inv(s', swaps) <==> !HasGap(s', swaps))
            && s'.daily != {} && LastDay(s'.daily) == LastDay(s.daily) && s'.rolled >= s.rolled
  {
    var days, shown := Days(from, covered) * part, Days(from, covered) * (part + torn);
    var s' := Insert(s, swaps, days, shown);
    InsertEnds(s, swaps, days, shown, from, covered);
    assert LastDay(s.daily) in swaps && FirstDay(s.daily) in swaps;
    assert FirstDay(s'.daily) in s'.daily && FirstDay(s'.daily) in swaps;
    InvOrGap(s', swaps);
    forall h | from <= h < covered && h in (part + torn) * swaps ensures FirstDay(s'.daily) <= h {
      assert h in shown && h in s'.daily;
    }
    assert FirstDay(s'.daily) !in s.daily ==> FirstDay(s'.daily) in (part + torn) * swaps;
    hide Insert, HasGap;
  }

  lemma {:induction false} BackwardInv(s: Store, swaps: set<int>, first: int, covered: int, turns: nat -> Turn, n: nat)
    requires Dated(swaps) && Filled(s, swaps, covered)
    requires s.watermark.None? ==> covered <= FirstDay(s.daily)
    ensures var s' := Backward(s, swaps, first, covered, turns, n);
            && (Inv(s', swaps) <==> BackwardHarmless(s, swaps, first, covered, turns, n))
            && (Inv(s', swaps) || HasGap(s', swaps))
            && s'.daily != {} && LastDay(s'.daily) == LastDay(s.daily) && s'.rolled >= s.rolled
    decreases covered - first
  {
    if covered > first && turns(n).inTime {
      var from := if covered - HISTORY_DAYS_PER_INSERT < first then first else covered - HISTORY_DAYS_PER_INSERT;
      RollBackward(s, swaps, from, covered);
      var s1 := Insert(s, swaps, Days(from, covered), Days(from, covered));
      assert s1.rolled >= s.rolled && Inv(s, swaps) && Inv(s1, swaps) && s.daily != {} && s1.daily != {};
      if turns(n).rollup.FailsPartly? { PartialBackwardIff(s, swaps, from, covered, turns(n).rollup.days, turns(n).rollup.torn); }
      hide Filled, Inv, Insert, Days, HasGap, HarmlessBackward;
      if turns(n).rollup.Succeeds? && turns(n).save.Succeeds? {
        BackwardInv(s1.(watermark := Some(from)), swaps, first, from, turns, n + 1);
      }
    }
  }

  // ---- One Sync ----

  lemma CoveredIsFilled(s: Store, swaps: set<int>)
    requires Dated(swaps) && Inv(s, swaps) && CoveredFrom(s).Some?
    ensures Filled(s, swaps, CoveredFrom(s).value)
    ensures s.watermark.None? ==> CoveredFrom(s).value <= FirstDay(s.daily)
  {
  }

  /** Whether syncDays reports success. */
  ghost predicate ForwardDone(s: Store, swaps: set<int>, c: Sync) {
    c.synced.Some? && Forward(s, swaps, ForwardFrom(s, c.synced.value), c.synced.value, c.forward, 0).1
  }

  /** However its calls end, a Sync keeps the invariant if its partial rollups are harmless, and leaves a gap if one
      is not. If its forward loop succeeds as well, every complete day from the covered day on is rolled up. */
  lemma SyncInv(s: Store, swaps: set<int>, first: int, c: Sync)
    requires Dated(swaps) && Inv(s, swaps)
    ensures var s' := AfterSync(s, swaps, first, c);
            && (Inv(s', swaps) <==> SyncHarmless(s, swaps, first, c))
            && (Inv(s', swaps) || HasGap(s', swaps))
            && (ForwardDone(s, swaps, c) && SyncHarmless(s, swaps, first, c) && CoveredFrom(s').Some? ==>
                  AllRolled(s', CoveredFrom(s').value, c.synced.value))
  {
    if c.synced.Some? {
      var end := c.synced.value;
      var from := ForwardFrom(s, end);
      StartForward(s, swaps, end);
      ForwardInv(s, swaps, from, from, end, c.forward, 0);
      var (s1, ok) := Forward(s, swaps, from, end, c.forward, 0);
      if ok { ReachedInv(s1, swaps, from, if from > end then from else end); }
      if ok && !c.stops && first >= DAY_2000 && CoveredFrom(s1).Some? {
        CoveredIsFilled(s1, swaps);
        var s' := Backward(s1, swaps, first, CoveredFrom(s1).value, c.turns, 0);
        BackwardInv(s1, swaps, first, CoveredFrom(s1).value, c.turns, 0);
        if Inv(s', swaps) { JoinRanges(s1, s', swaps, CoveredFrom(s1).value, end); }
      }
    }
  }

  lemma {:induction false} ForwardSucceeds(s: Store, swaps: set<int>, from: int, end: int, answers: nat -> Answer, n: nat)
    requires forall k: nat :: answers(k).Succeeds?
    ensures Forward(s, swaps, from, end, answers, n).1
    decreases end - from
  {
    if from < end {
      var to := if from + MAX_DAYS_PER_INSERT > end then end else from + MAX_DAYS_PER_INSERT;
      ForwardSucceeds(Rollup(s, swaps, from, to, answers(n)), swaps, to, end, answers, n + 1);
    }
  }

  lemma JoinRanges(s1: Store, s': Store, swaps: set<int>, covered: int, end: int)
    requires Dated(swaps) && Inv(s', swaps) && s1.rolled <= s'.rolled && AllRolled(s1, covered, end)
    requires s'.daily != {} && covered <= LastDay(s'.daily)
    ensures CoveredFrom(s').Some? ==> AllRolled(s', CoveredFrom(s').value, end)
  {
  }

  // ---- Only complete days ----

  /** Every rolled-up day is before `latest`, and the table and the watermark do not run ahead either. */
  ghost predicate Behind(s: Store, latest: int) {
    && (forall d :: d in s.rolled || d in s.daily ==> d < latest)
    && (s.watermark.Some? ==> s.watermark.value <= latest)
  }

  lemma {:induction false} ForwardBehind(s: Store, swaps: set<int>, at: int, end: int, answers: nat -> Answer, n: nat, latest: int)
    requires Behind(s, latest) && end <= latest
    ensures Behind(Forward(s, swaps, at, end, answers, n).0, latest)
    decreases end - at
  {
    if at < end {
      var to := if at + MAX_DAYS_PER_INSERT > end then end else at + MAX_DAYS_PER_INSERT;
      var s' := Rollup(s, swaps, at, to, answers(n));
      if answers(n).Succeeds? { ForwardBehind(s', swaps, to, end, answers, n + 1, latest); }
    }
  }

  lemma {:induction false} BackwardBehind(s: Store, swaps: set<int>, first: int, covered: int, turns: nat -> Turn, n: nat, latest: int)
    requires Behind(s, latest) && covered <= latest
    ensures Behind(Backward(s, swaps, first, covered, turns, n), latest)
    decreases covered - first
  {
    if covered > first && turns(n).inTime {
      var from := if covered - HISTORY_DAYS_PER_INSERT < first then first else covered - HISTORY_DAYS_PER_INSERT;
      var s1 := Rollup(s, swaps, from, covered, turns(n).rollup);
      if turns(n).rollup.Succeeds? && turns(n).save.Succeeds? {
        BackwardBehind(SaveWatermark(s1, from, turns(n).save), swaps, first, from, turns, n + 1, latest);
      }
    }
  }

  /** A day is never rolled up before it is complete: every rolled-up day is before the latest first incomplete
      day any Sync has seen. */
  lemma {:induction false} OnlyCompleteDays(swaps: set<int>, first: int, cs: seq<Sync>, latest: int)
    requires forall c :: c in cs && c.synced.Some? ==> c.synced.value <= latest
    ensures Behind(After(EMPTY, swaps, first, cs), latest)
  {
    if cs != [] {
      var before, c := cs[..|cs| - 1], cs[|cs| - 1];
      OnlyCompleteDays(swaps, first, before, latest);
      var s := After(EMPTY, swaps, first, before);
      if c.synced.Some? {
        var end := c.synced.value;
        var from := ForwardFrom(s, end);
        ForwardBehind(s, swaps, from, end, c.forward, 0, latest);
        var s1 := Forward(s, swaps, from, end, c.forward, 0).0;
        hide Forward, Backward;
        if CoveredFrom(s1).Some? { BackwardBehind(s1, swaps, first, CoveredFrom(s1).value, c.turns, 0, latest); }
      }
    }
  }

  // ---- Progress ----

  /** A Sync in which no call fails and the budget allows at least one turn of the backward loop. */
  ghost predicate Smooth(c: Sync) {
    && c.synced.Some? && !c.stops && c.turns(0).inTime
    && (forall n: nat :: c.forward(n).Succeeds?)
    && (forall n: nat :: c.turns(n).rollup.Succeeds? && c.turns(n).save.Succeeds?)
  }

  lemma {:induction false} ForwardSmooth(s: Store, swaps: set<int>, at: int, end: int, answers: nat -> Answer, n: nat)
    requires forall k: nat :: answers(k).Succeeds?
    ensures ForwardHarmless(s, swaps, at, end, answers, n)
    decreases end - at
  {
    if at < end {
      var to := if at + MAX_DAYS_PER_INSERT > end then end else at + MAX_DAYS_PER_INSERT;
      ForwardSmooth(Rollup(s, swaps, at, to, answers(n)), swaps, to, end, answers, n + 1);
    }
  }

  lemma {:induction false} BackwardSmooth(s: Store, swaps: set<int>, first: int, covered: int, turns: nat -> Turn, n: nat)
    requires forall k: nat :: turns(k).rollup.Succeeds?
    ensures BackwardHarmless(s, swaps, first, covered, turns, n)
    decreases covered - first
  {
    if covered > first && turns(n).inTime {
      var from := if covered - HISTORY_DAYS_PER_INSERT < first then first else covered - HISTORY_DAYS_PER_INSERT;
      var s1 := Rollup(s, swaps, from, covered, turns(n).rollup);
      BackwardSmooth(SaveWatermark(s1, from, turns(n).save), swaps, first, from, turns, n + 1);
    }
  }

  lemma SmoothHarmless(s: Store, swaps: set<int>, first: int, c: Sync)
    requires Smooth(c)
    ensures SyncHarmless(s, swaps, first, c)
  {
    var end := c.synced.value;
    ForwardSmooth(s, swaps, ForwardFrom(s, end), end, c.forward, 0);
    var s1 := Forward(s, swaps, ForwardFrom(s, end), end, c.forward, 0).0;
    assert forall k: nat :: c.turns(k).rollup.Succeeds? && c.turns(k).save.Succeeds?;
    if CoveredFrom(s1).Some? { BackwardSmooth(s1, swaps, first, CoveredFrom(s1).value, c.turns, 0); }
  }

  lemma {:induction false} BackwardDown(s: Store, swaps: set<int>, first: int, covered: int, turns: nat -> Turn, n: nat)
    requires s.watermark == Some(covered)
    ensures var w := Backward(s, swaps, first, covered, turns, n).watermark;
            w.Some? && w.value <= covered && (covered >= first ==> w.value >= first)
    decreases covered - first
  {
    if covered > first && turns(n).inTime {
      var from := if covered - HISTORY_DAYS_PER_INSERT < first then first else covered - HISTORY_DAYS_PER_INSERT;
      var s1 := Rollup(s, swaps, from, covered, turns(n).rollup);
      if turns(n).rollup.Succeeds? && turns(n).save.Succeeds? {
        BackwardDown(SaveWatermark(s1, from, turns(n).save), swaps, first, from, turns, n + 1);
      }
    }
  }

  /** A smooth Sync extends the covered days by seven, or to the first pool's day, and does not go further when
      the budget allows one turn only. */
  lemma HistoryAdvances(s: Store, swaps: set<int>, first: int, c: Sync)
    requires Dated(swaps) && Inv(s, swaps) && first >= DAY_2000 && Smooth(c) && CoveredFrom(s).Some?
    ensures var was, now := CoveredFrom(s).value, CoveredFrom(AfterSync(s, swaps, first, c));
            var down := if was - 7 > first then was - 7 else if was > first then first else was;
            now.Some? && now.value <= down && (!c.turns(1).inTime && was > first ==> now.value == down)
  {
    var end := c.synced.value;
    var from := ForwardFrom(s, end);
    StartForward(s, swaps, end);
    ForwardSucceeds(s, swaps, from, end, c.forward, 0);
    ForwardInv(s, swaps, from, from, end, c.forward, 0);
    hide Forward, Inv, Reached;
    var s1 := Forward(s, swaps, from, end, c.forward, 0).0;
    var covered := CoveredFrom(s1).value;
    if covered > first {
      var to := if covered - HISTORY_DAYS_PER_INSERT < first then first else covered - HISTORY_DAYS_PER_INSERT;
      assert c.turns(0).rollup.Succeeds? && c.turns(0).save.Succeeds?;
      BackwardDown(Rollup(s1, swaps, to, covered, Succeeds).(watermark := Some(to)), swaps, first, to, c.turns, 1);
    }
  }

  /** So history is complete after finitely many smooth Syncs: from any store a run can reach with something
      rolled up, one seventh of the missing days, rounded up, is enough. */
  lemma HistoryCompletes(s: Store, swaps: set<int>, first: int, cs: seq<Sync>)
    requires Dated(swaps) && Inv(s, swaps) && first >= DAY_2000 && CoveredFrom(s).Some?
    requires forall c :: c in cs ==> Smooth(c)
    requires 7 * |cs| >= CoveredFrom(s).value - first && cs != []
    ensures var end := cs[|cs| - 1].synced;
            end.Some? && AllRolled(After(s, swaps, first, cs), first, end.value)
  {
    var before, c := cs[..|cs| - 1], cs[|cs| - 1];
    Descends(s, swaps, first, before);
    Descends(s, swaps, first, cs);
    assert Smooth(c);
    hide AfterSync, Inv;
    var m := After(s, swaps, first, before);
    SmoothHarmless(m, swaps, first, c);
    ForwardSucceeds(m, swaps, ForwardFrom(m, c.synced.value), c.synced.value, c.forward, 0);
    SyncInv(m, swaps, first, c);
  }

  lemma {:induction false} Descends(s: Store, swaps: set<int>, first: int, cs: seq<Sync>)
    requires Dated(swaps) && Inv(s, swaps) && first >= DAY_2000 && CoveredFrom(s).Some?
    requires forall c :: c in cs ==> Smooth(c)
    ensures var s' := After(s, swaps, first, cs);
            && Inv(s', swaps) && CoveredFrom(s').Some?
            && (CoveredFrom(s').value <= first || CoveredFrom(s').value <= CoveredFrom(s).value - 7 * |cs|)
  {
    if cs != [] {
      var before, c := cs[..|cs| - 1], cs[|cs| - 1];
      Descends(s, swaps, first, before);
      assert Smooth(c);
      SmoothHarmless(After(s, swaps, first, before), swaps, first, c);
      HistoryAdvances(After(s, swaps, first, before), swaps, first, c);
      SyncInv(After(s, swaps, first, before), swaps, first, c);
      hide AfterSync, Inv, CoveredFrom;
    }
  }

  // ---- What is rolled up ----

  lemma Day2000()
    ensures DAY_2000 == Calendar.YearStart(2000)
  {
  }

  /** A forward loop that succeeds rolls up exactly its days. */
  lemma {:induction false} ForwardRolls(s: Store, swaps: set<int>, at: int, end: int, answers: nat -> Answer, n: nat)
    requires Forward(s, swaps, at, end, answers, n).1
    ensures var s' := Forward(s, swaps, at, end, answers, n).0;
            && (forall d :: d in s'.rolled <==> d in s.rolled || at <= d < end)
            && (forall d :: d in s'.daily <==> d in s.daily || (at <= d < end && d in swaps))
            && s'.watermark == s.watermark
    decreases end - at
  {
    if at < end {
      var to := if at + MAX_DAYS_PER_INSERT > end then end else at + MAX_DAYS_PER_INSERT;
      ForwardRolls(Rollup(s, swaps, at, to, answers(n)), swaps, to, end, answers, n + 1);
    }
  }

  /** The forward loop inserts up to 31 days at a time: it succeeds if and only if as many calls as that takes do. */
  lemma {:induction false} ForwardSucceedsIff(s: Store, swaps: set<int>, at: int, end: int, answers: nat -> Answer, n: nat)
    ensures Forward(s, swaps, at, end, answers, n).1 <==>
            forall k: nat :: n <= k < n + (if at < end then (end - at + 30) / 31 else 0) ==> answers(k).Succeeds?
    decreases end - at
  {
    if at < end {
      var to := if at + MAX_DAYS_PER_INSERT > end then end else at + MAX_DAYS_PER_INSERT;
      assert (end - at + 30) / 31 - 1 == if to < end then (end - to + 30) / 31 else 0;
      ForwardSucceedsIff(Rollup(s, swaps, at, to, answers(n)), swaps, to, end, answers, n + 1);
    }
  }

  /** The backward loop touches only days from the first pool's day up to the covered day. */
  lemma {:induction false} BackwardRolls(s: Store, swaps: set<int>, first: int, covered: int, turns: nat -> Turn, n: nat)
    ensures var s' := Backward(s, swaps, first, covered, turns, n);
            forall d :: (d in s.rolled ==> d in s'.rolled) && (d in s'.rolled ==> d in s.rolled || first <= d < covered)
    decreases covered - first
  {
    if covered > first && turns(n).inTime {
      var from := if covered - HISTORY_DAYS_PER_INSERT < first then first else covered - HISTORY_DAYS_PER_INSERT;
      var s1 := Rollup(s, swaps, from, covered, turns(n).rollup);
      if turns(n).rollup.Succeeds? && turns(n).save.Succeeds? {
        BackwardRolls(SaveWatermark(s1, from, turns(n).save), swaps, first, from, turns, n + 1);
      }
    }
  }

  lemma {:induction false} StartsForward(s: Store, swaps: set<int>, end: int)
    requires Dated(swaps) && s.daily <= swaps
    ensures ForwardFrom(s, end) == if s.daily == {} then end - 365 else LastDay(s.daily) + 1
    ensures s.daily != {} ==> LastDay(s.daily) in s.daily && FirstDay(s.daily) in s.daily
  {
    if s.daily != {} { assert LastDay(s.daily) in swaps; }
  }

  /** A Sync whose forward loop succeeds rolls up every day after the newest one in the table, or the last 365 days
      when the table is empty, to the day before the first incomplete one. Whatever else it rolls up lies, by way of
      the history, between the first pool's day and the oldest covered day, and without history there is nothing. */
  lemma SyncRollsUp(s: Store, swaps: set<int>, first: int, c: Sync)
    requires Dated(swaps) && Inv(s, swaps) && ForwardDone(s, swaps, c)
    ensures var s', end := AfterSync(s, swaps, first, c), c.synced.value;
            var from := if s.daily == {} then end - 365 else LastDay(s.daily) + 1;
            && (forall d :: d in s.rolled || from <= d < end ==> d in s'.rolled)
            && (forall d :: d in s'.rolled ==>
                  || d in s.rolled || from <= d < end
                  || (!c.stops && first >= 10957 && first <= d
                      && d < if s.daily == {} then from else CoveredFrom(s).value))
  {
    var end := c.synced.value;
    var at := ForwardFrom(s, end);
    StartsForward(s, swaps, end);
    ForwardRolls(s, swaps, at, end, c.forward, 0);
    var s1 := Forward(s, swaps, at, end, c.forward, 0).0;
    StartForward(s, swaps, end);
    ForwardInv(s, swaps, at, at, end, c.forward, 0);
    StartsForward(s1, swaps, end);
    hide Forward, Reached, AllRolled;
    if CoveredFrom(s1).Some? { BackwardRolls(s1, swaps, first, CoveredFrom(s1).value, c.turns, 0); }
  }

  /** From an empty table a Sync without failures and without history rolls up exactly the 365 days before the first
      incomplete one. */
  lemma FirstSync(swaps: set<int>, first: int, c: Sync, d: int)
    requires Dated(swaps) && c.synced.Some? && (forall n: nat :: c.forward(n).Succeeds?)
    ensures var s' := AfterSync(EMPTY, swaps, first, c);
            && (c.synced.value - 365 <= d < c.synced.value ==> d in s'.rolled)
            && (c.stops || first < 10957 ==> (d in s'.rolled <==> c.synced.value - 365 <= d < c.synced.value))
            && (d in s'.rolled ==> d < c.synced.value && (d >= first || d >= c.synced.value - 365))
  {
    ForwardSucceeds(EMPTY, swaps, ForwardFrom(EMPTY, c.synced.value), c.synced.value, c.forward, 0);
    SyncRollsUp(EMPTY, swaps, first, c);
  }

  // ---- A gap stays ----

  lemma InsertKeepsGap(s: Store, swaps: set<int>, days: set<int>, shown: set<int>, from: int, to: int, g: int)
    requires Dated(swaps) && Gap(s, swaps, g) && g !in days
    requires days <= shown && forall d :: d in shown ==> from <= d < to
    ensures Gap(Insert(s, swaps, days, shown), swaps, g)
  {
    var s' := Insert(s, swaps, days, shown);
    InsertEnds(s, swaps, days, shown, from, to);
    assert FirstDay(s'.daily) in s'.daily;
  }

  lemma RollupKeepsGap(s: Store, swaps: set<int>, from: int, to: int, a: Answer, g: int)
    requires Dated(swaps) && Gap(s, swaps, g) && !(from <= g < to)
    ensures Gap(Rollup(s, swaps, from, to, a), swaps, g)
  {
    var d := Days(from, to);
    InsertKeepsGap(s, swaps, d, d, from, to, g);
    if a.FailsPartly? { InsertKeepsGap(s, swaps, d * a.days, d * (a.days + a.torn), from, to, g); }
  }

  lemma {:induction false} ForwardKeepsGap(s: Store, swaps: set<int>, at: int, end: int, answers: nat -> Answer, n: nat, g: int)
    requires Dated(swaps) && Gap(s, swaps, g) && g < at
    ensures Gap(Forward(s, swaps, at, end, answers, n).0, swaps, g)
    decreases end - at
  {
    if at < end {
      var to := if at + MAX_DAYS_PER_INSERT > end then end else at + MAX_DAYS_PER_INSERT;
      RollupKeepsGap(s, swaps, at, to, answers(n), g);
      hide Gap, Rollup;
      if answers(n).Succeeds? { ForwardKeepsGap(Rollup(s, swaps, at, to, answers(n)), swaps, to, end, answers, n + 1, g); }
    }
  }

  lemma {:induction false} BackwardKeepsGap(s: Store, swaps: set<int>, first: int, covered: int, turns: nat -> Turn, n: nat, g: int)
    requires Dated(swaps) && Gap(s, swaps, g) && covered <= g
    ensures Gap(Backward(s, swaps, first, covered, turns, n), swaps, g)
    decreases covered - first
  {
    if covered > first && turns(n).inTime {
      var from := if covered - HISTORY_DAYS_PER_INSERT < first then first else covered - HISTORY_DAYS_PER_INSERT;
      RollupKeepsGap(s, swaps, from, covered, turns(n).rollup, g);
      var s1 := Rollup(s, swaps, from, covered, turns(n).rollup);
      var s2 := SaveWatermark(s1, from, turns(n).save);
      hide Rollup;
      assert Gap(s2, swaps, g);
      hide Gap, SaveWatermark;
      if turns(n).rollup.Succeeds? && turns(n).save.Succeeds? {
        BackwardKeepsGap(s2, swaps, first, from, turns, n + 1, g);
      }
    }
  }

  lemma SyncKeepsGap(s: Store, swaps: set<int>, first: int, c: Sync, g: int)
    requires Dated(swaps) && Gap(s, swaps, g)
    ensures Gap(AfterSync(s, swaps, first, c), swaps, g)
  {
    if c.synced.Some? {
      var end := c.synced.value;
      assert LastDay(s.daily) in swaps;
      assert ForwardFrom(s, end) > g;
      ForwardKeepsGap(s, swaps, ForwardFrom(s, end), end, c.forward, 0, g);
      var s1 := Forward(s, swaps, ForwardFrom(s, end), end, c.forward, 0).0;
      assert CoveredFrom(s1).Some? && CoveredFrom(s1).value <= g;
      BackwardKeepsGap(s1, swaps, first, CoveredFrom(s1).value, c.turns, 0, g);
    }
  }

  /** No later Sync, however it goes, ever fills a gap. */
  lemma {:induction false} GapStays(s: Store, swaps: set<int>, first: int, cs: seq<Sync>, g: int)
    requires Dated(swaps) && Gap(s, swaps, g)
    ensures Gap(After(s, swaps, first, cs), swaps, g)
  {
    hide Gap, AfterSync;
    if cs != [] {
      GapStays(s, swaps, first, cs[..|cs| - 1], g);
      SyncKeepsGap(After(s, swaps, first, cs[..|cs| - 1]), swaps, first, cs[|cs| - 1], g);
    }
  }

  // ---- Whole runs ----

  lemma HarmlessPrefix(s: Store, swaps: set<int>, first: int, cs: seq<Sync>)
    requires cs != []
    ensures var before := cs[..|cs| - 1];
            AllHarmless(s, swaps, first, cs) <==>
            AllHarmless(s, swaps, first, before) && SyncHarmless(After(s, swaps, first, before), swaps, first, cs[|cs| - 1])
  {
    hide SyncHarmless, After;
    var before := cs[..|cs| - 1];
    assert forall i :: 0 <= i < |before| ==> before[..i] == cs[..i] && before[i] == cs[i];
  }

  lemma {:induction false} RunInv(s: Store, swaps: set<int>, first: int, cs: seq<Sync>)
    requires Dated(swaps) && Inv(s, swaps)
    ensures AllHarmless(s, swaps, first, cs) ==> Inv(After(s, swaps, first, cs), swaps)
    ensures !AllHarmless(s, swaps, first, cs) ==> HasGap(After(s, swaps, first, cs), swaps)
  {
    hide Inv, AfterSync, SyncHarmless, Gap, AllHarmless;
    if cs == [] {
      assert AllHarmless(s, swaps, first, cs) by { NothingHarms(s, swaps, first); }
    } else {
      var before := cs[..|cs| - 1];
      RunInv(s, swaps, first, before);
      HarmlessPrefix(s, swaps, first, cs);
      var m := After(s, swaps, first, before);
      if AllHarmless(s, swaps, first, before) {
        SyncInv(m, swaps, first, cs[|cs| - 1]);
      } else {
        var g :| Gap(m, swaps, g);
        SyncKeepsGap(m, swaps, first, cs[|cs| - 1], g);
      }
    }
  }

  lemma NothingHarms(s: Store, swaps: set<int>, first: int)
    ensures AllHarmless(s, swaps, first, [])
  {
  }

  /** After any number of Syncs with failures at any call: as long as all rollups that were applied in part are
      harmless, every day from the covered day to the newest day in the table is rolled up, and there the table has
      exactly the days with swaps. After one that is not harmless, some day in between is missing at every
      later point of the run. */
  lemma NoGapsIff(swaps: set<int>, first: int, cs: seq<Sync>)
    requires Dated(swaps)
    ensures var s := After(EMPTY, swaps, first, cs);
            && (AllHarmless(EMPTY, swaps, first, cs) ==>
                  && s.rolled * swaps <= s.daily <= swaps
                  && (CoveredFrom(s).Some? ==>
                        forall d :: CoveredFrom(s).value <= d <= LastDay(s.daily) ==>
                          d in s.rolled && (d in swaps <==> d in s.daily)))
            && (!AllHarmless(EMPTY, swaps, first, cs) ==>
                  && CoveredFrom(s).Some?
                  && exists d :: CoveredFrom(s).value <= d <= LastDay(s.daily) && d !in s.rolled)
  {
    hide AllHarmless;
    RunInv(EMPTY, swaps, first, cs);
  }

  /** Once the backward loop has reached the first pool's day, a Sync whose forward loop succeeds leaves every
      complete day since then in the table with its swaps. */
  lemma AllDaysComplete(swaps: set<int>, first: int, cs: seq<Sync>, c: Sync)
    requires Dated(swaps) && AllHarmless(EMPTY, swaps, first, cs + [c])
    requires ForwardDone(After(EMPTY, swaps, first, cs), swaps, c)
    ensures var s := After(EMPTY, swaps, first, cs + [c]);
            CoveredFrom(s).Some? && CoveredFrom(s).value <= first ==>
              forall d :: first <= d < c.synced.value ==> d in s.rolled && (d in swaps ==> d in s.daily)
  {
    hide AfterSync, ForwardDone, AllHarmless, SyncHarmless;
    assert (cs + [c])[..|cs|] == cs && (cs + [c])[|cs|] == c;
    HarmlessPrefix(EMPTY, swaps, first, cs + [c]);
    RunInv(EMPTY, swaps, first, cs);
    SyncInv(After(EMPTY, swaps, first, cs), swaps, first, c);
  }

  // ---- Gaps that do arise ----

  /** Such a failure does leave a gap for good: with day d in the table, a forward rollup of d + 1 and d + 2 that
      fails after inserting only the second, and whatever happens afterwards. */
  lemma PartialLeavesGap(d: int, first: int, later: seq<Sync>)
    requires d >= DAY_2000
    ensures var swaps := {d, d + 1, d + 2};
            var s := Store({d}, {d}, None);
            var c := Sync(Some(d + 3), n => FailsPartly({d + 2}, {}), false, n => Turn(false, Fails, Fails));
            Inv(s, swaps) && d + 1 !in After(AfterSync(s, swaps, first, c), swaps, first, later).rolled
  {
    var swaps := {d, d + 1, d + 2};
    var s := Store({d}, {d}, None);
    var c := Sync(Some(d + 3), n => FailsPartly({d + 2}, {}), false, n => Turn(false, Fails, Fails));
    assert d in s.daily && LastDay(s.daily) in s.daily && FirstDay(s.daily) in s.daily;
    assert s.daily == s.rolled * swaps;
    var s' := AfterSync(s, swaps, first, c);
    var days := Days(d + 1, d + 3) * {d + 2};
    assert days == {d + 2} == Days(d + 1, d + 3) * ({d + 2} + {});
    assert s' == Insert(s, swaps, days, days) by { hide LastDay, FirstDay, Insert; }
    InsertEnds(s, swaps, days, days, d + 1, d + 3);
    assert d + 2 in s'.daily;
    hide Insert, AfterSync;
    assert LastDay(s'.daily) >= d + 2;
    GapStays(s', swaps, first, later, d + 1);
  }

  /** So does a backward rollup while no watermark is saved: with only day d in the table, one of the week before d
      that fails after inserting only the first of its days. */
  lemma PartialBackwardLeavesGap(d: int, later: seq<Sync>)
    requires d - 7 >= DAY_2000
    ensures var swaps := {d - 7, d};
            var s := Store({d}, {d}, None);
            var c := Sync(Some(d + 1), n => Fails, false, n => Turn(true, FailsPartly({d - 7}, {}), Fails));
            Inv(s, swaps) && d - 3 !in After(AfterSync(s, swaps, d - 7, c), swaps, d - 7, later).rolled
  {
    var swaps := {d - 7, d};
    var s := Store({d}, {d}, None);
    var c := Sync(Some(d + 1), n => Fails, false, n => Turn(true, FailsPartly({d - 7}, {}), Fails));
    assert d in s.daily && LastDay(s.daily) in s.daily && FirstDay(s.daily) in s.daily;
    assert s.daily == s.rolled * swaps;
    var s' := AfterSync(s, swaps, d - 7, c);
    var days := Days(d - 7, d) * {d - 7};
    assert days == {d - 7} == Days(d - 7, d) * ({d - 7} + {});
    assert s' == Insert(s, swaps, days, days) by { hide LastDay, FirstDay, Insert; }
    InsertEnds(s, swaps, days, days, d - 7, d);
    assert d - 7 in s'.daily && d in s'.daily;
    hide Insert, AfterSync;
    assert FirstDay(s'.daily) in swaps;
    GapStays(s', swaps, d - 7, later, d - 3);
  }

  // ---- The code ----

  class DexRollup {
    const swaps: set<int>                       // raw_logs: the days with swaps in tracked pools
    const first: int                            // min(created_time) of dex_pools, 0 when there is none
    var daily: set<int>                         // dex_daily
    var watermark: Option<int>                  // indexer_watermarks
    ghost var rolled: set<int>

    constructor (swaps: set<int>, first: int)
      ensures this.swaps == swaps && this.first == first && View() == EMPTY
    {
      this.swaps, this.first := swaps, first;
      daily, watermark, rolled := {}, None, {};
    }

    ghost function View(): Store
      reads this
    {
      Store(rolled, daily, watermark)
    }

    /** The INSERT over [from, to). */
    method ExecRollup(from: int, to: int, a: Answer) returns (ok: bool)
      modifies this
      ensures View() == Rollup(old(View()), swaps, from, to, a) && ok == a.Succeeds?
    {
      if !a.Fails? {
        var days := Days(from, to);
        var shown := days;
        if a.FailsPartly? { days, shown := days * a.days, days * (a.days + a.torn); }
        daily := daily + shown * swaps;
        rolled := rolled + days;
      }
      ok := a.Succeeds?;
    }

    /** max(day) and min(day) of dex_daily. */
    method Ends() returns (lo: int, hi: int)
      ensures lo == FirstDay(daily) && hi == LastDay(daily)
    {
      var rest := daily;
      lo, hi := 0, 0;
      while rest != {}
        invariant rest <= daily
        invariant if rest == daily then lo == hi == 0 else IsFirst(daily - rest, lo) && IsLast(daily - rest, hi)
        decreases |rest|
      {
        HasElement(rest);
        var d :| d in rest;
        var empty := rest == daily;
        assert forall e :: e in daily - (rest - {d}) <==> e == d || e in daily - rest;
        rest := rest - {d};
        if empty || d < lo { lo := d; }
        if empty || d > hi { hi := d; }
      }
      assert daily - {} == daily;
    }

    method SyncDays(end: int, answers: nat -> Answer) returns (ok: bool)
      modifies this
      ensures var (s, done) := Forward(old(View()), swaps, ForwardFrom(old(View()), end), end, answers, 0);
              View() == s && ok == done
    {
      hide Rollup, Insert, Days, IsFirst, IsLast;
      var lo, last := Ends();
      var from := last + 1;
      if last < DAY_2000 { from := end - BACKFILL_DAYS; }
      ghost var result := Forward(View(), swaps, from, end, answers, 0);
      var n: nat := 0;
      ok := true;
      while from < end && ok
        invariant ok ==> Forward(View(), swaps, from, end, answers, n) == result
        invariant !ok ==> (View(), false) == result
        decreases end - from, ok
      {
        var to := from + MAX_DAYS_PER_INSERT;
        if to > end { to := end; }
        ok := ExecRollup(from, to, answers(n));
        if ok { from, n := to, n + 1; }
      }
    }

    /** `readFails` is an error of the first pool's day, the watermark or the oldest day. */
    method BackfillHistory(readFails: bool, turns: nat -> Turn)
      modifies this
      ensures View() == var s := old(View());
                        if readFails || first < DAY_2000 || CoveredFrom(s).None? then s
                        else Backward(s, swaps, first, CoveredFrom(s).value, turns, 0)
    {
      hide Rollup, Insert, Days, IsFirst, IsLast;
      if readFails || first < DAY_2000 { return; }
      var lo, hi := Ends();
      var covered := lo;
      if watermark.Some? { covered := watermark.value; }
      else if covered < DAY_2000 { return; }
      ghost var result := Backward(View(), swaps, first, covered, turns, 0);
      var n: nat := 0;
      while covered > first && turns(n).inTime
        invariant Backward(View(), swaps, first, covered, turns, n) == result
        decreases covered - first
      {
        var from := covered - HISTORY_DAYS_PER_INSERT;
        if from < first { from := first; }
        var ok := ExecRollup(from, covered, turns(n).rollup);
        if !ok { return; }
        if turns(n).save.Succeeds? || turns(n).save.FailsApplied? { watermark := Some(from); }
        if !turns(n).save.Succeeds? { return; }
        covered, n := from, n + 1;
      }
    }

    /** Sync for a fixed factory set. Both loops end. */
    method SyncOnce(c: Sync)
      modifies this
      ensures View() == AfterSync(old(View()), swaps, first, c)
    {
      hide Forward, Backward, CoveredFrom, ForwardFrom;
      if c.synced.None? { return; }
      var ok := SyncDays(c.synced.value, c.forward);
      if !ok { return; }
      BackfillHistory(c.stops, c.turns);
    }
  }
}
