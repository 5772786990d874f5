/** pkg/circuitbreaker/circuitbreaker.go: a circuit breaker that opens after consecutive failures and lets
    one request through per cooldown. Time is a parameter of the calls that read the clock. */
module CircuitBreaker {
  datatype Mode = Closed | Open | HalfOpen

  datatype Config = Config(threshold: int, cooldown: int)

  datatype State = State(mode: Mode, consecutiveFails: nat, openedAt: int)

  datatype Event = Allow(now: int) | Success | Failure(now: int)

  const INITIAL := State(Closed, 0, 0)

  /** Allow's answer. */
  predicate Granted(cfg: Config, s: State, now: int) {
    s.mode == Closed || (s.mode == Open && now - s.openedAt >= cfg.cooldown)
  }

  function Step(cfg: Config, s: State, e: Event): State {
    match e
    case Allow(now) => if s.mode == Open && Granted(cfg, s, now) then s.(mode := HalfOpen) else s
    case Success => s.(consecutiveFails := 0, mode := Closed)
    case Failure(now) =>
      var s1 := s.(consecutiveFails := s.consecutiveFails + 1);
      if s1.consecutiveFails >= cfg.threshold then s1.(mode := Open, openedAt := now) else s1
  }

  /** New's defaults: 5 failures, 30 seconds. */
  function Defaulted(cfg: Config): Config {
    Config(if cfg.threshold == 0 then 5 else cfg.threshold, if cfg.cooldown == 0 then 30_000_000_000 else cfg.cooldown)
  }

  class CircuitBreaker {
    const cfg: Config
    var mode: Mode
    var consecutiveFails: nat
    var openedAt: int

    ghost function View(): State
      reads this
    {
      State(mode, consecutiveFails, openedAt)
    }

    constructor (opts: Config)
      ensures cfg == Defaulted(opts) && View() == INITIAL
    {
      cfg := Defaulted(opts);
      mode, consecutiveFails, openedAt := Closed, 0, 0;
    }

    method Allow(now: int) returns (granted: bool)
      modifies this
      ensures granted == Granted(cfg, old(View()), now)
      ensures View() == Step(cfg, old(View()), Event.Allow(now))
    {
      match mode
      case Closed => return true;
      case Open =>
        if now - openedAt >= cfg.cooldown {
          mode := HalfOpen;
          return true;
        }
        return false;
      case HalfOpen => return false;
    }

    method RecordSuccess()
      modifies this
      ensures View() == Step(cfg, old(View()), Success)
    {
      consecutiveFails := 0;
      mode := Closed;
    }

    method RecordFailure(now: int)
      modifies this
      ensures View() == Step(cfg, old(View()), Failure(now))
    {
      consecutiveFails := consecutiveFails + 1;
      if consecutiveFails >= cfg.threshold {
        mode := Open;
        openedAt := now;
      }
    }

    /** The effective state: an open circuit whose cooldown is over shows as half-open, and that is when the
        next Allow at the same time would be granted (the method State). */
    method CurrentState(now: int) returns (m: Mode)
      ensures m == HalfOpen <==> mode == HalfOpen || (mode == Open && Granted(cfg, View(), now))
      ensures m != HalfOpen ==> m == mode
    {
      if mode == Open && now - openedAt >= cfg.cooldown {
        return HalfOpen;
      }
      return mode;
    }
  }

  // ---- Call traces ----

  /** The state after the first k calls of a trace. */
  function After(cfg: Config, trace: seq<Event>, k: nat): State
    requires k <= |trace|
  {
    if k == 0 then INITIAL else Step(cfg, After(cfg, trace, k - 1), trace[k - 1])
  }

  /** Failures recorded since the last success. */
  function TrailingFailures(trace: seq<Event>): nat {
    if trace == [] || trace[|trace| - 1].Success? then 0
    else (if trace[|trace| - 1].Failure? then 1 else 0) + TrailingFailures(trace[..|trace| - 1])
  }

  /** consecutiveFails is the length of the trailing failure run. */
  lemma {:induction false} CountsTrailingFailures(cfg: Config, trace: seq<Event>, k: nat)
    requires k <= |trace|
    ensures After(cfg, trace, k).consecutiveFails == TrailingFailures(trace[..k])
  {
    if k > 0 {
      CountsTrailingFailures(cfg, trace, k - 1);
      assert trace[..k][..k - 1] == trace[..k - 1];
    }
  }

  lemma {:induction false} ClosedBelowThreshold(cfg: Config, trace: seq<Event>, k: nat)
    requires cfg.threshold >= 1 && k <= |trace|
    ensures After(cfg, trace, k).mode == Closed <==> After(cfg, trace, k).consecutiveFails < cfg.threshold
  {
    if k > 0 { ClosedBelowThreshold(cfg, trace, k - 1); }
  }

  /** After every call trace the circuit is closed exactly while the trailing failure run is shorter than the
      threshold, if and only if the threshold is at least 1. */
  lemma ClosedIffFewFailures(cfg: Config)
    ensures (forall trace: seq<Event> :: After(cfg, trace, |trace|).mode == Closed <==>
                                         TrailingFailures(trace) < cfg.threshold)
            <==> cfg.threshold >= 1
  {
    if cfg.threshold >= 1 {
      forall trace: seq<Event>
        ensures After(cfg, trace, |trace|).mode == Closed <==> TrailingFailures(trace) < cfg.threshold
      {
        CountsTrailingFailures(cfg, trace, |trace|);
        ClosedBelowThreshold(cfg, trace, |trace|);
        assert trace[..|trace|] == trace;
      }
    } else {
      var none: seq<Event> := [];
      assert After(cfg, none, |none|).mode == Closed && TrailingFailures(none) == 0;
    }
  }

  /** The clock never goes back along the trace. */
  ghost predicate Monotone(trace: seq<Event>) {
    forall i, j :: 0 <= i < j < |trace| && !trace[i].Success? && !trace[j].Success? ==> trace[i].now <= trace[j].now
  }

  /** Call i is an Allow that a tripped breaker grants. */
  predicate Trial(cfg: Config, trace: seq<Event>, i: nat)
    requires i < |trace|
  {
    trace[i].Allow? && After(cfg, trace, i).mode != Closed && Granted(cfg, After(cfg, trace, i), trace[i].now)
  }

  lemma {:induction false} AfterTrial(cfg: Config, trace: seq<Event>, i: nat, k: nat)
    requires Monotone(trace) && i < k <= |trace| && Trial(cfg, trace, i)
    requires forall m :: i < m < k ==> !trace[m].Success?
    ensures After(cfg, trace, k).mode != Closed
    ensures After(cfg, trace, k).mode == Open ==> After(cfg, trace, k).openedAt >= trace[i].now
  {
    if k > i + 1 {
      AfterTrial(cfg, trace, i, k - 1);
    }
  }

  /** Over any trace with a monotone clock, two trials of a tripped breaker with no success recorded between
      them are at least one cooldown apart. */
  lemma TrialsAreSpaced(cfg: Config, trace: seq<Event>, i: nat, j: nat)
    requires Monotone(trace) && i < j < |trace| && Trial(cfg, trace, i) && Trial(cfg, trace, j)
    requires forall m :: i < m < j ==> !trace[m].Success?
    ensures trace[j].now - trace[i].now >= cfg.cooldown
  {
    AfterTrial(cfg, trace, i, j);
  }

  lemma {:induction false} UnreportedTrial(cfg: Config, trace: seq<Event>, i: nat, k: nat)
    requires i < k <= |trace| && Trial(cfg, trace, i)
    requires forall m :: i < m < k ==> trace[m].Allow?
    ensures After(cfg, trace, k).mode == HalfOpen
  {
    if k > i + 1 {
      UnreportedTrial(cfg, trace, i, k - 1);
    }
  }

  ghost predicate StaysHalfOpen(cfg: Config, trace: seq<Event>, i: nat, k: nat)
    requires k <= |trace|
  {
    forall m: nat :: i < m <= k ==> After(cfg, trace, m).mode == HalfOpen
  }

  ghost predicate OnlyAsks(trace: seq<Event>, i: nat, k: nat)
    requires k <= |trace|
  {
    forall m: nat :: i < m < k ==> trace[m].Allow?
  }

  /** After a trial the circuit stays half-open, refusing every call however much time passes, exactly as long as no
      outcome is recorded: any success closes it, any failure opens it again. */
  lemma UnreportedTrialBlocks(cfg: Config, trace: seq<Event>, i: nat, k: nat)
    requires cfg.threshold >= 1 && i < k <= |trace| && Trial(cfg, trace, i)
    ensures StaysHalfOpen(cfg, trace, i, k) <==> OnlyAsks(trace, i, k)
    ensures OnlyAsks(trace, i, k) ==> forall now :: !Granted(cfg, After(cfg, trace, k), now)
  {
    if OnlyAsks(trace, i, k) {
      forall m: nat | i < m <= k ensures After(cfg, trace, m).mode == HalfOpen { UnreportedTrial(cfg, trace, i, m); }
    }
    if StaysHalfOpen(cfg, trace, i, k) {
      forall m: nat | i < m < k ensures trace[m].Allow? {
        assert After(cfg, trace, m + 1).mode == HalfOpen && After(cfg, trace, m).mode == HalfOpen;
        ClosedBelowThreshold(cfg, trace, m);
      }
    }
  }

  /** The last outcome among the first k calls is the failure j. */
  ghost predicate LastOutcome(trace: seq<Event>, j: nat, k: nat)
    requires k <= |trace|
  {
    j < k && trace[j].Failure? && forall m :: j < m < k ==> trace[m].Allow?
  }

  /** Since failure j every call came before the end of its cooldown. */
  ghost predicate AllEarly(cfg: Config, trace: seq<Event>, j: nat, k: nat)
    requires k <= |trace| && LastOutcome(trace, j, k)
  {
    forall m :: j < m < k ==> trace[m].now - trace[j].now < cfg.cooldown
  }

  /** A tripped circuit was opened by the last failure, and is open until a call comes after its cooldown. */
  lemma {:induction false} TrippedBy(cfg: Config, trace: seq<Event>, k: nat) returns (j: nat)
    requires cfg.threshold >= 1 && k <= |trace| && After(cfg, trace, k).mode != Closed
    ensures LastOutcome(trace, j, k) && After(cfg, trace, k).openedAt == trace[j].now
    ensures After(cfg, trace, k).mode == Open <==> AllEarly(cfg, trace, j, k)
  {
    ClosedBelowThreshold(cfg, trace, k - 1);
    if trace[k - 1].Failure? {
      j := k - 1;
    } else {
      j := TrippedBy(cfg, trace, k - 1);
    }
  }

  /** Which requests go through, said over the calls alone: with fewer trailing failures than the threshold every
      one, and otherwise only the first that comes at least one cooldown after the last failure. */
  lemma AllowedIff(cfg: Config, trace: seq<Event>, k: nat)
    requires cfg.threshold >= 1 && k < |trace| && trace[k].Allow?
    ensures Granted(cfg, After(cfg, trace, k), trace[k].now) <==>
            || TrailingFailures(trace[..k]) < cfg.threshold
            || exists j: nat :: LastOutcome(trace, j, k) && AllEarly(cfg, trace, j, k)
                                && trace[k].now - trace[j].now >= cfg.cooldown
  {
    CountsTrailingFailures(cfg, trace, k);
    ClosedBelowThreshold(cfg, trace, k);
    if After(cfg, trace, k).mode != Closed {
      var j := TrippedBy(cfg, trace, k);
      hide After, AllEarly;
      assert forall i: nat :: LastOutcome(trace, i, k) ==> i == j;
    }
  }
}
