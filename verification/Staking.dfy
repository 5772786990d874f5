/** pkg/api/handlers_staking.go, buildStakingSummary: totals, delegation fee histogram and median, and stake
    concentration of the validator set. Floats are exact here: stakes are integers, fees and percents reals. */
module Staking {
  import opened Base
  import opened Sorting

  datatype StakeRow = StakeRow(own: uint64, delegated: uint64, delegations: uint32, fee: real)

  datatype FeeBucket = FeeBucket(count: nat, stake: nat)

  datatype Concentration = Concentration(top10: real, top50: real, top100: real, nakamoto33: nat, nakamoto50: nat)

  datatype Summary = Summary(
    validatorCount: nat, delegationCount: uint64,
    own: nat, delegated: nat, total: nat,
    stakedSupplyPercent: Option<real>,
    median: real, histogram: seq<FeeBucket>,
    concentration: Concentration)

  const FEE_BUCKET_BOUNDS: seq<real> := [2.0, 5.0, 10.0, 20.0]

  // ---- Sums ----

  function Sum(s: seq<nat>): nat {
    if s == [] then 0 else Sum(s[..|s| - 1]) + s[|s| - 1]
  }

  function Cum(s: seq<nat>, n: nat): nat
    requires n <= |s|
  {
    Sum(s[..n])
  }

  /** A validator's total as the code computes it, in uint64. */
  function TotalOf(v: StakeRow): uint64 {
    WrapU64(v.own + v.delegated)
  }

  function Totals(vals: seq<StakeRow>): (r: seq<nat>)
    ensures |r| == |vals| && forall i :: 0 <= i < |r| ==> r[i] == TotalOf(vals[i])
  {
    seq(|vals|, i requires 0 <= i < |vals| => TotalOf(vals[i]))
  }

  function Owns(vals: seq<StakeRow>): (r: seq<nat>)
    ensures |r| == |vals| && forall i :: 0 <= i < |r| ==> r[i] == vals[i].own
  {
    seq(|vals|, i requires 0 <= i < |vals| => vals[i].own)
  }

  function Delegateds(vals: seq<StakeRow>): (r: seq<nat>)
    ensures |r| == |vals| && forall i :: 0 <= i < |r| ==> r[i] == vals[i].delegated
  {
    seq(|vals|, i requires 0 <= i < |vals| => vals[i].delegated)
  }

  function Fees(vals: seq<StakeRow>): (r: seq<real>)
    ensures |r| == |vals| && forall i :: 0 <= i < |r| ==> r[i] == vals[i].fee
  {
    seq(|vals|, i requires 0 <= i < |vals| => vals[i].fee)
  }

  function DelegationCount(vals: seq<StakeRow>): uint64 {
    if vals == [] then 0 else WrapU64(DelegationCount(vals[..|vals| - 1]) + vals[|vals| - 1].delegations)
  }

  /** No validator's total overflows uint64. */
  ghost predicate NoWrap(vals: seq<StakeRow>) {
    forall i :: 0 <= i < |vals| ==> vals[i].own + vals[i].delegated < 0x1_0000_0000_0000_0000
  }

  // ---- Concentration ----

  predicate Desc(a: nat, b: nat) {
    a >= b
  }

  /** The least n with times * (sum of the first n) > total, 0 when there is none; found from n on. */
  function FirstOver(s: seq<nat>, total: nat, times: nat, n: nat): nat
    requires n <= |s|
    decreases |s| - n
  {
    if n == |s| then 0
    else if Cum(s, n + 1) * times > total then n + 1
    else FirstOver(s, total, times, n + 1)
  }

  function TopPercent(s: seq<nat>, total: nat, n: nat): real
    requires total > 0
  {
    if n <= |s| then Cum(s, n) as real / total as real * 100.0 else 100.0
  }

  function Concentrate(sorted: seq<nat>, total: nat): Concentration {
    if total == 0 then Concentration(0.0, 0.0, 0.0, 0, 0)
    else Concentration(TopPercent(sorted, total, 10), TopPercent(sorted, total, 50), TopPercent(sorted, total, 100),
                       FirstOver(sorted, total, 3, 0), FirstOver(sorted, total, 2, 0))
  }

  lemma {:induction false} FirstOverSkips(s: seq<nat>, total: nat, times: nat, n: nat)
    requires n <= |s| && forall k :: 0 < k <= n ==> Cum(s, k) * times <= total
    ensures FirstOver(s, total, times, 0) == FirstOver(s, total, times, n)
  {
    if n > 0 {
      FirstOverSkips(s, total, times, n - 1);
      assert Cum(s, n) * times <= total;
    }
  }

  /** The loop over the sorted totals. */
  method ComputeConcentration(sorted: seq<nat>, total: nat) returns (c: Concentration)
    ensures c == Concentrate(sorted, total)
  {
    var top10, top50, top100 := 0.0, 0.0, 0.0;
    var n33: nat, n50: nat := 0, 0;
    if total > 0 {
      var cum: nat := 0;
      assert sorted[..0] == [];
      for i := 0 to |sorted|
        invariant cum == Cum(sorted, i)
        invariant top10 == if i >= 10 then TopPercent(sorted, total, 10) else 0.0
        invariant top50 == if i >= 50 then TopPercent(sorted, total, 50) else 0.0
        invariant top100 == if i >= 100 then TopPercent(sorted, total, 100) else 0.0
        invariant Pending(sorted, total, 3, i, n33)
        invariant Pending(sorted, total, 2, i, n50)
      {
        CumStep(sorted, i);
        cum := cum + sorted[i];
        var n := i + 1;
        PendingStep(sorted, total, 3, i, n33);
        PendingStep(sorted, total, 2, i, n50);
        hide FirstOver, Cum, Pending;
        if n == 10 { top10 := cum as real / total as real * 100.0; }
        if n == 50 { top50 := cum as real / total as real * 100.0; }
        if n == 100 { top100 := cum as real / total as real * 100.0; }
        if n33 == 0 && cum * 3 > total { n33 := n; }
        if n50 == 0 && cum * 2 > total { n50 := n; }
      }
      if |sorted| < 10 { top10 := 100.0; }
      if |sorted| < 50 { top50 := 100.0; }
      if |sorted| < 100 { top100 := 100.0; }
    }
    return Concentration(top10, top50, top100, n33, n50);
  }

  /** After i steps of the loop: the answer when it has been found, else 0 and still to be searched. */
  ghost predicate Pending(s: seq<nat>, total: nat, times: nat, i: nat, found: nat)
    requires i <= |s|
  {
    FirstOver(s, total, times, 0) == if found > 0 then found else FirstOver(s, total, times, i)
  }

  lemma CumStep(s: seq<nat>, i: nat)
    requires i < |s|
    ensures Cum(s, i + 1) == Cum(s, i) + s[i]
  {
    assert s[..i + 1][..i] == s[..i];
  }

  lemma PendingStep(s: seq<nat>, total: nat, times: nat, i: nat, found: nat)
    requires i < |s| && Pending(s, total, times, i, found)
    ensures Pending(s, total, times, i + 1, if found == 0 && Cum(s, i + 1) * times > total then i + 1 else found)
  {
    hide Cum;
  }

  // ---- Sets of validators ----

  /** The summed weight of the validators whose index is in the set. */
  ghost function StakeOf(w: seq<nat>, chosen: set<nat>): nat {
    if w == [] then 0
    else StakeOf(w[..|w| - 1], chosen) + if |w| - 1 in chosen then w[|w| - 1] else 0
  }

  ghost predicate IsSubset(w: seq<nat>, chosen: set<nat>) {
    forall i :: i in chosen ==> i < |w|
  }

  ghost function BagOf(w: seq<nat>, chosen: set<nat>): multiset<nat> {
    if w == [] then multiset{}
    else BagOf(w[..|w| - 1], chosen) + if |w| - 1 in chosen then multiset{w[|w| - 1]} else multiset{}
  }

  ghost function BagSum(b: multiset<nat>): nat {
    if b == multiset{} then 0 else var x :| x in b; x + BagSum(b - multiset{x})
  }

  lemma BagStart(b: multiset<nat>) returns (x: nat)
    requires b != multiset{}
    ensures x in b && BagSum(b) == x + BagSum(b - multiset{x})
  {
    x :| x in b && BagSum(b) == x + BagSum(b - multiset{x});
  }

  lemma {:induction false} BagSumRemove(b: multiset<nat>, y: nat)
    requires y in b
    ensures BagSum(b) == y + BagSum(b - multiset{y})
    decreases |b|
  {
    hide BagSum;
    var x := BagStart(b);
    if x != y {
      BagSumRemove(b - multiset{x}, y);
      BagSumRemove(b - multiset{y}, x);
      assert b - multiset{x} - multiset{y} == b - multiset{y} - multiset{x};
    }
  }

  lemma BagSumAdd(b: multiset<nat>, y: nat)
    ensures BagSum(b + multiset{y}) == BagSum(b) + y
  {
    BagSumRemove(b + multiset{y}, y);
    assert b + multiset{y} - multiset{y} == b;
  }

  lemma {:induction false} BagSumOfSeq(s: seq<nat>)
    ensures BagSum(multiset(s)) == Sum(s)
  {
    if s != [] {
      BagSumOfSeq(s[..|s| - 1]);
      assert s == s[..|s| - 1] + [s[|s| - 1]];
      BagSumAdd(multiset(s[..|s| - 1]), s[|s| - 1]);
    }
  }

  lemma BagOfSubset(w: seq<nat>, chosen: set<nat>)
    requires IsSubset(w, chosen)
    ensures BagSum(BagOf(w, chosen)) == StakeOf(w, chosen)
    ensures |BagOf(w, chosen)| == |chosen|
    ensures BagOf(w, chosen) <= multiset(w)
  {
    BagOfSum(w, chosen);
    BagOfSize(w, chosen);
    BagOfWithin(w, chosen);
  }

  lemma {:induction false} BagOfSum(w: seq<nat>, chosen: set<nat>)
    ensures BagSum(BagOf(w, chosen)) == StakeOf(w, chosen)
  {
    hide BagOf, StakeOf, BagSum;
    if w == [] {
      EmptyBag();
      NoValidators(chosen);
    } else {
      var last := |w| - 1;
      BagOfSum(w[..last], chosen);
      BagStep(w, chosen);
      if last in chosen {
        BagSumAdd(BagOf(w[..last], chosen), w[last]);
      } else {
        assert BagOf(w[..last], chosen) + multiset{} == BagOf(w[..last], chosen);
      }
    }
  }

  lemma {:induction false} BagOfSize(w: seq<nat>, chosen: set<nat>)
    requires IsSubset(w, chosen)
    ensures |BagOf(w, chosen)| == |chosen|
  {
    hide BagOf, StakeOf;
    if w == [] {
      NoValidators(chosen);
      assert chosen == {};
    } else {
      var last := |w| - 1;
      var front := chosen - {last};
      assert IsSubset(w[..last], front);
      BagOfSize(w[..last], front);
      hide IsSubset;
      SameBelow(w[..last], chosen, front);
      BagStep(w, chosen);
      assert |chosen| == |front| + if last in chosen then 1 else 0 by {
        assert chosen == front + if last in chosen then {last} else {};
      }
    }
  }

  lemma {:induction false} BagOfWithin(w: seq<nat>, chosen: set<nat>)
    ensures BagOf(w, chosen) <= multiset(w)
  {
    hide BagOf, StakeOf;
    if w == [] {
      NoValidators(chosen);
    } else {
      BagOfWithin(w[..|w| - 1], chosen);
      BagStep(w, chosen);
      LastOfBag(w);
    }
  }

  lemma NoValidators(chosen: set<nat>)
    ensures BagOf([], chosen) == multiset{} && StakeOf([], chosen) == 0
  {
  }

  lemma BagStep(w: seq<nat>, chosen: set<nat>)
    requires w != []
    ensures var last := |w| - 1;
            && BagOf(w, chosen) == BagOf(w[..last], chosen) + (if last in chosen then multiset{w[last]} else multiset{})
            && StakeOf(w, chosen) == StakeOf(w[..last], chosen) + if last in chosen then w[last] else 0
  {
  }

  lemma LastOfBag(w: seq<nat>)
    requires w != []
    ensures multiset(w) == multiset(w[..|w| - 1]) + multiset{w[|w| - 1]}
  {
    assert w == w[..|w| - 1] + [w[|w| - 1]];
  }

  lemma {:induction false} SameBelow(w: seq<nat>, a: set<nat>, b: set<nat>)
    requires forall i: nat :: i < |w| ==> (i in a <==> i in b)
    ensures StakeOf(w, a) == StakeOf(w, b) && BagOf(w, a) == BagOf(w, b)
  {
    if w != [] { SameBelow(w[..|w| - 1], a, b); }
  }

  /** Any bag of the weights is the bag of some set of validators. */
  lemma {:induction false} PickSubset(w: seq<nat>, b: multiset<nat>) returns (chosen: set<nat>)
    requires b <= multiset(w)
    ensures IsSubset(w, chosen) && BagOf(w, chosen) == b
  {
    hide BagOf, StakeOf;
    if w == [] {
      NoValidators({});
      return {};
    }
    var last := |w| - 1;
    LastOfBag(w);
    if w[last] in b {
      var rest := b - multiset{w[last]};
      assert rest <= multiset(w[..last]) && b == rest + multiset{w[last]};
      var front := PickSubset(w[..last], rest);
      chosen := front + {last};
      SameBelow(w[..last], front, chosen);
    } else {
      assert b <= multiset(w[..last]) && b == b + multiset{};
      chosen := PickSubset(w[..last], b);
    }
    BagStep(w, chosen);
  }

  /** The exchange argument: no bag of k weights outweighs the k largest. */
  lemma {:induction false} BagBound(t: seq<nat>, b: multiset<nat>)
    requires Sorted(t, Desc) && b <= multiset(t)
    ensures |b| <= |t| && BagSum(b) <= Cum(t, |b|)
    decreases |t|, 1
  {
    hide Cum, BagSum;
    assert BagSum(multiset{}) == 0 by { EmptyBag(); }
    if t == [] {
      assert b == multiset{};
      assert Cum(t, 0) == 0 by { NothingSummed(t); }
    } else {
      var last := |t| - 1;
      var front := t[..last];
      LastOfBag(t);
      if t[last] in b {
        BagBoundStep(t, b);
      } else {
        assert b <= multiset(front);
        BagBound(front, b);
        CumOfFront(t, |b|);
      }
    }
  }

  lemma EmptyBag()
    ensures BagSum(multiset{}) == 0
  {
  }

  lemma BagBoundStep(t: seq<nat>, b: multiset<nat>)
    requires t != [] && Sorted(t, Desc) && b <= multiset(t) && t[|t| - 1] in b
    ensures |b| <= |t| && BagSum(b) <= Cum(t, |b|)
    decreases |t|, 0
  {
    hide Cum, BagSum;
    var last := |t| - 1;
    var b' := b - multiset{t[last]};
    LastOfBag(t);
    assert b' <= multiset(t[..last]);
    BagBound(t[..last], b');
    BagSumRemove(b, t[last]);
    CumOfFront(t, |b'|);
    CumStep(t, |b'|);
    assert |b| == |b'| + 1;
    LastIsLeast(t, |b'|);
  }

  lemma LastIsLeast(t: seq<nat>, i: nat)
    requires Sorted(t, Desc) && i < |t|
    ensures t[i] >= t[|t| - 1]
  {
    if i < |t| - 1 { assert Desc(t[i], t[|t| - 1]); }
  }

  lemma NothingSummed(t: seq<nat>)
    ensures Cum(t, 0) == 0
  {
    assert t[..0] == [];
  }

  lemma CumOfFront(t: seq<nat>, k: nat)
    requires k < |t|
    ensures Cum(t[..|t| - 1], k) == Cum(t, k)
  {
    assert t[..|t| - 1][..k] == t[..k];
  }

  lemma DescOrder()
    ensures TotalPreorder(Desc)
  {
  }

  /** The stake of any set of k validators is at most that of the k largest, and some set attains it. */
  lemma LargestSets(w: seq<nat>, chosen: set<nat>)
    requires IsSubset(w, chosen)
    ensures |chosen| <= |w| && StakeOf(w, chosen) <= Cum(Sort(w, Desc), |chosen|)
  {
    DescOrder();
    SortSorted(w, Desc);
    BagOfSubset(w, chosen);
    BagBound(Sort(w, Desc), BagOf(w, chosen));
  }

  lemma LargestSetExists(w: seq<nat>, k: nat) returns (chosen: set<nat>)
    requires k <= |w|
    ensures IsSubset(w, chosen) && |chosen| == k && StakeOf(w, chosen) == Cum(Sort(w, Desc), k)
  {
    var t := Sort(w, Desc);
    assert t == t[..k] + t[k..];
    chosen := PickSubset(w, multiset(t[..k]));
    BagOfSubset(w, chosen);
    BagSumOfSeq(t[..k]);
  }

  lemma {:induction false} FirstOverIsLeast(s: seq<nat>, total: nat, times: nat, n: nat)
    requires n <= |s|
    ensures var r := FirstOver(s, total, times, n);
            && (r > 0 ==> n < r <= |s| && Cum(s, r) * times > total)
            && (forall k :: n < k <= |s| && (r == 0 || k < r) ==> Cum(s, k) * times <= total)
    decreases |s| - n
  {
    if n < |s| { FirstOverIsLeast(s, total, times, n + 1); }
  }

  lemma {:induction false} CumMonotone(s: seq<nat>, i: nat, j: nat)
    requires i <= j <= |s|
    ensures Cum(s, i) <= Cum(s, j)
    decreases j - i
  {
    if i < j {
      CumMonotone(s, i, j - 1);
      CumStep(s, j - 1);
    }
  }

  lemma SortedSum(w: seq<nat>)
    ensures Cum(Sort(w, Desc), |w|) == Sum(w)
  {
    var t := Sort(w, Desc);
    BagSumOfSeq(w);
    BagSumOfSeq(t);
    assert t[..|t|] == t;
  }

  /** Holding more than total / times is hopeless without stake and certain for everyone together otherwise. */
  lemma NakamotoZero(w: seq<nat>, times: nat)
    requires times >= 2
    ensures FirstOver(Sort(w, Desc), Sum(w), times, 0) == 0 <==> Sum(w) == 0
  {
    var t := Sort(w, Desc);
    var total := Sum(w);
    var n := FirstOver(t, total, times, 0);
    FirstOverIsLeast(t, total, times, 0);
    SortedSum(w);
    assert total > 0 ==> |w| > 0;
    hide Sort, Cum, Sum, FirstOver;
    if n > 0 {
      CumMonotone(t, n, |t|);
      TimesSomething(Cum(t, n), times);
    } else {
      TimesSomething(total, times);
    }
  }

  lemma TimesSomething(a: nat, times: nat)
    requires times >= 2
    ensures a == 0 ==> a * times == 0
    ensures a > 0 ==> a * times > a
  {
  }

  /** n is the least size of any set of validators, chosen in any way, that holds more than total / times, and 0
      exactly when no set does. */
  ghost predicate IsLeastMajority(w: seq<nat>, total: nat, times: nat, n: nat) {
    && (n > 0 ==> exists chosen :: IsSubset(w, chosen) && |chosen| == n && StakeOf(w, chosen) * times > total)
    && (forall chosen :: IsSubset(w, chosen) && StakeOf(w, chosen) * times > total ==> |chosen| >= n > 0)
  }

  /** That is what the loop finds, whatever total the weights are measured against. */
  lemma LeastMajority(w: seq<nat>, total: nat, times: nat)
    ensures IsLeastMajority(w, total, times, FirstOver(Sort(w, Desc), total, times, 0))
  {
    hide Sort, Cum, StakeOf, FirstOver, IsSubset;
    var t := Sort(w, Desc);
    var n := FirstOver(t, total, times, 0);
    FirstOverIsLeast(t, total, times, 0);
    if n > 0 {
      var chosen := LargestSetExists(w, n);
    }
    forall chosen | IsSubset(w, chosen) && StakeOf(w, chosen) * times > total ensures |chosen| >= n > 0 {
      MajorityIsLarge(w, total, times, chosen, n);
    }
  }

  lemma MajorityIsLarge(w: seq<nat>, total: nat, times: nat, chosen: set<nat>, n: nat)
    requires IsSubset(w, chosen) && StakeOf(w, chosen) * times > total
    requires forall k :: 0 < k <= |w| && (n == 0 || k < n) ==> Cum(Sort(w, Desc), k) * times <= total
    ensures |chosen| >= n > 0
  {
    hide Sort, StakeOf, IsSubset;
    var t := Sort(w, Desc);
    LargestSets(w, chosen);
    NothingSummed(t);
    assert Cum(t, |chosen|) * times >= StakeOf(w, chosen) * times;
  }

  /** The Nakamoto coefficient is the least number of validators, chosen in any way, that together hold more
      than total / times; it is 0 exactly when there is no stake. */
  lemma NakamotoIsMinimal(w: seq<nat>, times: nat)
    requires times >= 2
    ensures var n := FirstOver(Sort(w, Desc), Sum(w), times, 0);
            && (n == 0 <==> Sum(w) == 0)
            && (n > 0 ==> exists chosen :: IsSubset(w, chosen) && |chosen| == n && StakeOf(w, chosen) * times > Sum(w))
            && (forall chosen :: IsSubset(w, chosen) && StakeOf(w, chosen) * times > Sum(w) ==> |chosen| >= n > 0)
  {
    hide Sort, Cum, StakeOf, FirstOver, IsSubset, Sum;
    LeastMajority(w, Sum(w), times);
    NakamotoZero(w, times);
  }

  // ---- The definition in SQL ----

  /** arrayCumSum. */
  function ArrayCumSum(s: seq<nat>): (r: seq<nat>)
    ensures |r| == |s| && forall i :: 0 <= i < |s| ==> r[i] == Cum(s, i + 1)
  {
    seq(|s|, i requires 0 <= i < |s| => Cum(s, i + 1))
  }

  /** arrayFirstIndex: the position, counted from 1, of the first element that satisfies p, else 0. */
  function ArrayFirstIndex(p: nat -> bool, s: seq<nat>): nat {
    if s == [] then 0
    else if p(s[0]) then 1
    else
      var r := ArrayFirstIndex(p, s[1..]);
      if r == 0 then 0 else r + 1
  }

  /** nakamoto_33 (times 3) and nakamoto_50 (times 2) of the decentralization subquery. */
  function SqlNakamoto(weights: seq<nat>, times: nat): nat {
    var sortedWeights := Sort(weights, Desc);
    var activeWeight := Sum(sortedWeights);
    ArrayFirstIndex(x => x * times > activeWeight, ArrayCumSum(sortedWeights))
  }

  lemma {:induction false} FirstIndexIsFirstOver(s: seq<nat>, total: nat, times: nat, n: nat)
    requires n <= |s|
    ensures FirstOver(s, total, times, n)
            == var r := ArrayFirstIndex(x => x * times > total, ArrayCumSum(s)[n..]);
               if r == 0 then 0 else n + r
    decreases |s| - n
  {
    if n < |s| {
      FirstIndexIsFirstOver(s, total, times, n + 1);
      assert ArrayCumSum(s)[n..][1..] == ArrayCumSum(s)[n + 1..];
    }
  }

  /** The loop's Nakamoto coefficient agrees with the SQL one. */
  lemma NakamotoAgreesWithSql(w: seq<nat>, times: nat)
    ensures FirstOver(Sort(w, Desc), Sum(w), times, 0) == SqlNakamoto(w, times)
  {
    var t := Sort(w, Desc);
    SortedSum(w);
    assert t[..|t|] == t;
    FirstIndexIsFirstOver(t, Sum(w), times, 0);
    assert ArrayCumSum(t)[0..] == ArrayCumSum(t);
  }

  // ---- Top shares ----

  lemma ShareMonotone(a: nat, b: nat, total: nat)
    requires a <= b && total > 0
    ensures a as real / total as real * 100.0 <= b as real / total as real * 100.0
  {
    var x, y, t := a as real, b as real, total as real;
    assert y / t - x / t == (y - x) / t;
  }

  /** No n validators, or fewer, hold a larger share than the top-n percentage, and some hold just that much unless
      the weights are measured against more than their sum. */
  lemma TopPercentIsLargestShare(w: seq<nat>, total: nat, n: nat)
    requires Sum(w) <= total && total > 0
    ensures var top := TopPercent(Sort(w, Desc), total, n);
            && (forall chosen :: IsSubset(w, chosen) && |chosen| <= n ==>
                  StakeOf(w, chosen) as real / total as real * 100.0 <= top)
            && (n <= |w| || total == Sum(w) ==>
                  exists chosen :: IsSubset(w, chosen) && |chosen| <= n
                                   && StakeOf(w, chosen) as real / total as real * 100.0 == top)
  {
    hide Sort, StakeOf, IsSubset, Cum, Sum;
    var t := Sort(w, Desc);
    var k := if n <= |w| then n else |w|;
    SortedSum(w);
    Everything(total);
    forall chosen | IsSubset(w, chosen) && |chosen| <= n
      ensures StakeOf(w, chosen) as real / total as real * 100.0 <= TopPercent(t, total, n)
    {
      LargestSets(w, chosen);
      CumMonotone(t, |chosen|, k);
      ShareMonotone(StakeOf(w, chosen), Cum(t, k), total);
      if n > |w| { ShareMonotone(Cum(t, k), total, total); }
    }
    if n <= |w| || total == Sum(w) {
      var best := LargestSetExists(w, k);
      assert StakeOf(w, best) as real / total as real * 100.0 == TopPercent(t, total, n);
    }
  }

  lemma Everything(total: nat)
    requires total > 0
    ensures total as real / total as real * 100.0 == 100.0
  {
    var x := total as real;
    assert x / x == 1.0;
  }

  // ---- Fee histogram ----

  /** The inner loop: the first bucket whose upper bound is not below the fee, the last one if there is none. */
  function BucketOf(fee: real, j: nat := 0): (b: nat)
    requires j <= |FEE_BUCKET_BOUNDS|
    ensures j <= b <= |FEE_BUCKET_BOUNDS|
    decreases |FEE_BUCKET_BOUNDS| - j
  {
    if j == |FEE_BUCKET_BOUNDS| || fee <= FEE_BUCKET_BOUNDS[j] then j else BucketOf(fee, j + 1)
  }

  function CountIn(vals: seq<StakeRow>, b: nat): nat {
    if vals == [] then 0
    else CountIn(vals[..|vals| - 1], b) + if BucketOf(vals[|vals| - 1].fee) == b then 1 else 0
  }

  function StakeIn(vals: seq<StakeRow>, b: nat): nat {
    if vals == [] then 0
    else StakeIn(vals[..|vals| - 1], b) + if BucketOf(vals[|vals| - 1].fee) == b then TotalOf(vals[|vals| - 1]) else 0
  }

  function Histogram(vals: seq<StakeRow>): (h: seq<FeeBucket>)
    ensures |h| == 5 && forall b :: 0 <= b < 5 ==> h[b] == FeeBucket(CountIn(vals, b), StakeIn(vals, b))
  {
    seq(5, (b: nat) => FeeBucket(CountIn(vals, b), StakeIn(vals, b)))
  }

  method ComputeBucket(fee: real) returns (b: nat)
    ensures b == BucketOf(fee)
  {
    b := |FEE_BUCKET_BOUNDS|;
    for j := 0 to |FEE_BUCKET_BOUNDS|
      invariant BucketOf(fee) == BucketOf(fee, j)
    {
      if fee <= FEE_BUCKET_BOUNDS[j] {
        return j;
      }
    }
  }

  /** A fee is in the bucket between its neighbouring bounds, the upper one included; fees below the 2%
      minimum would count as the minimum. */
  lemma BucketBounds(fee: real)
    ensures var b := BucketOf(fee);
            && (b > 0 ==> fee > FEE_BUCKET_BOUNDS[b - 1])
            && (b < |FEE_BUCKET_BOUNDS| ==> fee <= FEE_BUCKET_BOUNDS[b])
  {
    BucketFromBounds(fee, 0);
  }

  lemma {:induction false} BucketFromBounds(fee: real, j: nat)
    requires j <= |FEE_BUCKET_BOUNDS| && (j > 0 ==> fee > FEE_BUCKET_BOUNDS[j - 1])
    ensures var b := BucketOf(fee, j);
            && (b > 0 ==> fee > FEE_BUCKET_BOUNDS[b - 1])
            && (b < |FEE_BUCKET_BOUNDS| ==> fee <= FEE_BUCKET_BOUNDS[b])
    decreases |FEE_BUCKET_BOUNDS| - j
  {
    if j < |FEE_BUCKET_BOUNDS| && fee > FEE_BUCKET_BOUNDS[j] { BucketFromBounds(fee, j + 1); }
  }

  function TotalCount(h: seq<FeeBucket>): nat {
    if h == [] then 0 else h[0].count + TotalCount(h[1..])
  }

  function TotalStake(h: seq<FeeBucket>): nat {
    if h == [] then 0 else h[0].stake + TotalStake(h[1..])
  }

  lemma FiveBuckets(h: seq<FeeBucket>)
    requires |h| == 5
    ensures TotalCount(h) == h[0].count + h[1].count + h[2].count + h[3].count + h[4].count
    ensures TotalStake(h) == h[0].stake + h[1].stake + h[2].stake + h[3].stake + h[4].stake
  {
    assert h[1..][1..] == h[2..] && h[2..][1..] == h[3..] && h[3..][1..] == h[4..] && h[4..][1..] == [];
    assert TotalCount(h[4..]) == h[4].count && TotalStake(h[4..]) == h[4].stake;
    assert TotalCount(h[3..]) == h[3].count + TotalCount(h[4..]);
    assert TotalCount(h[2..]) == h[2].count + TotalCount(h[3..]);
    assert TotalStake(h[3..]) == h[3].stake + TotalStake(h[4..]);
    assert TotalStake(h[2..]) == h[2].stake + TotalStake(h[3..]);
  }

  lemma {:induction false} EveryoneInOneBucket(vals: seq<StakeRow>)
    ensures CountIn(vals, 0) + CountIn(vals, 1) + CountIn(vals, 2) + CountIn(vals, 3) + CountIn(vals, 4) == |vals|
    ensures StakeIn(vals, 0) + StakeIn(vals, 1) + StakeIn(vals, 2) + StakeIn(vals, 3) + StakeIn(vals, 4)
            == Sum(Totals(vals))
  {
    if vals != [] {
      EveryoneInOneBucket(vals[..|vals| - 1]);
      assert Totals(vals)[..|vals| - 1] == Totals(vals[..|vals| - 1]);
      var b := BucketOf(vals[|vals| - 1].fee);
      assert b == 0 || b == 1 || b == 2 || b == 3 || b == 4;
      hide BucketOf, TotalOf;
    }
  }

  lemma WrapLoss(v: StakeRow)
    ensures TotalOf(v) <= v.own + v.delegated
    ensures TotalOf(v) == v.own + v.delegated <==> v.own + v.delegated < 0x1_0000_0000_0000_0000
  {
  }

  /** The totals used for the histogram and the ranking add up to the total stake exactly when none of them
      overflows uint64. */
  lemma {:induction false} TotalsAddUp(vals: seq<StakeRow>)
    ensures Sum(Totals(vals)) <= Sum(Owns(vals)) + Sum(Delegateds(vals))
    ensures Sum(Totals(vals)) == Sum(Owns(vals)) + Sum(Delegateds(vals)) <==> NoWrap(vals)
  {
    if vals != [] {
      var last := |vals| - 1;
      TotalsAddUp(vals[..last]);
      WrapLoss(vals[last]);
      assert Totals(vals)[..last] == Totals(vals[..last]);
      assert Owns(vals)[..last] == Owns(vals[..last]);
      assert Delegateds(vals)[..last] == Delegateds(vals[..last]);
      assert NoWrap(vals) <==>
             NoWrap(vals[..last]) && vals[last].own + vals[last].delegated < 0x1_0000_0000_0000_0000;
      hide TotalOf, NoWrap;
    }
  }

  /** The histogram loses nobody and, unless a total overflows, no stake. */
  lemma HistogramConserves(vals: seq<StakeRow>)
    ensures TotalCount(Histogram(vals)) == |vals|
    ensures TotalStake(Histogram(vals)) == Sum(Owns(vals)) + Sum(Delegateds(vals)) <==> NoWrap(vals)
  {
    FiveBuckets(Histogram(vals));
    EveryoneInOneBucket(vals);
    TotalsAddUp(vals);
  }

  // ---- Median fee ----

  predicate Asc(a: real, b: real) {
    a <= b
  }

  function Median(fees: seq<real>): real {
    var s := Sort(fees, Asc);
    if |s| == 0 then 0.0 else MiddleOf(s)
  }

  function Count(s: seq<real>, p: real -> bool): nat {
    if s == [] then 0 else (if p(s[0]) then 1 else 0) + Count(s[1..], p)
  }

  lemma {:induction false} CountInsert(x: real, s: seq<real>, p: real -> bool)
    ensures Count(Insert(x, s, Asc), p) == Count(s, p) + if p(x) then 1 else 0
  {
    if s != [] && !Asc(x, s[0]) {
      CountInsert(x, s[1..], p);
      assert ([s[0]] + Insert(x, s[1..], Asc))[1..] == Insert(x, s[1..], Asc);
    } else {
      assert ([x] + s)[1..] == s;
    }
  }

  lemma {:induction false} CountSorted(s: seq<real>, p: real -> bool)
    ensures Count(Sort(s, Asc), p) == Count(s, p)
  {
    if s != [] {
      CountSorted(s[1..], p);
      CountInsert(s[0], Sort(s[1..], Asc), p);
    }
  }

  lemma {:induction false} CountPrefix(s: seq<real>, p: real -> bool, k: nat)
    requires k <= |s| && forall i :: 0 <= i < k ==> p(s[i])
    ensures Count(s, p) >= k
  {
    if k > 0 { CountPrefix(s[1..], p, k - 1); }
  }

  lemma {:induction false} CountSuffix(s: seq<real>, p: real -> bool, k: nat)
    requires k <= |s| && forall i :: k <= i < |s| ==> p(s[i])
    ensures Count(s, p) >= |s| - k
  {
    if s != [] { CountSuffix(s[1..], p, if k > 0 then k - 1 else 0); }
  }

  function MiddleOf(s: seq<real>): real
    requires s != []
  {
    var m := |s| / 2;
    if |s| % 2 == 1 then s[m] else (s[m - 1] + s[m]) / 2.0
  }

  lemma MiddleSplits(s: seq<real>, i: nat)
    requires s != [] && Sorted(s, Asc) && i < |s|
    ensures i < |s| / 2 || (|s| % 2 == 1 && i == |s| / 2) ==> s[i] <= MiddleOf(s)
    ensures i >= |s| / 2 ==> s[i] >= MiddleOf(s)
  {
    var half := |s| / 2;
    assert half >= 1 ==> Asc(s[half - 1], s[half]);
    if i < half - 1 { assert Asc(s[i], s[half - 1]); }
    if i > half { assert Asc(s[half], s[i]); }
  }

  lemma SortedFees(fees: seq<real>)
    ensures Sorted(Sort(fees, Asc), Asc)
  {
    assert TotalPreorder(Asc);
    SortSorted(fees, Asc);
  }

  /** At least half of the validators charge no more than the median fee, and at least half no less. */
  lemma MedianSplits(fees: seq<real>)
    requires fees != []
    ensures var m := Median(fees);
            2 * Count(fees, x => x <= m) >= |fees| && 2 * Count(fees, x => x >= m) >= |fees|
  {
    var s := Sort(fees, Asc);
    var m := Median(fees);
    assert m == MiddleOf(s);
    SortedFees(fees);
    hide MiddleOf, Median, Sorted;
    var half := |s| / 2;
    var le, ge := (x: real) => x <= m, (x: real) => x >= m;
    CountSorted(fees, le);
    CountSorted(fees, ge);
    hide Sort, Count;
    var k := if |s| % 2 == 1 then half + 1 else half;
    forall i | 0 <= i < |s| ensures (i < k ==> le(s[i])) && (i >= half ==> ge(s[i])) {
      MiddleSplits(s, i);
    }
    CountPrefix(s, le, k);
    CountSuffix(s, ge, half);
  }

  // ---- The summary ----

  function Summarize(vals: seq<StakeRow>, supply: uint64): Summary {
    var own, delegated := Sum(Owns(vals)), Sum(Delegateds(vals));
    var total := own + delegated;
    Summary(|vals|, DelegationCount(vals), own, delegated, total,
            if supply > 0 then Some(total as real / supply as real * 100.0) else None,
            Median(Fees(vals)), Histogram(vals),
            Concentrate(Sort(Totals(vals), Desc), total))
  }

  /** The loop over the rows. */
  method Accumulate(vals: seq<StakeRow>)
    returns (own: nat, delegated: nat, delegations: uint64, totals: seq<nat>, fees: seq<real>, buckets: seq<FeeBucket>)
    ensures own == Sum(Owns(vals)) && delegated == Sum(Delegateds(vals)) && delegations == DelegationCount(vals)
    ensures totals == Totals(vals) && fees == Fees(vals) && buckets == Histogram(vals)
  {
    hide Concentrate, BucketOf, TotalOf, WrapU64, Sum, Histogram, DelegationCount;
    own, delegated, delegations := 0, 0, 0;
    totals, fees := [], [];
    buckets := [FeeBucket(0, 0), FeeBucket(0, 0), FeeBucket(0, 0), FeeBucket(0, 0), FeeBucket(0, 0)];
    NothingYet();
    assert vals[..0] == [];
    for i := 0 to |vals|
      invariant own == Sum(Owns(vals[..i])) && delegated == Sum(Delegateds(vals[..i]))
      invariant delegations == DelegationCount(vals[..i])
      invariant totals == Totals(vals[..i]) && fees == Fees(vals[..i])
      invariant buckets == Histogram(vals[..i])
    {
      var v := vals[i];
      PrefixStep(vals, i);
      own := own + v.own;
      delegated := delegated + v.delegated;
      delegations := WrapU64(delegations + v.delegations);
      var t: nat := TotalOf(v);
      totals := totals + [t];
      fees := fees + [v.fee];
      var b := ComputeBucket(v.fee);
      buckets := buckets[b := FeeBucket(buckets[b].count + 1, buckets[b].stake + t)];
    }
    assert vals[..|vals|] == vals;
  }

  method BuildStakingSummary(vals: seq<StakeRow>, supply: uint64) returns (out: Summary)
    ensures out == Summarize(vals, supply)
  {
    hide Concentrate, Histogram, DelegationCount, Sum, Sort, MiddleOf, Totals, Owns, Delegateds, Fees;
    var own, delegated, delegations, totals, fees, buckets := Accumulate(vals);
    var total := own + delegated;
    var median := 0.0;
    if |fees| > 0 {
      fees := Sort(fees, Asc);
      median := MiddleOf(fees);
    }
    var percent := None;
    if supply > 0 {
      percent := Some(total as real / supply as real * 100.0);
    }
    totals := Sort(totals, Desc);
    var concentration := ComputeConcentration(totals, total);
    return Summary(|vals|, delegations, own, delegated, total, percent, median, buckets, concentration);
  }

  lemma NothingYet()
    ensures Sum(Owns([])) == 0 && Sum(Delegateds([])) == 0 && DelegationCount([]) == 0
    ensures Histogram([]) == [FeeBucket(0, 0), FeeBucket(0, 0), FeeBucket(0, 0), FeeBucket(0, 0), FeeBucket(0, 0)]
  {
  }

  /** How each accumulator changes with one more row. */
  lemma PrefixStep(vals: seq<StakeRow>, i: nat)
    requires i < |vals|
    ensures var a, b := vals[..i], vals[..i + 1];
            && Sum(Owns(b)) == Sum(Owns(a)) + vals[i].own
            && Sum(Delegateds(b)) == Sum(Delegateds(a)) + vals[i].delegated
            && DelegationCount(b) == WrapU64(DelegationCount(a) + vals[i].delegations)
            && Totals(b) == Totals(a) + [TotalOf(vals[i])]
            && Fees(b) == Fees(a) + [vals[i].fee]
            && var k := BucketOf(vals[i].fee);
               Histogram(b) == Histogram(a)[k := FeeBucket(Histogram(a)[k].count + 1, Histogram(a)[k].stake + TotalOf(vals[i]))]
  {
    hide BucketOf, TotalOf, WrapU64;
    var a, b := vals[..i], vals[..i + 1];
    assert b[..i] == a && b[i] == vals[i];
    assert Owns(b)[..i] == Owns(a) && Delegateds(b)[..i] == Delegateds(a);
  }

  /** A quantity of the rows, summed. */
  function Adds(vals: seq<StakeRow>, f: StakeRow -> nat): nat {
    if vals == [] then 0 else Adds(vals[..|vals| - 1], f) + f(vals[|vals| - 1])
  }

  lemma {:induction false} SumIsAdds(s: seq<nat>, vals: seq<StakeRow>, f: StakeRow -> nat)
    requires |s| == |vals| && forall i :: 0 <= i < |s| ==> s[i] == f(vals[i])
    ensures Sum(s) == Adds(vals, f)
  {
    if s != [] { SumIsAdds(s[..|s| - 1], vals[..|vals| - 1], f); }
  }

  lemma WrapTwice(a: nat, b: nat)
    ensures WrapU64(WrapU64(a) + b) == (a + b) % 0x1_0000_0000_0000_0000
  {
  }

  lemma {:induction false} DelegationsAdd(vals: seq<StakeRow>, f: StakeRow -> nat)
    requires forall v :: f(v) == v.delegations
    ensures DelegationCount(vals) == Adds(vals, f) % 0x1_0000_0000_0000_0000
  {
    if vals != [] {
      DelegationsAdd(vals[..|vals| - 1], f);
      WrapTwice(Adds(vals[..|vals| - 1], f), vals[|vals| - 1].delegations);
    }
  }

  /** The buckets: up to 2%, above that up to 5%, up to 10%, up to 20%, and above 20%. */
  predicate InBucket(fee: real, b: nat) {
    match b
    case 0 => fee <= 2.0
    case 1 => 2.0 < fee <= 5.0
    case 2 => 5.0 < fee <= 10.0
    case 3 => 10.0 < fee <= 20.0
    case _ => b == 4 && fee > 20.0
  }

  lemma BucketIs(fee: real, b: nat)
    ensures BucketOf(fee) == b <==> InBucket(fee, b)
  {
    BucketBounds(fee);
  }

  lemma {:induction false} BucketAdds(vals: seq<StakeRow>, b: nat, one: StakeRow -> nat, stake: StakeRow -> nat)
    requires forall v :: one(v) == if InBucket(v.fee, b) then 1 else 0
    requires forall v :: stake(v) == if InBucket(v.fee, b) then (v.own + v.delegated) % 0x1_0000_0000_0000_0000 else 0
    ensures CountIn(vals, b) == Adds(vals, one) && StakeIn(vals, b) == Adds(vals, stake)
  {
    hide BucketOf, InBucket;
    if vals != [] {
      BucketAdds(vals[..|vals| - 1], b, one, stake);
      BucketIs(vals[|vals| - 1].fee, b);
    }
  }

  /** The one in the middle, or the mean of the two, of fees in order. */
  ghost predicate InTheMiddle(m: real, s: seq<real>) {
    var half := |s| / 2;
    if |s| == 0 then m == 0.0
    else if |s| % 2 == 1 then m == s[half]
    else m + m == s[half - 1] + s[half]
  }

  lemma MedianIs(fees: seq<real>, s: seq<real>)
    requires multiset(s) == multiset(fees) && forall i, j :: 0 <= i < j < |s| ==> s[i] <= s[j]
    ensures InTheMiddle(Median(fees), s)
  {
    SortedFees(fees);
    hide Sort;
    assert Sorted(s, Asc);
    SortedUnique(s, Sort(fees, Asc), Asc);
  }

  /** The reported fee is the median in any ordered list of the rows' fees. */
  lemma SummaryMedian(vals: seq<StakeRow>, supply: uint64, s: seq<real>)
    requires multiset(s) == multiset(Fees(vals)) && forall i, j :: 0 <= i < j < |s| ==> s[i] <= s[j]
    ensures InTheMiddle(Summarize(vals, supply).median, s)
  {
    hide Sort, Concentrate, Sum, DelegationCount, Histogram, Median, InTheMiddle;
    MedianIs(Fees(vals), s);
  }

  /** What a summary has to report about the rows: the number of validators, the sums of their stakes and of their
      delegations (the latter in uint64), all stake as a percentage of the supply when there is one, and the
      validators and uint64 totals in each bucket. */
  ghost predicate Reports(out: Summary, vals: seq<StakeRow>, supply: uint64) {
    && out.validatorCount == |vals|
    && out.own == Adds(vals, (v: StakeRow) => v.own)
    && out.delegated == Adds(vals, (v: StakeRow) => v.delegated)
    && out.total == out.own + out.delegated
    && out.delegationCount == Adds(vals, (v: StakeRow) => v.delegations) % 0x1_0000_0000_0000_0000
    && IsShare(out.stakedSupplyPercent, out.total, supply)
    && BucketsOf(out.histogram, vals)
  }

  lemma SummaryFields(vals: seq<StakeRow>, supply: uint64)
    ensures Reports(Summarize(vals, supply), vals, supply)
  {
    var out := Summarize(vals, supply);
    hide Sort, Concentrate, Adds, Sum, DelegationCount, Histogram, Median, BucketsOf, IsShare;
    SumsAre(vals);
    hide Owns, Delegateds, Totals, Fees;
    ShareIs(out.total, supply);
    HistogramIs(vals);
  }

  lemma SumsAre(vals: seq<StakeRow>)
    ensures Sum(Owns(vals)) == Adds(vals, (v: StakeRow) => v.own)
    ensures Sum(Delegateds(vals)) == Adds(vals, (v: StakeRow) => v.delegated)
    ensures DelegationCount(vals) == Adds(vals, (v: StakeRow) => v.delegations) % 0x1_0000_0000_0000_0000
  {
    hide Sum, Adds, DelegationCount;
    SumIsAdds(Owns(vals), vals, (v: StakeRow) => v.own);
    SumIsAdds(Delegateds(vals), vals, (v: StakeRow) => v.delegated);
    DelegationsAdd(vals, (v: StakeRow) => v.delegations);
  }

  /** Each of the five buckets has the number of the validators whose fee is in it, and their uint64 totals. */
  ghost predicate BucketsOf(h: seq<FeeBucket>, vals: seq<StakeRow>) {
    |h| == 5 && forall b: nat :: b < 5 ==>
      && h[b].count == Adds(vals, (v: StakeRow) => if InBucket(v.fee, b) then 1 else 0)
      && h[b].stake == Adds(vals, (v: StakeRow) => if InBucket(v.fee, b) then (v.own + v.delegated) % 0x1_0000_0000_0000_0000 else 0)
  }

  lemma HistogramIs(vals: seq<StakeRow>)
    ensures BucketsOf(Histogram(vals), vals)
  {
    hide Adds, CountIn, StakeIn, InBucket;
    forall b: nat | b < 5
      ensures CountIn(vals, b) == Adds(vals, (v: StakeRow) => if InBucket(v.fee, b) then 1 else 0)
      ensures StakeIn(vals, b)
              == Adds(vals, (v: StakeRow) => if InBucket(v.fee, b) then (v.own + v.delegated) % 0x1_0000_0000_0000_0000 else 0)
    {
      BucketAdds(vals, b, (v: StakeRow) => if InBucket(v.fee, b) then 1 else 0,
        (v: StakeRow) => if InBucket(v.fee, b) then (v.own + v.delegated) % 0x1_0000_0000_0000_0000 else 0);
    }
  }

  /** The percentage of the supply, known when there is one. */
  ghost predicate IsShare(percent: Option<real>, total: nat, supply: nat) {
    if supply == 0 then percent.None? else percent.Some? && percent.value * supply as real == 100.0 * total as real
  }

  lemma ShareIs(total: nat, supply: nat)
    ensures IsShare(if supply > 0 then Some(total as real / supply as real * 100.0) else None, total, supply)
  {
  }

  /** What the summary says about concentration: the Nakamoto numbers are the least sizes of coalitions whose totals
      add up to more than a third and more than half of all stake, 0 when there is none. Unless a total overflows
      uint64 these are the validators' true totals and the numbers agree with the SQL definition. */
  lemma SummaryNakamoto(vals: seq<StakeRow>, supply: uint64)
    ensures var w, all, c := Totals(vals), Summarize(vals, supply).total, Summarize(vals, supply).concentration;
            && IsLeastMajority(w, all, 3, c.nakamoto33) && IsLeastMajority(w, all, 2, c.nakamoto50)
            && (NoWrap(vals) ==>
                  && (forall i :: 0 <= i < |vals| ==> w[i] == vals[i].own + vals[i].delegated)
                  && Sum(w) == all
                  && c.nakamoto33 == SqlNakamoto(w, 3) && c.nakamoto50 == SqlNakamoto(w, 2))
  {
    var w := Totals(vals);
    var all := Summarize(vals, supply).total;
    TotalsAddUp(vals);
    SummaryParts(vals, supply);
    forall i | 0 <= i < |vals| && NoWrap(vals) ensures w[i] == vals[i].own + vals[i].delegated { WrapLoss(vals[i]); }
    hide Sort, IsLeastMajority, TotalOf, FirstOver, SqlNakamoto, Totals, TopPercent, Sum, NoWrap, Summarize;
    LeastMajority(w, all, 3);
    LeastMajority(w, all, 2);
    if all == 0 { NoStakeNoMajority(w, 3); NoStakeNoMajority(w, 2); }
    NakamotoAgreesWithSql(w, 3);
    NakamotoAgreesWithSql(w, 2);
  }

  lemma SummaryParts(vals: seq<StakeRow>, supply: uint64)
    ensures var out := Summarize(vals, supply);
            && out.total == Sum(Owns(vals)) + Sum(Delegateds(vals))
            && out.concentration == Concentrate(Sort(Totals(vals), Desc), out.total)
  {
    hide Sort, Sum, Totals, Owns, Delegateds, Concentrate, Histogram, Median, DelegationCount, Fees;
  }

  lemma NoStakeNoMajority(w: seq<nat>, times: nat)
    requires Sum(w) == 0 && times >= 2
    ensures FirstOver(Sort(w, Desc), 0, times, 0) == 0
  {
    NakamotoZero(w, times);
  }

  /** With an overflow they miss true stake: a validator with 2^64 staked in all vanishes, and no coalition is
      reported although there is stake. */
  lemma OverflowHidesStake(v: StakeRow, supply: uint64)
    requires v.own + v.delegated == 0x1_0000_0000_0000_0000
    ensures var out := Summarize([v], supply);
            out.total == 0x1_0000_0000_0000_0000 && out.concentration.nakamoto33 == out.concentration.nakamoto50 == 0
  {
    var w, all := Totals([v]), Summarize([v], supply).total;
    OneValidator(v);
    assert TotalOf(v) == 0;
    SummaryNakamoto([v], supply);
    SummaryParts([v], supply);
    hide Totals, TotalOf, Summarize, IsLeastMajority, Concentrate, Sum;
    NothingToHold(w, all, 3, Summarize([v], supply).concentration.nakamoto33);
    NothingToHold(w, all, 2, Summarize([v], supply).concentration.nakamoto50);
  }

  lemma OneValidator(v: StakeRow)
    ensures Totals([v]) == [TotalOf(v)]
    ensures Sum(Totals([v])) == TotalOf(v) && Sum(Owns([v])) == v.own && Sum(Delegateds([v])) == v.delegated
  {
    hide TotalOf;
    assert Totals([v])[..0] == [] && Owns([v])[..0] == [] && Delegateds([v])[..0] == [];
  }

  lemma NothingToHold(w: seq<nat>, total: nat, times: nat, n: nat)
    requires Sum(w) == 0 && IsLeastMajority(w, total, times, n)
    ensures n == 0
  {
    hide Sort, Cum, StakeOf, IsSubset, Sum;
    if n > 0 {
      var chosen :| IsSubset(w, chosen) && |chosen| == n && StakeOf(w, chosen) * times > total;
      LargestSets(w, chosen);
      SortedSum(w);
      CumMonotone(Sort(w, Desc), n, |w|);
    }
  }

  /** The validators' true totals. */
  function TrueTotals(vals: seq<StakeRow>): (r: seq<nat>)
    ensures |r| == |vals| && forall i :: 0 <= i < |r| ==> r[i] == vals[i].own + vals[i].delegated
  {
    seq(|vals|, i requires 0 <= i < |vals| => vals[i].own + vals[i].delegated)
  }

  lemma {:induction false} StakeGrows(w: seq<nat>, u: seq<nat>, chosen: set<nat>)
    requires |w| == |u| && forall i :: 0 <= i < |w| ==> w[i] <= u[i]
    ensures StakeOf(w, chosen) <= StakeOf(u, chosen)
  {
    if w != [] { StakeGrows(w[..|w| - 1], u[..|u| - 1], chosen); }
  }

  lemma SmallerWeights(w: seq<nat>, u: seq<nat>, total: nat, times: nat, m: nat, n: nat)
    requires |w| == |u| && forall i :: 0 <= i < |w| ==> w[i] <= u[i]
    requires IsLeastMajority(w, total, times, m) && IsLeastMajority(u, total, times, n)
    ensures m == 0 || m >= n > 0
  {
    hide StakeOf, IsSubset;
    if m > 0 {
      var chosen :| IsSubset(w, chosen) && |chosen| == m && StakeOf(w, chosen) * times > total;
      StakeGrows(w, u, chosen);
      assert IsSubset(u, chosen) by { SameIndexes(w, u, chosen); }
      assert StakeOf(u, chosen) * times >= StakeOf(w, chosen) * times;
    }
  }

  lemma SameIndexes(w: seq<nat>, u: seq<nat>, chosen: set<nat>)
    requires |w| == |u| && IsSubset(w, chosen)
    ensures IsSubset(u, chosen)
  {
  }

  /** Overflows only ever hide stake: a reported Nakamoto number is 0 or at least the true one, which is what the
      loop would find for the true totals. */
  lemma NeverBelowTrueNakamoto(vals: seq<StakeRow>, supply: uint64)
    ensures var u, out := TrueTotals(vals), Summarize(vals, supply);
            var n33, n50 := FirstOver(Sort(u, Desc), out.total, 3, 0), FirstOver(Sort(u, Desc), out.total, 2, 0);
            && IsLeastMajority(u, out.total, 3, n33) && IsLeastMajority(u, out.total, 2, n50)
            && (out.concentration.nakamoto33 == 0 || out.concentration.nakamoto33 >= n33 > 0)
            && (out.concentration.nakamoto50 == 0 || out.concentration.nakamoto50 >= n50 > 0)
  {
    var w, u, out := Totals(vals), TrueTotals(vals), Summarize(vals, supply);
    SummaryNakamoto(vals, supply);
    forall i | 0 <= i < |w| ensures w[i] <= u[i] { WrapLoss(vals[i]); }
    hide Totals, TrueTotals, TotalOf, Summarize, IsLeastMajority, FirstOver, Sort;
    LeastMajority(u, out.total, 3);
    LeastMajority(u, out.total, 2);
    SmallerWeights(w, u, out.total, 3, out.concentration.nakamoto33, FirstOver(Sort(u, Desc), out.total, 3, 0));
    SmallerWeights(w, u, out.total, 2, out.concentration.nakamoto50, FirstOver(Sort(u, Desc), out.total, 2, 0));
  }

  /** No 10, 50 or 100 validators hold a larger share than the top-10, top-50 and top-100 percentages, where their
      totals are those that the summary ranks. */
  lemma SummaryTopShares(vals: seq<StakeRow>, supply: uint64, chosen: set<nat>)
    requires Summarize(vals, supply).total > 0 && IsSubset(Totals(vals), chosen)
    ensures var w, c := Totals(vals), Summarize(vals, supply).concentration;
            var share := StakeOf(w, chosen) as real / Summarize(vals, supply).total as real * 100.0;
            && (|chosen| <= 10 ==> share <= c.top10)
            && (|chosen| <= 50 ==> share <= c.top50)
            && (|chosen| <= 100 ==> share <= c.top100)
  {
    var w := Totals(vals);
    TotalsAddUp(vals);
    SummaryParts(vals, supply);
    hide Sort, StakeOf, IsSubset, TotalOf, FirstOver, Totals, TopPercent, Sum, Summarize;
    TopPercentIsLargestShare(w, Summarize(vals, supply).total, 10);
    TopPercentIsLargestShare(w, Summarize(vals, supply).total, 50);
    TopPercentIsLargestShare(w, Summarize(vals, supply).total, 100);
  }
}
