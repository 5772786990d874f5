/** pkg/api/stablecoin_cache.go as a protocol: requests, cold loads and refreshes are concurrent, but each
    touches the cache only while it holds the mutex. A step is one such critical section (or a request
    giving up), steps interleave arbitrarily, and a pointer to an entry is an index into `heap`. */
module StablecoinProtocol {
  import opened Base

  type Chain = uint32
  type Data = seq<string>

  /** What a loader returned; the error's text stands for the error. */
  datatype Loaded = Failed(error: string) | Loaded(data: Data)

  datatype Entry = Entry(
    data: Option<Data>,      // None is nil
    fetched: int,
    refreshing: bool,
    loading: Option<nat>,    // the channel of the running cold load
    err: Option<string>)

  const NEW_ENTRY := Entry(None, 0, false, None, None)

  /** A request blocked in its select: the entry and the channel it waits for. */
  datatype Waiter = Waiter(ptr: nat, channel: nat)

  datatype State = State(
    ttl: int,
    entries: map<Chain, nat>,
    heap: seq<Entry>,
    nextChannel: nat,
    outcomes: map<nat, Loaded>,          // closed channels, with what their load returned
    coldLoads: multiset<(Chain, nat)>,   // running coldLoad goroutines: chain and entry
    refreshes: multiset<Chain>,          // running refresh goroutines
    waiters: map<nat, Waiter>)           // blocked requests, by request number

  datatype Step =
    | Get(request: nat, chain: Chain, now: int)
    | Cancel(request: nat)
    | Wake(request: nat)
    | ColdLoadEnd(chain: Chain, ptr: nat, result: Loaded, now: int)
    | RefreshEnd(chain: Chain, result: Loaded, now: int)

  function Init(ttl: int): State {
    State(ttl, map[], [], 0, map[], multiset{}, multiset{}, map[])
  }

  ghost predicate Enabled(s: State, a: Step) {
    match a
    case Get(r, c, _) => r !in s.waiters && (c in s.entries ==> s.entries[c] < |s.heap|)
    case Cancel(r) => r in s.waiters
    case Wake(r) => r in s.waiters && s.waiters[r].channel in s.outcomes && s.waiters[r].ptr < |s.heap|
    case ColdLoadEnd(c, p, _, _) => (c, p) in s.coldLoads && p < |s.heap| && s.heap[p].loading.Some?
    case RefreshEnd(c, _, _) => c in s.refreshes && (c in s.entries ==> s.entries[c] < |s.heap|)
  }

  function SetEntry(s: State, p: nat, e: Entry): State
    requires p < |s.heap|
  {
    s.(heap := s.heap[p := e])
  }

  /** get, up to the unlock: serve what is there, and start a load when it is stale or missing. */
  function DoGet(s: State, request: nat, chain: Chain, now: int): State
    requires chain in s.entries ==> s.entries[chain] < |s.heap|
  {
    if chain in s.entries && s.heap[s.entries[chain]].data.Some? then
      var p := s.entries[chain];
      var e := s.heap[p];
      if now - e.fetched >= s.ttl && !e.refreshing then
        SetEntry(s, p, e.(refreshing := true)).(refreshes := s.refreshes + multiset{chain})
      else s
    else Join(if chain in s.entries then s else AddEntry(s, chain), request, chain)
  }

  function AddEntry(s: State, chain: Chain): State {
    s.(heap := s.heap + [NEW_ENTRY], entries := s.entries[chain := |s.heap|])
  }

  /** Start a cold load unless one runs, and wait for its channel. */
  function Join(s: State, request: nat, chain: Chain): State
    requires chain in s.entries && s.entries[chain] < |s.heap|
  {
    var p := s.entries[chain];
    var e := s.heap[p];
    var s2 := if e.loading.Some? then s
              else SetEntry(s, p, e.(loading := Some(s.nextChannel)))
                   .(nextChannel := s.nextChannel + 1, coldLoads := s.coldLoads + multiset{(chain, p)});
    s2.(waiters := s2.waiters[request := Waiter(p, s2.heap[p].loading.value)])
  }

  /** The end of coldLoad, under the mutex. */
  function DoColdLoadEnd(s: State, chain: Chain, p: nat, result: Loaded, now: int): State
    requires p < |s.heap| && s.heap[p].loading.Some?
  {
    var e := s.heap[p].(err := if result.Failed? then Some(result.error) else None);
    var keep := result.Loaded? && |result.data| > 0;
    var e1 := if keep then e.(data := Some(result.data), fetched := now) else e;
    var entries1 := if !keep && chain in s.entries && s.entries[chain] == p then s.entries - {chain} else s.entries;
    SetEntry(s, p, e1.(loading := None))
      .(entries := entries1,
        outcomes := s.outcomes[e.loading.value := result],
        coldLoads := s.coldLoads - multiset{(chain, p)})
  }

  /** Its first half, before the channel is closed. */
  function Recorded(s: State, chain: Chain, p: nat, result: Loaded, now: int): State
    requires p < |s.heap|
  {
    var e := s.heap[p].(err := if result.Failed? then Some(result.error) else None);
    var keep := result.Loaded? && |result.data| > 0;
    SetEntry(s, p, if keep then e.(data := Some(result.data), fetched := now) else e)
      .(entries := if !keep && chain in s.entries && s.entries[chain] == p then s.entries - {chain} else s.entries)
  }

  lemma ColdLoadEndHalves(s: State, chain: Chain, p: nat, result: Loaded, now: int)
    requires p < |s.heap| && s.heap[p].loading.Some?
    ensures var m := Recorded(s, chain, p, result, now);
            DoColdLoadEnd(s, chain, p, result, now) ==
            SetEntry(m, p, m.heap[p].(loading := None))
              .(outcomes := m.outcomes[m.heap[p].loading.value := result], coldLoads := m.coldLoads - multiset{(chain, p)})
  {
  }

  /** The end of refresh, under the mutex. */
  function DoRefreshEnd(s: State, chain: Chain, result: Loaded, now: int): State
    requires chain in s.entries ==> s.entries[chain] < |s.heap|
  {
    var s1 := s.(refreshes := s.refreshes - multiset{chain});
    if chain !in s.entries then s1
    else
      var p := s.entries[chain];
      var e := s.heap[p].(refreshing := false);
      SetEntry(s1, p, if result.Loaded? && |result.data| > 0 then e.(data := Some(result.data), fetched := now) else e)
  }

  /** One enabled step. */
  ghost function Next(s: State, a: Step): State
    requires Enabled(s, a)
  {
    match a
    case Get(r, c, now) => DoGet(s, r, c, now)
    case Cancel(r) => s.(waiters := s.waiters - {r})
    case Wake(r) => s.(waiters := s.waiters - {r})
    case ColdLoadEnd(c, p, result, now) => DoColdLoadEnd(s, c, p, result, now)
    case RefreshEnd(c, result, now) => DoRefreshEnd(s, c, result, now)
  }

  /** What a woken request returns (the second critical section of get). */
  function Answer(e: Entry): Loaded {
    if e.err.Some? then Failed(e.err.value)
    else if e.data.None? then Loaded([])
    else Loaded(e.data.value)
  }

  // ---- The invariant ----

  /** Pointers are valid and the map does not share entries between chains. */
  ghost predicate PointersOk(s: State) {
    && (forall c :: c in s.entries ==> s.entries[c] < |s.heap|)
    && (forall c, d :: c in s.entries && d in s.entries && c != d ==> s.entries[c] != s.entries[d])
  }

  /** An entry of the map has data or a running cold load, never both, and runs at most one load. */
  ghost predicate EntryOk(s: State, c: Chain)
    requires c in s.entries && s.entries[c] < |s.heap|
  {
    Consistent(s.heap[s.entries[c]], s.coldLoads[(c, s.entries[c])], s.refreshes[c])
  }

  ghost predicate Consistent(e: Entry, coldLoads: nat, refreshes: nat) {
    && coldLoads == (if e.data.Some? then 0 else 1)
    && (e.data.Some? <==> e.loading.None?)
    && (e.data.Some? ==> |e.data.value| > 0 && e.err.None?)
    && refreshes == (if e.refreshing then 1 else 0)
    && (e.refreshing ==> e.data.Some?)
  }

  /** Every running load belongs to the entry the map holds for its chain. */
  ghost predicate LoadsOk(s: State) {
    && (forall c, p :: (c, p) in s.coldLoads ==> c in s.entries && s.entries[c] == p)
    && (forall c :: c in s.refreshes ==> c in s.entries)
  }

  /** Entries no longer in the map run nothing and hold nothing. */
  ghost predicate DroppedOk(s: State) {
    forall p :: 0 <= p < |s.heap| && (forall c :: c in s.entries ==> s.entries[c] != p) ==>
      s.heap[p].loading.None? && s.heap[p].data.None? && !s.heap[p].refreshing
  }

  /** Open channels are distinct and have been handed out. */
  ghost predicate ChannelsOk(s: State) {
    && (forall ch :: ch in s.outcomes ==> ch < s.nextChannel)
    && (forall p :: 0 <= p < |s.heap| && s.heap[p].loading.Some? ==>
          s.heap[p].loading.value < s.nextChannel && s.heap[p].loading.value !in s.outcomes)
    && (forall p, q :: 0 <= p < q < |s.heap| && s.heap[p].loading.Some? && s.heap[q].loading.Some? ==>
          s.heap[p].loading != s.heap[q].loading)
  }

  /** A waiter's channel is open, and then it is its entry's, or closed, and then its entry holds what the
      load returned. */
  ghost predicate WaiterOk(s: State, w: Waiter) {
    && w.ptr < |s.heap|
    && var e := s.heap[w.ptr];
       if w.channel !in s.outcomes then e.loading == Some(w.channel)
       else
         && e.loading.None?
         && match s.outcomes[w.channel]
            case Failed(x) => e.err == Some(x)
            case Loaded(d) => e.err.None? && (if d == [] then e.data.None? else e.data.Some? && |e.data.value| > 0)
  }

  ghost predicate Inv(s: State) {
    && PointersOk(s)
    && (forall c :: c in s.entries ==> EntryOk(s, c))
    && LoadsOk(s)
    && DroppedOk(s)
    && ChannelsOk(s)
    && (forall r :: r in s.waiters ==> WaiterOk(s, s.waiters[r]))
  }

  lemma InitInv(ttl: int)
    ensures Inv(Init(ttl))
  {
  }

  /** A running cold load's entry is the one in the map. */
  lemma ColdLoadOwns(s: State, c: Chain, p: nat)
    requires Inv(s) && (c, p) in s.coldLoads
    ensures c in s.entries && s.entries[c] == p && p < |s.heap| && s.heap[p].loading.Some?
  {
    assert EntryOk(s, c);
  }

  lemma RefreshInv(s: State, c: Chain, p: nat, e: Entry, n: multiset<Chain>)
    requires Inv(s) && c in s.entries && s.entries[c] == p && s.heap[p].data.Some?
    requires e.data.Some? && |e.data.value| > 0
    requires e.loading == s.heap[p].loading && e.err == s.heap[p].err
    requires forall d :: d in n ==> d in s.entries
    requires forall d :: n[d] == if d == c then (if e.refreshing then 1 else 0) else s.refreshes[d]
    ensures Inv(SetEntry(s, p, e).(refreshes := n))
  {
    hide EntryOk, WaiterOk;
    RefreshEntries(s, c, p, e, n);
    RefreshWaiters(s, c, p, e, n);
  }

  lemma RefreshEntries(s: State, c: Chain, p: nat, e: Entry, n: multiset<Chain>)
    requires PointersOk(s) && c in s.entries && s.entries[c] == p && s.heap[p].data.Some?
    requires forall d :: d in s.entries ==> EntryOk(s, d)
    requires e.data.Some? && |e.data.value| > 0
    requires e.loading == s.heap[p].loading && e.err == s.heap[p].err
    requires forall d :: n[d] == if d == c then (if e.refreshing then 1 else 0) else s.refreshes[d]
    ensures var s' := SetEntry(s, p, e).(refreshes := n);
            forall d :: d in s'.entries ==> EntryOk(s', d)
  {
    var s' := SetEntry(s, p, e).(refreshes := n);
    assert EntryOk(s, c);
    forall d | d in s'.entries ensures EntryOk(s', d) {
      assert EntryOk(s, d);
    }
  }

  lemma RefreshWaiters(s: State, c: Chain, p: nat, e: Entry, n: multiset<Chain>)
    requires PointersOk(s) && c in s.entries && s.entries[c] == p && s.heap[p].data.Some?
    requires forall r :: r in s.waiters ==> WaiterOk(s, s.waiters[r])
    requires e.data.Some? && |e.data.value| > 0
    requires e.loading == s.heap[p].loading && e.err == s.heap[p].err
    ensures var s' := SetEntry(s, p, e).(refreshes := n);
            forall r :: r in s'.waiters ==> WaiterOk(s', s'.waiters[r])
  {
    var s' := SetEntry(s, p, e).(refreshes := n);
    forall r | r in s'.waiters ensures WaiterOk(s', s'.waiters[r]) {
      assert WaiterOk(s, s.waiters[r]);
    }
  }

  lemma NewEntryInv(s: State, request: nat, chain: Chain, now: int)
    requires Inv(s) && chain !in s.entries
    ensures Inv(DoGet(s, request, chain, now))
  {
    var s' := DoGet(s, request, chain, now);
    var p := |s.heap|;
    var e := NEW_ENTRY.(loading := Some(s.nextChannel));
    assert s'.heap == s.heap + [e];
    assert s'.entries == s.entries[chain := p];
    NewEntryEntries(s, s', chain);
    NewEntryRest(s, s', request, chain);
  }

  ghost predicate AddsEntry(s: State, s': State, chain: Chain) {
    && s'.heap == s.heap + [NEW_ENTRY.(loading := Some(s.nextChannel))]
    && s'.entries == s.entries[chain := |s.heap|]
    && s'.coldLoads == s.coldLoads + multiset{(chain, |s.heap|)}
    && s'.refreshes == s.refreshes
    && s'.nextChannel == s.nextChannel + 1
    && s'.outcomes == s.outcomes
  }

  lemma NewEntryEntries(s: State, s': State, chain: Chain)
    requires PointersOk(s) && LoadsOk(s) && chain !in s.entries && AddsEntry(s, s', chain)
    requires forall c :: c in s.entries ==> EntryOk(s, c)
    ensures PointersOk(s') && LoadsOk(s')
    ensures forall c :: c in s'.entries ==> EntryOk(s', c)
  {
    NewEntryLoads(s, s', chain);
    forall d | d in s'.entries ensures EntryOk(s', d) {
      if d != chain {
        assert EntryOk(s, d);
      }
    }
  }

  lemma NewEntryLoads(s: State, s': State, chain: Chain)
    requires PointersOk(s) && LoadsOk(s) && chain !in s.entries && AddsEntry(s, s', chain)
    ensures PointersOk(s') && LoadsOk(s')
    ensures s.coldLoads[(chain, |s.heap|)] == 0 && s.refreshes[chain] == 0
  {
    assert (chain, |s.heap|) !in s.coldLoads && chain !in s.refreshes;
    forall c, p | (c, p) in s'.coldLoads ensures c in s'.entries && s'.entries[c] == p {
      assert (c, p) in s.coldLoads || (c, p) == (chain, |s.heap|);
    }
  }

  lemma NewEntryRest(s: State, s': State, request: nat, chain: Chain)
    requires Inv(s) && chain !in s.entries && AddsEntry(s, s', chain)
    requires s'.waiters == s.waiters[request := Waiter(|s.heap|, s.nextChannel)]
    ensures DroppedOk(s') && ChannelsOk(s')
    ensures forall r :: r in s'.waiters ==> WaiterOk(s', s'.waiters[r])
  {
    hide EntryOk, LoadsOk, DroppedOk, PointersOk, ChannelsOk, WaiterOk, AddsEntry;
    NewEntryDropped(s, s', chain);
    NewEntryChannels(s, s', chain);
    NewEntryWaits(s, s', chain);
    forall r | r in s'.waiters ensures WaiterOk(s', s'.waiters[r]) {
      if r != request { NewEntryWaiter(s, s', chain, s.waiters[r]); }
    }
  }

  lemma NewEntryChannels(s: State, s': State, chain: Chain)
    requires ChannelsOk(s) && AddsEntry(s, s', chain)
    ensures ChannelsOk(s')
  {
    assert forall p :: 0 <= p < |s.heap| ==> s'.heap[p] == s.heap[p];
  }

  lemma NewEntryWaits(s: State, s': State, chain: Chain)
    requires ChannelsOk(s) && AddsEntry(s, s', chain)
    ensures WaiterOk(s', Waiter(|s.heap|, s.nextChannel))
  {
  }

  lemma NewEntryWaiter(s: State, s': State, chain: Chain, w: Waiter)
    requires WaiterOk(s, w) && AddsEntry(s, s', chain)
    ensures WaiterOk(s', w)
  {
    assert s'.heap[w.ptr] == s.heap[w.ptr];
  }

  lemma NewEntryDropped(s: State, s': State, chain: Chain)
    requires DroppedOk(s) && chain !in s.entries && AddsEntry(s, s', chain)
    ensures DroppedOk(s')
  {
    forall q | 0 <= q < |s'.heap| && (forall c :: c in s'.entries ==> s'.entries[c] != q)
      ensures s'.heap[q].loading.None? && s'.heap[q].data.None? && !s'.heap[q].refreshing
    {
      assert s'.entries[chain] == |s.heap|;
      forall c | c in s.entries ensures s.entries[c] != q {
        assert s'.entries[c] == s.entries[c];
      }
    }
  }

  /** A cold request that finds a load running only joins its waiters. */
  lemma JoinInv(s: State, request: nat, chain: Chain, now: int)
    requires Inv(s) && chain in s.entries && s.heap[s.entries[chain]].data.None?
    ensures Inv(DoGet(s, request, chain, now))
  {
    assert EntryOk(s, chain);
    var p := s.entries[chain];
    var w := Waiter(p, s.heap[p].loading.value);
    assert DoGet(s, request, chain, now) == s.(waiters := s.waiters[request := w]);
    NewWaiterInv(s, request, w, chain);
  }

  lemma NewWaiterInv(s: State, request: nat, w: Waiter, chain: Chain)
    requires Inv(s) && chain in s.entries && w.ptr == s.entries[chain]
    requires s.heap[w.ptr].loading == Some(w.channel)
    ensures Inv(s.(waiters := s.waiters[request := w]))
  {
    hide DroppedOk, LoadsOk, EntryOk;
    var s' := s.(waiters := s.waiters[request := w]);
    assert WaiterOk(s', w);
    OnlyWaitersChange(s, s');
  }

  /** The waiters that stay are not affected by others coming and going. */
  lemma OnlyWaitersChange(s: State, s': State)
    requires Inv(s) && s' == s.(waiters := s'.waiters)
    requires forall r :: r in s'.waiters && (r in s.waiters ==> s'.waiters[r] != s.waiters[r]) ==>
               WaiterOk(s', s'.waiters[r])
    ensures Inv(s')
  {
    OtherPartsStay(s, s');
    hide DroppedOk, LoadsOk, EntryOk, ChannelsOk, PointersOk;
    forall r | r in s'.waiters ensures WaiterOk(s', s'.waiters[r]) {
      if r in s.waiters && s'.waiters[r] == s.waiters[r] { assert WaiterOk(s, s.waiters[r]); }
    }
  }

  lemma OtherPartsStay(s: State, s': State)
    requires PointersOk(s) && LoadsOk(s) && ChannelsOk(s) && DroppedOk(s) && s' == s.(waiters := s'.waiters)
    requires forall c :: c in s.entries ==> EntryOk(s, c)
    ensures PointersOk(s') && LoadsOk(s') && ChannelsOk(s') && DroppedOk(s')
    ensures forall c :: c in s'.entries ==> EntryOk(s', c)
  {
    assert PointersOk(s') && ChannelsOk(s') && LoadsOk(s');
    hide ChannelsOk, LoadsOk;
    forall d | d in s'.entries ensures EntryOk(s', d) { assert EntryOk(s, d); }
  }

  lemma GetInv(s: State, request: nat, chain: Chain, now: int)
    requires Inv(s)
    ensures Inv(DoGet(s, request, chain, now))
  {
    if chain !in s.entries {
      NewEntryInv(s, request, chain, now);
    } else {
      var p := s.entries[chain];
      var e := s.heap[p];
      if e.data.None? {
        JoinInv(s, request, chain, now);
      } else if now - e.fetched >= s.ttl && !e.refreshing {
        assert EntryOk(s, chain);
        var n := s.refreshes + multiset{chain};
        RefreshInv(s, chain, p, e.(refreshing := true), n);
        assert DoGet(s, request, chain, now) == SetEntry(s, p, e.(refreshing := true)).(refreshes := n);
      } else {
        assert DoGet(s, request, chain, now) == s;
      }
    }
  }

  lemma ColdLoadEndEntries(s: State, chain: Chain, p: nat, result: Loaded, now: int)
    requires PointersOk(s) && LoadsOk(s) && (chain, p) in s.coldLoads && p < |s.heap| && s.heap[p].loading.Some?
    requires forall c :: c in s.entries ==> EntryOk(s, c)
    ensures var s' := DoColdLoadEnd(s, chain, p, result, now);
            PointersOk(s') && forall c :: c in s'.entries ==> EntryOk(s', c)
  {
    var s' := DoColdLoadEnd(s, chain, p, result, now);
    assert EntryOk(s, chain);
    forall d | d in s'.entries ensures EntryOk(s', d) {
      assert EntryOk(s, d);
    }
  }

  lemma ColdLoadEndLoads(s: State, chain: Chain, p: nat, result: Loaded, now: int)
    requires PointersOk(s) && LoadsOk(s) && (chain, p) in s.coldLoads && p < |s.heap| && s.heap[p].loading.Some?
    requires EntryOk(s, chain)
    ensures LoadsOk(DoColdLoadEnd(s, chain, p, result, now))
  {
    var s' := DoColdLoadEnd(s, chain, p, result, now);
    assert s.coldLoads[(chain, p)] == 1 && s.refreshes[chain] == 0;
    forall c, q | (c, q) in s'.coldLoads ensures c in s'.entries && s'.entries[c] == q {
      assert (c, q) in s.coldLoads && c != chain;
    }
  }

  /** While its cold load runs an entry holds nothing. */
  lemma ColdEntryIsEmpty(s: State, chain: Chain, p: nat)
    requires Inv(s) && (chain, p) in s.coldLoads
    ensures p < |s.heap| && s.heap[p].data.None? && !s.heap[p].refreshing
  {
    hide DroppedOk, ChannelsOk, WaiterOk;
    ColdLoadOwns(s, chain, p);
    assert EntryOk(s, chain);
  }

  lemma ColdLoadEndDropped(s: State, chain: Chain, p: nat, result: Loaded, now: int)
    requires DroppedOk(s) && chain in s.entries && s.entries[chain] == p && p < |s.heap|
    requires s.heap[p].loading.Some? && s.heap[p].data.None? && !s.heap[p].refreshing
    ensures DroppedOk(DoColdLoadEnd(s, chain, p, result, now))
  {
    var s' := DoColdLoadEnd(s, chain, p, result, now);
    assert forall q :: 0 <= q < |s.heap| && q != p ==> s'.heap[q] == s.heap[q];
    assert s'.entries == s.entries || (s'.entries == s.entries - {chain} && s'.heap[p].data.None?);
    forall q | 0 <= q < |s'.heap| && (forall c :: c in s'.entries ==> s'.entries[c] != q)
      ensures s'.heap[q].loading.None? && s'.heap[q].data.None? && !s'.heap[q].refreshing
    {
      if q != p { StillUnowned(s, s', chain, p, q); }
    }
  }

  lemma StillUnowned(s: State, s': State, chain: Chain, p: nat, q: nat)
    requires chain in s.entries && s.entries[chain] == p && q != p
    requires s'.entries == s.entries || s'.entries == s.entries - {chain}
    requires forall c :: c in s'.entries ==> s'.entries[c] != q
    ensures forall c :: c in s.entries ==> s.entries[c] != q
  {
    forall c | c in s.entries ensures s.entries[c] != q {
      if c != chain { assert c in s'.entries; }
    }
  }

  lemma ColdLoadEndChannels(s: State, chain: Chain, p: nat, result: Loaded, now: int)
    requires ChannelsOk(s) && p < |s.heap| && s.heap[p].loading.Some?
    ensures ChannelsOk(DoColdLoadEnd(s, chain, p, result, now))
  {
  }

  lemma ColdLoadEndWaiter(s: State, chain: Chain, p: nat, result: Loaded, now: int, w: Waiter)
    requires ChannelsOk(s) && WaiterOk(s, w) && p < |s.heap|
    requires s.heap[p].loading.Some? && s.heap[p].data.None?
    ensures WaiterOk(DoColdLoadEnd(s, chain, p, result, now), w)
  {
  }

  lemma ColdLoadEndInv(s: State, chain: Chain, p: nat, result: Loaded, now: int)
    requires Inv(s) && (chain, p) in s.coldLoads && p < |s.heap| && s.heap[p].loading.Some?
    ensures Inv(DoColdLoadEnd(s, chain, p, result, now))
  {
    var s' := DoColdLoadEnd(s, chain, p, result, now);
    assert s'.waiters == s.waiters;
    hide DoColdLoadEnd, WaiterOk, ChannelsOk, DroppedOk, EntryOk;
    ColdLoadOwns(s, chain, p);
    ColdEntryIsEmpty(s, chain, p);
    ColdLoadEndEntries(s, chain, p, result, now);
    ColdLoadEndLoads(s, chain, p, result, now);
    ColdLoadEndDropped(s, chain, p, result, now);
    ColdLoadEndChannels(s, chain, p, result, now);
    forall r | r in s'.waiters ensures WaiterOk(s', s'.waiters[r]) {
      ColdLoadEndWaiter(s, chain, p, result, now, s.waiters[r]);
    }
  }

  lemma RefreshEndInv(s: State, chain: Chain, result: Loaded, now: int)
    requires Inv(s) && chain in s.refreshes
    ensures chain in s.entries && Inv(DoRefreshEnd(s, chain, result, now))
  {
    var p := s.entries[chain];
    assert EntryOk(s, chain);
    var e := s.heap[p].(refreshing := false);
    var e' := if result.Loaded? && |result.data| > 0 then e.(data := Some(result.data), fetched := now) else e;
    RefreshInv(s, chain, p, e', s.refreshes - multiset{chain});
  }

  lemma LeaveInv(s: State, r: nat)
    requires Inv(s)
    ensures Inv(s.(waiters := s.waiters - {r}))
  {
    OnlyWaitersChange(s, s.(waiters := s.waiters - {r}));
  }

  /** Every step preserves the invariant. */
  lemma NextInv(s: State, a: Step)
    requires Inv(s) && Enabled(s, a)
    ensures Inv(Next(s, a))
  {
    hide DoGet, DoColdLoadEnd, DoRefreshEnd, Inv;
    match a
    case Get(r, c, now) => GetInv(s, r, c, now);
    case Cancel(r) => LeaveInv(s, r);
    case Wake(r) => LeaveInv(s, r);
    case ColdLoadEnd(c, p, result, now) => ColdLoadEndInv(s, c, p, result, now);
    case RefreshEnd(c, result, now) => RefreshEndInv(s, c, result, now);
  }

  // ---- Runs ----

  /** The states an arbitrary interleaving passes through. */
  ghost predicate IsRun(states: seq<State>, steps: seq<Step>, ttl: int) {
    && |states| == |steps| + 1
    && states[0] == Init(ttl)
    && forall i :: 0 <= i < |steps| ==>
         Enabled(states[i], steps[i]) && states[i + 1] == Next(states[i], steps[i])
  }

  /** Every state of every run satisfies the invariant. */
  lemma {:induction false} RunInv(states: seq<State>, steps: seq<Step>, ttl: int, i: nat)
    requires IsRun(states, steps, ttl) && i < |states|
    ensures Inv(states[i])
  {
    if i == 0 {
      InitInv(ttl);
    } else {
      RunInv(states, steps, ttl, i - 1);
      NextInv(states[i - 1], steps[i - 1]);
    }
  }

  /** How many loads of a chain are running: cold loads on any entry, and refreshes. */
  ghost predicate OneLoadAtMost(s: State, c: Chain) {
    && (forall p, q :: (c, p) in s.coldLoads && (c, q) in s.coldLoads ==> p == q)
    && (forall p :: s.coldLoads[(c, p)] + s.refreshes[c] <= 1)
  }

  /** In every interleaving: at most one load runs per chain, and the map holds only chains with data or a
      running cold load, so an unknown chain does not stay in it. */
  lemma SingleFlight(states: seq<State>, steps: seq<Step>, ttl: int, i: nat, c: Chain)
    requires IsRun(states, steps, ttl) && i < |states|
    ensures OneLoadAtMost(states[i], c)
    ensures c in states[i].entries ==>
              states[i].entries[c] < |states[i].heap|
              && var p := states[i].entries[c];
                 states[i].heap[p].data.Some? || (c, p) in states[i].coldLoads
  {
    RunInv(states, steps, ttl, i);
    var s := states[i];
    if c in s.entries { assert EntryOk(s, c); }
    forall p ensures s.coldLoads[(c, p)] + s.refreshes[c] <= 1 {
      if (c, p) in s.coldLoads { assert s.entries[c] == p; }
    }
  }

  ghost predicate HasData(s: State, c: Chain) {
    c in s.entries && s.entries[c] < |s.heap| && s.heap[s.entries[c]].data.Some?
      && |s.heap[s.entries[c]].data.value| > 0
  }

  lemma StepKeepsData(s: State, a: Step, c: Chain)
    requires Inv(s) && Enabled(s, a) && HasData(s, c)
    ensures HasData(Next(s, a), c)
  {
    hide DroppedOk, ChannelsOk, WaiterOk, DoGet, DoColdLoadEnd, DoRefreshEnd;
    assert EntryOk(s, c);
    match a
    case Get(r, d, now) => GetKeepsData(s, r, d, now, c);
    case ColdLoadEnd(d, p, result, now) =>
      ColdLoadOwns(s, d, p);
      assert EntryOk(s, d);
      ColdLoadEndKeepsData(s, d, p, result, now, c);
    case RefreshEnd(d, result, now) => RefreshEndKeepsData(s, d, result, now, c);
    case _ =>
  }

  lemma GetKeepsData(s: State, r: nat, d: Chain, now: int, c: Chain)
    requires PointersOk(s) && HasData(s, c)
    ensures HasData(DoGet(s, r, d, now), c)
  {
  }

  lemma ColdLoadEndKeepsData(s: State, d: Chain, p: nat, result: Loaded, now: int, c: Chain)
    requires PointersOk(s) && HasData(s, c) && d in s.entries && s.entries[d] == p && d != c
    requires s.heap[p].loading.Some?
    ensures HasData(DoColdLoadEnd(s, d, p, result, now), c)
  {
  }

  lemma RefreshEndKeepsData(s: State, d: Chain, result: Loaded, now: int, c: Chain)
    requires PointersOk(s) && HasData(s, c)
    ensures HasData(DoRefreshEnd(s, d, result, now), c)
  {
  }

  /** Data once present is never lost, only replaced by newer non-empty data. */
  lemma {:induction false} DataNeverLost(states: seq<State>, steps: seq<Step>, ttl: int, i: nat, j: nat, c: Chain)
    requires IsRun(states, steps, ttl) && i <= j < |states| && HasData(states[i], c)
    ensures HasData(states[j], c)
  {
    hide Inv, Next, HasData, Enabled;
    if i < j {
      DataNeverLost(states, steps, ttl, i, j - 1, c);
      RunInv(states, steps, ttl, j - 1);
      StepKeepsData(states[j - 1], steps[j - 1], c);
    }
  }

  /** Each blocked request waits for a channel that is closed or that a running cold load will close. */
  lemma WaitersAreServed(states: seq<State>, steps: seq<Step>, ttl: int, i: nat, r: nat)
    requires IsRun(states, steps, ttl) && i < |states| && r in states[i].waiters
    ensures var s := states[i];
            var w := s.waiters[r];
            && w.ptr < |s.heap|
            && (w.channel in s.outcomes
                || (s.heap[w.ptr].loading == Some(w.channel) && exists c :: (c, w.ptr) in s.coldLoads))
  {
    RunInv(states, steps, ttl, i);
    var s := states[i];
    var w := s.waiters[r];
    assert WaiterOk(s, w);
    if w.channel !in s.outcomes {
      assert !forall c :: c in s.entries ==> s.entries[c] != w.ptr;
      var c :| c in s.entries && s.entries[c] == w.ptr;
      assert EntryOk(s, c);
      assert (c, w.ptr) in s.coldLoads;
    }
  }

  /** A woken request gets the result of the load it waited for: its error, its empty list, or the data of the
      chain's entry (the load's own, or what a refresh has put in its place since). */
  lemma WokenGetsOutcome(states: seq<State>, steps: seq<Step>, ttl: int, i: nat)
    requires IsRun(states, steps, ttl) && i < |steps| && steps[i].Wake?
    ensures var s := states[i];
            var w := s.waiters[steps[i].request];
            match s.outcomes[w.channel]
            case Failed(x) => Answer(s.heap[w.ptr]) == Failed(x)
            case Loaded(d) =>
              if d == [] then Answer(s.heap[w.ptr]) == Loaded([])
              else exists c :: HasData(s, c) && s.entries[c] == w.ptr && Answer(s.heap[w.ptr]) == Loaded(s.heap[w.ptr].data.value)
  {
    RunInv(states, steps, ttl, i);
    var s := states[i];
    var w := s.waiters[steps[i].request];
    assert WaiterOk(s, w);
    if s.heap[w.ptr].data.Some? {
      assert !forall c :: c in s.entries ==> s.entries[c] != w.ptr;
      var c :| c in s.entries && s.entries[c] == w.ptr;
      assert HasData(s, c);
    }
  }

  /** The guards are never needed: a cold load that ends finds its own entry in the map, with its channel
      open, and a refresh that ends finds an entry. */
  lemma GuardsNeverFire(states: seq<State>, steps: seq<Step>, ttl: int, i: nat)
    requires IsRun(states, steps, ttl) && i < |states|
    ensures forall c, p :: (c, p) in states[i].coldLoads ==>
              c in states[i].entries && states[i].entries[c] == p && p < |states[i].heap|
              && states[i].heap[p].loading.Some? && states[i].heap[p].loading.value !in states[i].outcomes
    ensures forall c :: c in states[i].refreshes ==> c in states[i].entries && HasData(states[i], c)
  {
    RunInv(states, steps, ttl, i);
    var s := states[i];
    forall c, p | (c, p) in s.coldLoads
      ensures c in s.entries && s.entries[c] == p && p < |s.heap|
      ensures s.heap[p].loading.Some? && s.heap[p].loading.value !in s.outcomes
    {
      ColdLoadOwns(s, c, p);
    }
    forall c | c in s.refreshes ensures c in s.entries && HasData(s, c) {
      assert EntryOk(s, c);
    }
  }

  // ---- What the steps of a run do ----

  lemma {:induction false} TtlStays(states: seq<State>, steps: seq<Step>, ttl: int, i: nat)
    requires IsRun(states, steps, ttl) && i < |states|
    ensures states[i].ttl == ttl
  {
    if i > 0 {
      TtlStays(states, steps, ttl, i - 1);
      assert states[i] == Next(states[i - 1], steps[i - 1]);
    }
  }

  /** Everything but entry p of the heap is as before. */
  ghost predicate OnlyEntry(h: seq<Entry>, h': seq<Entry>, p: nat) {
    |h'| == |h| && forall q :: 0 <= q < |h| && q != p ==> h'[q] == h[q]
  }

  /** A request for a chain with data is served at once. It starts a refresh if and only if the copy is at least
      ttl old and no refresh runs, so after it a refresh of an old copy is always running, and nothing else
      changes. */
  lemma RefreshIffStale(states: seq<State>, steps: seq<Step>, ttl: int, i: nat)
    requires IsRun(states, steps, ttl) && i < |steps| && steps[i].Get? && HasData(states[i], steps[i].chain)
    ensures var s, s', c := states[i], states[i + 1], steps[i].chain;
            var p := s.entries[c];
            var stale := steps[i].now - s.heap[p].fetched >= ttl;
            && s'.refreshes == (if stale && s.refreshes[c] == 0 then s.refreshes + multiset{c} else s.refreshes)
            && (stale ==> s'.refreshes[c] == 1)
            && s' == s.(heap := s'.heap, refreshes := s'.refreshes)
            && OnlyEntry(s.heap, s'.heap, p)
            && s'.heap[p].data == s.heap[p].data && s'.heap[p].fetched == s.heap[p].fetched
  {
    hide Inv;
    RunInv(states, steps, ttl, i);
    TtlStays(states, steps, ttl, i);
    RefreshFlag(states[i], steps[i].chain);
    assert states[i + 1] == Next(states[i], steps[i]);
  }

  lemma RefreshFlag(s: State, c: Chain)
    requires Inv(s) && HasData(s, c)
    ensures s.refreshes[c] == if s.heap[s.entries[c]].refreshing then 1 else 0
  {
    assert EntryOk(s, c);
  }

  /** A request for a chain without data waits for the chain's one cold load, which it starts if none runs, on a
      new entry if there is none; no refresh starts and other chains are not touched. */
  lemma ColdGetWaits(states: seq<State>, steps: seq<Step>, ttl: int, i: nat)
    requires IsRun(states, steps, ttl) && i < |steps| && steps[i].Get? && !HasData(states[i], steps[i].chain)
    ensures var s, s', c, r := states[i], states[i + 1], steps[i].chain, steps[i].request;
            && r in s'.waiters && s'.waiters == s.waiters[r := s'.waiters[r]]
            && var w := s'.waiters[r];
               && w.ptr < |s'.heap| && s'.heap[w.ptr].loading == Some(w.channel) && w.channel !in s'.outcomes
               && s'.entries == s.entries[c := w.ptr] && s'.refreshes == s.refreshes
               && s'.coldLoads[(c, w.ptr)] == 1
               && s'.coldLoads == (if c in s.entries then s.coldLoads else s.coldLoads + multiset{(c, w.ptr)})
               && (c in s.entries <==> exists p: nat :: (c, p) in s.coldLoads)
               && forall q :: 0 <= q < |s.heap| ==> s'.heap[q] == s.heap[q]
  {
    hide Inv;
    RunInv(states, steps, ttl, i);
    RunInv(states, steps, ttl, i + 1);
    var s, s', c := states[i], states[i + 1], steps[i].chain;
    assert s' == Next(s, steps[i]);
    ColdEntry(s, c);
    ColdGet(s, steps[i].request, c, steps[i].now);
    OpenChannel(s', s'.waiters[steps[i].request].ptr);
  }

  /** A chain without data has an entry exactly while its one cold load runs. */
  lemma ColdEntry(s: State, c: Chain)
    requires Inv(s) && !HasData(s, c)
    ensures c in s.entries <==> exists p: nat :: (c, p) in s.coldLoads
    ensures c in s.entries ==> var p := s.entries[c];
              p < |s.heap| && s.heap[p].loading.Some? && s.heap[p].data.None? && s.coldLoads[(c, p)] == 1
    ensures c !in s.entries ==> s.coldLoads[(c, |s.heap|)] == 0
  {
    if c in s.entries {
      assert EntryOk(s, c);
      assert (c, s.entries[c]) in s.coldLoads;
    } else {
      assert (c, |s.heap|) !in s.coldLoads;
    }
  }

  lemma ColdGet(s: State, r: nat, c: Chain, now: int)
    requires c in s.entries ==> s.entries[c] < |s.heap| && s.heap[s.entries[c]].data.None? && s.heap[s.entries[c]].loading.Some?
    ensures var s' := DoGet(s, r, c, now);
            && r in s'.waiters && s'.waiters == s.waiters[r := s'.waiters[r]]
            && var w := s'.waiters[r];
               && w.ptr == (if c in s.entries then s.entries[c] else |s.heap|)
               && w.ptr < |s'.heap| && s'.heap[w.ptr].loading == Some(w.channel)
               && s'.entries == s.entries[c := w.ptr] && s'.refreshes == s.refreshes
               && s'.coldLoads == (if c in s.entries then s.coldLoads else s.coldLoads + multiset{(c, w.ptr)})
               && forall q :: 0 <= q < |s.heap| ==> s'.heap[q] == s.heap[q]
  {
  }

  lemma OpenChannel(s: State, p: nat)
    requires Inv(s) && p < |s.heap| && s.heap[p].loading.Some?
    ensures s.heap[p].loading.value !in s.outcomes
  {
  }

  /** What a load leaves behind for its chain. */
  ghost predicate Stores(s: State, c: Chain, data: Data, fetched: int) {
    HasData(s, c) && s.heap[s.entries[c]].data == Some(data) && s.heap[s.entries[c]].fetched == fetched
  }

  function GoodResult(a: Step): bool {
    (a.ColdLoadEnd? || a.RefreshEnd?) && a.result.Loaded? && a.result.data != []
  }

  /** The end of a load: a list with elements is stored with the time; a failed or empty refresh leaves the copy,
      a failed or empty cold load leaves no entry. Afterwards no load of the chain runs. */
  lemma LoadEnds(states: seq<State>, steps: seq<Step>, ttl: int, i: nat, d: Data, t: int)
    requires IsRun(states, steps, ttl) && i < |steps| && (steps[i].ColdLoadEnd? || steps[i].RefreshEnd?)
    ensures var s, s', c := states[i], states[i + 1], steps[i].chain;
            && s'.refreshes[c] == 0 && (forall p: nat :: (c, p) !in s'.coldLoads)
            && (GoodResult(steps[i]) ==> Stores(s', c, steps[i].result.data, steps[i].now))
            && (!GoodResult(steps[i]) && steps[i].RefreshEnd? && Stores(s, c, d, t) ==> Stores(s', c, d, t))
            && (!GoodResult(steps[i]) && steps[i].ColdLoadEnd? ==> c !in s'.entries)
            && (steps[i].ColdLoadEnd? ==>
                  s'.outcomes == s.outcomes[s.heap[steps[i].ptr].loading.value := steps[i].result])
  {
    hide Inv;
    RunInv(states, steps, ttl, i);
    RunInv(states, steps, ttl, i + 1);
    var s, s', c := states[i], states[i + 1], steps[i].chain;
    assert s' == Next(s, steps[i]);
    if steps[i].ColdLoadEnd? {
      ColdEnds(s, c, steps[i].ptr, steps[i].result, steps[i].now);
    } else {
      RefreshEnds(s, c, steps[i].result, steps[i].now, d, t);
    }
    hide DoColdLoadEnd, DoRefreshEnd, HasData;
    NothingRuns(s', c);
  }

  lemma ColdEnds(s: State, c: Chain, p: nat, result: Loaded, now: int)
    requires Inv(s) && (c, p) in s.coldLoads && p < |s.heap| && s.heap[p].loading.Some?
    ensures var s' := DoColdLoadEnd(s, c, p, result, now);
            && (if result.Loaded? && result.data != [] then Stores(s', c, result.data, now) else c !in s'.entries)
            && (c in s'.entries ==> HasData(s', c) && !s'.heap[s'.entries[c]].refreshing)
            && s'.outcomes == s.outcomes[s.heap[p].loading.value := result]
  {
    ColdLoadOwns(s, c, p);
    ColdEntryIsEmpty(s, c, p);
    hide Inv;
  }

  lemma RefreshEnds(s: State, c: Chain, result: Loaded, now: int, d: Data, t: int)
    requires Inv(s) && c in s.refreshes && (c in s.entries ==> s.entries[c] < |s.heap|)
    ensures var s' := DoRefreshEnd(s, c, result, now);
            && (if result.Loaded? && result.data != [] then Stores(s', c, result.data, now)
                else Stores(s, c, d, t) ==> Stores(s', c, d, t))
            && HasData(s', c) && !s'.heap[s'.entries[c]].refreshing
  {
    RefreshOwns(s, c);
    hide Inv;
  }

  lemma RefreshOwns(s: State, c: Chain)
    requires Inv(s) && c in s.refreshes
    ensures HasData(s, c) && s.refreshes[c] == 1
  {
    assert EntryOk(s, c);
  }

  /** No load of a chain runs when it has no entry, or one with data that is not refreshing. */
  lemma NothingRuns(s: State, c: Chain)
    requires Inv(s) && (c in s.entries ==> HasData(s, c) && !s.heap[s.entries[c]].refreshing)
    ensures s.refreshes[c] == 0 && forall p: nat :: (c, p) !in s.coldLoads
  {
    if c in s.entries { assert EntryOk(s, c); }
  }

  /** Step j is the last before i that brought chain c a list. */
  ghost predicate LastLoad(steps: seq<Step>, j: nat, i: nat, c: Chain)
    requires i <= |steps|
  {
    && j < i && GoodResult(steps[j]) && steps[j].chain == c
    && forall k :: j < k < i && GoodResult(steps[k]) ==> steps[k].chain != c
  }

  /** The copy of a chain is what its last load that returned a list brought, stamped with the end of that load. */
  lemma {:induction false} CopyIsLastLoad(states: seq<State>, steps: seq<Step>, ttl: int, i: nat, c: Chain)
    requires IsRun(states, steps, ttl) && i < |states| && HasData(states[i], c)
    ensures exists j: nat :: LastLoad(steps, j, i, c) && Stores(states[i], c, steps[j].result.data, steps[j].now)
  {
    hide Inv, Enabled, Next;
    if i == 0 { assert false; }
    var a := steps[i - 1];
    RunInv(states, steps, ttl, i - 1);
    if GoodResult(a) && a.chain == c {
      LoadEnds(states, steps, ttl, i - 1, [], 0);
      assert LastLoad(steps, i - 1, i, c);
    } else {
      CopyComesFromBefore(states[i - 1], a, c);
      CopyIsLastLoad(states, steps, ttl, i - 1, c);
      var j: nat :| LastLoad(steps, j, i - 1, c) && Stores(states[i - 1], c, steps[j].result.data, steps[j].now);
      assert LastLoad(steps, j, i, c);
    }
  }

  /** Without a load of the chain that returned a list its copy is the one there was before the step. */
  lemma CopyComesFromBefore(s: State, a: Step, c: Chain)
    requires Inv(s) && Enabled(s, a) && HasData(Next(s, a), c) && !(GoodResult(a) && a.chain == c)
    ensures HasData(s, c)
    ensures var p, s' := s.entries[c], Next(s, a);
            Stores(s', c, s.heap[p].data.value, s.heap[p].fetched)
  {
    hide EntryOk, LoadsOk, DroppedOk, ChannelsOk, WaiterOk, DoGet, DoColdLoadEnd, DoRefreshEnd, HasData;
    match a
    case Get(r, d, now) => GetBringsNothing(s, r, d, now, c);
    case ColdLoadEnd(d, p, result, now) =>
      ColdLoadOwns(s, d, p);
      ColdEntryIsEmpty(s, d, p);
      DataFromElsewhere(s, d, p, result, now, c);
      ColdEndElsewhere(s, d, p, result, now, c);
    case RefreshEnd(d, result, now) => RefreshBringsNothing(s, d, result, now, c);
    case _ =>
      SameCopy(s, Next(s, a), c);
  }

  lemma SameCopy(s: State, s': State, c: Chain)
    requires HasData(s', c) && s'.entries == s.entries && s'.heap == s.heap
    ensures HasData(s, c) && Stores(s', c, s.heap[s.entries[c]].data.value, s.heap[s.entries[c]].fetched)
  {
  }

  lemma GetBringsNothing(s: State, r: nat, d: Chain, now: int, c: Chain)
    requires PointersOk(s) && HasData(DoGet(s, r, d, now), c)
    ensures HasData(s, c)
    ensures Stores(DoGet(s, r, d, now), c, s.heap[s.entries[c]].data.value, s.heap[s.entries[c]].fetched)
  {
  }

  lemma DataFromElsewhere(s: State, d: Chain, p: nat, result: Loaded, now: int, c: Chain)
    requires Inv(s) && (d, p) in s.coldLoads && p < |s.heap| && s.heap[p].loading.Some?
    requires HasData(DoColdLoadEnd(s, d, p, result, now), c) && (d == c ==> result.Failed? || result.data == [])
    ensures d != c
  {
    ColdEnds(s, d, p, result, now);
  }

  lemma ColdEndElsewhere(s: State, d: Chain, p: nat, result: Loaded, now: int, c: Chain)
    requires PointersOk(s) && d in s.entries && s.entries[d] == p && d != c && s.heap[p].loading.Some?
    requires HasData(DoColdLoadEnd(s, d, p, result, now), c)
    ensures HasData(s, c)
    ensures Stores(DoColdLoadEnd(s, d, p, result, now), c, s.heap[s.entries[c]].data.value, s.heap[s.entries[c]].fetched)
  {
  }

  lemma RefreshBringsNothing(s: State, d: Chain, result: Loaded, now: int, c: Chain)
    requires PointersOk(s) && HasData(DoRefreshEnd(s, d, result, now), c)
    requires d == c ==> result.Failed? || result.data == []
    ensures HasData(s, c)
    ensures Stores(DoRefreshEnd(s, d, result, now), c, s.heap[s.entries[c]].data.value, s.heap[s.entries[c]].fetched)
  {
  }
}
