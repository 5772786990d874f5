/** The objects of pkg/api/stablecoin_cache.go. Every method is one critical section of the source and is
    proved to take the corresponding step of StablecoinProtocol on the whole cache. */
module StablecoinCache {
  import opened Base
  import P = StablecoinProtocol

  class StablecoinEntry {
    ghost const id: nat
    var data: Option<P.Data>
    var fetched: int
    var refreshing: bool
    var loading: Option<nat>
    var err: Option<string>

    constructor (ghost id: nat)
      ensures this.id == id && View() == P.NEW_ENTRY
    {
      this.id := id;
      data, fetched, refreshing, loading, err := None, 0, false, None, None;
    }

    ghost function View(): P.Entry
      reads this
    {
      P.Entry(data, fetched, refreshing, loading, err)
    }

    /** Stores a cold load's result; an error or an empty list leaves the data alone. */
    method Record(result: P.Loaded, now: int) returns (kept: bool)
      modifies this
      ensures kept == (result.Loaded? && |result.data| > 0)
      ensures var e := old(View()).(err := if result.Failed? then Some(result.error) else None);
              View() == if kept then e.(data := Some(result.data), fetched := now) else e
    {
      err := if result.Failed? then Some(result.error) else None;
      if result.Loaded? && |result.data| > 0 {
        data := Some(result.data);
        fetched := now;
        return true;
      }
      return false;
    }

    /** Stores a refresh's result; an error or an empty list keeps the stale copy. */
    method RecordRefresh(result: P.Loaded, now: int)
      modifies this
      ensures var e := old(View()).(refreshing := false);
              View() == if result.Loaded? && |result.data| > 0 then e.(data := Some(result.data), fetched := now) else e
    {
      refreshing := false;
      if result.Failed? {
        return;
      }
      if |result.data| > 0 {
        data := Some(result.data);
        fetched := now;
      }
    }
  }

  class StablecoinCache {
    const ttl: int
    var entries: map<P.Chain, StablecoinEntry>
    var nextChannel: nat              // names the channels that make() creates

    // What else the protocol talks about: all entries ever allocated, the goroutines and the requests.
    ghost var objects: seq<StablecoinEntry>
    ghost var outcomes: map<nat, P.Loaded>
    ghost var coldLoads: multiset<(P.Chain, nat)>
    ghost var refreshes: multiset<P.Chain>
    ghost var waiters: map<nat, P.Waiter>

    ghost predicate Valid()
      reads this, objects
    {
      && (forall i :: 0 <= i < |objects| ==> objects[i].id == i)
      && (forall c :: c in entries ==> entries[c] in objects)
    }

    ghost function Pointers(): map<P.Chain, nat>
      reads this
    {
      map c | c in entries :: entries[c].id
    }

    ghost function Heap(): (h: seq<P.Entry>)
      reads this, objects
      ensures |h| == |objects| && forall i :: 0 <= i < |h| ==> h[i] == objects[i].View()
    {
      seq(|objects|, i requires 0 <= i < |objects| reads this, objects => objects[i].View())
    }

    ghost function View(): P.State
      reads this, objects
    {
      P.State(ttl, Pointers(), Heap(), nextChannel, outcomes, coldLoads, refreshes, waiters)
    }

    constructor (ttl: int)
      ensures Valid() && View() == P.Init(ttl)
    {
      this.ttl := ttl;
      entries, nextChannel, objects := map[], 0, [];
      outcomes, coldLoads, refreshes, waiters := map[], multiset{}, multiset{}, map[];
    }

    lemma EntryAt(c: P.Chain)
      requires Valid() && c in entries
      ensures entries[c].id < |objects| && objects[entries[c].id] == entries[c]
      ensures c in View().entries && View().heap[View().entries[c]] == entries[c].View()
    {
    }

    /** Writing the fields of one entry changes the heap at its index only. */
    twostate lemma OneEntryWritten(e: StablecoinEntry)
      requires old(Valid()) && objects == old(objects) && e in objects && e.id < |objects| && objects[e.id] == e
      requires forall o :: o in objects && o != e ==> unchanged(o)
      ensures Heap() == old(Heap())[e.id := e.View()]
    {
      var h := old(Heap())[e.id := e.View()];
      forall i | 0 <= i < |objects| ensures Heap()[i] == h[i] {
        var o := objects[i];
        assert o in objects && o.id == i;
        if i != e.id { assert unchanged(o); }
      }
    }

    /** A new entry extends the heap. */
    twostate lemma OneEntryAppended(new e: StablecoinEntry)
      requires objects == old(objects) + [e] && forall o :: o in old(objects) ==> unchanged(o)
      ensures Heap() == old(Heap()) + [e.View()]
    {
      forall i | 0 <= i < |old(objects)| ensures Heap()[i] == old(Heap())[i] {
        assert objects[i] == old(objects)[i] && objects[i] in old(objects);
      }
    }

    /** get, from the lock to the unlock before the select. Returns the data to serve, or None after
        registering the request as a waiter of the entry's channel. */
    method Get(request: nat, chain: P.Chain, now: int) returns (served: Option<P.Data>)
      requires Valid() && request !in waiters
      modifies this, objects
      ensures Valid() && View() == P.DoGet(old(View()), request, chain, now)
      ensures served == if chain in old(View()).entries then old(View().heap[View().entries[chain]].data) else None
      ensures served.None? <==> request in waiters
      ensures served.Some? ==>
                var e := old(View().heap[View().entries[chain]]);
                refreshes == old(refreshes) + (if now - e.fetched >= ttl && !e.refreshing then multiset{chain} else multiset{})
    {
      if chain in entries {
        EntryAt(chain);
        if entries[chain].data.Some? {
          served := Serve(chain, now);
          return;
        }
      }
      served := None;
      hide P.AddEntry, P.Join;
      if chain !in entries {
        AddEntry(chain);
      }
      EntryAt(chain);
      JoinColdLoad(request, chain);
    }

    /** The branch of get that serves what is there. */
    method Serve(chain: P.Chain, now: int) returns (data: Option<P.Data>)
      requires Valid() && chain in entries && entries[chain].data.Some?
      modifies this`refreshes, entries[chain]
      ensures Valid() && data == old(entries[chain].data)
      ensures forall r :: View() == P.DoGet(old(View()), r, chain, now)
      ensures refreshes == old(refreshes)
                           + if now - old(entries[chain].fetched) >= ttl && !old(entries[chain].refreshing)
                             then multiset{chain} else multiset{}
    {
      EntryAt(chain);
      var e := entries[chain];
      data := e.data;
      if now - e.fetched >= ttl && !e.refreshing {
        e.refreshing := true;
        refreshes := refreshes + multiset{chain};
        OneEntryWritten(e);
      } else {
        assert Heap() == old(Heap());
      }
    }

    method AddEntry(chain: P.Chain)
      requires Valid() && chain !in entries
      modifies this`entries, this`objects
      ensures Valid() && chain in entries && fresh(entries[chain]) && objects == old(objects) + [entries[chain]]
      ensures View() == P.AddEntry(old(View()), chain)
    {
      var e := new StablecoinEntry(|objects|);
      objects := objects + [e];
      entries := entries[chain := e];
      OneEntryAppended(e);
      hide Heap;
      assert Pointers() == old(Pointers())[chain := |old(objects)|];
    }

    /** The branch of get that waits: start a cold load unless one runs, and wait for its channel. */
    method JoinColdLoad(request: nat, chain: P.Chain)
      requires Valid() && chain in entries
      modifies this`nextChannel, this`coldLoads, this`waiters, entries[chain]
      ensures Valid() && request in waiters
      ensures View() == P.Join(old(View()), request, chain)
    {
      if entries[chain].loading.None? {
        StartColdLoad(chain);
      }
      EntryAt(chain);
      var e := entries[chain];
      waiters := waiters[request := P.Waiter(e.id, e.loading.value)];
      assert Heap() == View().heap;
    }

    method StartColdLoad(chain: P.Chain)
      requires Valid() && chain in entries && entries[chain].loading.None?
      modifies this`nextChannel, this`coldLoads, entries[chain]
      ensures Valid() && entries[chain].loading.Some?
      ensures View() ==
              var s := old(View());
              var p := s.entries[chain];
              P.SetEntry(s, p, s.heap[p].(loading := Some(s.nextChannel)))
                .(nextChannel := s.nextChannel + 1, coldLoads := s.coldLoads + multiset{(chain, p)})
    {
      EntryAt(chain);
      var e := entries[chain];
      e.loading := Some(nextChannel);
      nextChannel := nextChannel + 1;
      coldLoads := coldLoads + multiset{(chain, e.id)};
      OneEntryWritten(e);
    }

    /** Entries are told apart by their ids. */
    lemma SameEntry(chain: P.Chain, e: StablecoinEntry)
      requires Valid() && e in objects && chain in entries
      ensures entries[chain] == e <==> entries[chain].id == e.id
    {
      assert objects[e.id] == e && objects[entries[chain].id] == entries[chain];
    }

    method RecordIn(e: StablecoinEntry, result: P.Loaded, now: int) returns (kept: bool)
      requires Valid() && e in objects && objects[e.id] == e
      modifies e
      ensures Valid() && kept == (result.Loaded? && |result.data| > 0)
      ensures e.loading == old(e.loading)
      ensures var s := old(View());
              var x := s.heap[e.id].(err := if result.Failed? then Some(result.error) else None);
              View() == P.SetEntry(s, e.id, if kept then x.(data := Some(result.data), fetched := now) else x)
    {
      kept := e.Record(result, now);
      OneEntryWritten(e);
    }

    method DropEntry(chain: P.Chain)
      requires Valid() && chain in entries
      modifies this`entries
      ensures Valid() && View() == old(View()).(entries := old(View()).entries - {chain})
    {
      entries := entries - {chain};
      assert Pointers() == old(Pointers()) - {chain};
      assert Heap() == old(Heap());
    }

    method CloseChannel(chain: P.Chain, e: StablecoinEntry, result: P.Loaded)
      requires Valid() && e in objects && objects[e.id] == e && e.loading.Some?
      modifies this`outcomes, this`coldLoads, e
      ensures Valid()
      ensures var s := old(View());
              View() == P.SetEntry(s, e.id, s.heap[e.id].(loading := None))
                        .(outcomes := s.outcomes[s.heap[e.id].loading.value := result],
                          coldLoads := s.coldLoads - multiset{(chain, e.id)})
    {
      outcomes := outcomes[e.loading.value := result];
      e.loading := None;
      coldLoads := coldLoads - multiset{(chain, e.id)};
      OneEntryWritten(e);
    }

    method RecordOrDrop(chain: P.Chain, e: StablecoinEntry, result: P.Loaded, now: int)
      requires Valid() && e in objects && objects[e.id] == e
      modifies this`entries, e
      ensures Valid() && e.loading == old(e.loading)
      ensures View() == P.Recorded(old(View()), chain, e.id, result, now)
    {
      var kept := RecordIn(e, result, now);
      if chain in entries {
        SameEntry(chain, e);
        if !kept && entries[chain] == e {
          DropEntry(chain);
        }
      }
    }

    /** coldLoad, from the lock to the end. */
    method ColdLoadEnd(chain: P.Chain, e: StablecoinEntry, result: P.Loaded, now: int)
      requires Valid() && e in objects && P.Enabled(View(), P.Step.ColdLoadEnd(chain, e.id, result, now))
      modifies this`entries, this`outcomes, this`coldLoads, e
      ensures Valid() && View() == P.DoColdLoadEnd(old(View()), chain, e.id, result, now)
    {
      assert e.loading.Some? && objects[e.id] == e;
      P.ColdLoadEndHalves(View(), chain, e.id, result, now);
      hide P.Enabled, P.DoColdLoadEnd, P.Recorded;
      RecordOrDrop(chain, e, result, now);
      CloseChannel(chain, e, result);
    }

    /** refresh, from the lock to the end. */
    method RefreshEnd(chain: P.Chain, result: P.Loaded, now: int)
      requires Valid() && chain in refreshes
      modifies this`refreshes, if chain in entries then {entries[chain]} else {}
      ensures Valid() && View() == P.DoRefreshEnd(old(View()), chain, result, now)
    {
      refreshes := refreshes - multiset{chain};
      if chain !in entries {
        return;
      }
      EntryAt(chain);
      var e := entries[chain];
      e.RecordRefresh(result, now);
      OneEntryWritten(e);
    }

    /** get, the second critical section: what a woken request returns. */
    method Wake(request: nat, e: StablecoinEntry) returns (answer: P.Loaded)
      requires Valid() && request in waiters && waiters[request].channel in outcomes
      requires e in objects && e.id == waiters[request].ptr
      modifies this`waiters
      ensures Valid() && View() == old(View()).(waiters := old(View()).waiters - {request})
      ensures answer == P.Answer(old(e.View()))
    {
      waiters := waiters - {request};
      assert Heap() == old(Heap());
      if e.err.Some? {
        return P.Failed(e.err.value);
      }
      if e.data.None? {
        return P.Loaded([]);
      }
      return P.Loaded(e.data.value);
    }
  }
}
