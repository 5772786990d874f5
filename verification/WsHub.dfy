/** pkg/api/websocket.go: the hub's connection accounting. A handler reserves a slot, then either releases it
    or registers its client; the hub later unregisters the client. Each of these is one step under the hub's
    lock, and the steps of different handlers interleave arbitrarily. */
module WsHub {
  import opened Base

  type Chain = uint32

  /** A WSClient; the id stands for the pointer. Both handlers register reserved clients. */
  datatype Client = Client(id: nat, chain: Chain, ip: string)

  /** A cap of 0 or less is no cap. */
  datatype Config = Config(maxConnections: int, maxPerIP: int, maxPerChain: int)

  datatype State = State(
    clients: map<Chain, set<Client>>,
    ipCounts: map<string, int>,
    total: int,
    lastBlock: map<Chain, uint64>,
    pending: set<Client>,      // reserved, not yet registered or released
    used: set<Client>,         // every client a handler has made a reservation for
    closed: seq<Client>)       // the clients whose send channel was closed, in order

  datatype Step = Reserve(c: Client) | Release(c: Client) | Register(c: Client) | Unregister(c: Client)

  const INITIAL := State(map[], map[], 0, map[], {}, {}, [])

  /** h.ipCounts[ip]; a missing key reads as 0. */
  function IpCount(s: State, ip: string): int {
    if ip in s.ipCounts then s.ipCounts[ip] else 0
  }

  function ClientsOf(s: State, chain: Chain): set<Client> {
    if chain in s.clients then s.clients[chain] else {}
  }

  /** canAddConnectionLocked. */
  predicate CanAdd(cfg: Config, s: State, c: Client) {
    && !(cfg.maxConnections > 0 && s.total >= cfg.maxConnections)
    && !(cfg.maxPerIP > 0 && IpCount(s, c.ip) >= cfg.maxPerIP)
    && !(cfg.maxPerChain > 0 && |ClientsOf(s, c.chain)| >= cfg.maxPerChain)
  }

  function Increment(m: map<string, int>, ip: string): map<string, int> {
    m[ip := (if ip in m then m[ip] else 0) + 1]
  }

  /** Decrement and drop the entry when nothing is left. */
  function Decrement(m: map<string, int>, ip: string): map<string, int> {
    var n := (if ip in m then m[ip] else 0) - 1;
    if n <= 0 then m - {ip} else m[ip := n]
  }

  function DoReserve(cfg: Config, s: State, c: Client): State {
    if !CanAdd(cfg, s, c) then s
    else s.(ipCounts := Increment(s.ipCounts, c.ip), total := s.total + 1, pending := s.pending + {c}, used := s.used + {c})
  }

  function DoRelease(s: State, c: Client): State {
    s.(total := if s.total - 1 < 0 then 0 else s.total - 1,
       ipCounts := Decrement(s.ipCounts, c.ip), pending := s.pending - {c})
  }

  function DoRegister(s: State, c: Client): State {
    s.(clients := s.clients[c.chain := ClientsOf(s, c.chain) + {c}], pending := s.pending - {c})
  }

  function DoUnregister(s: State, c: Client): State {
    if c !in ClientsOf(s, c.chain) then s
    else
      var left := s.clients[c.chain] - {c};
      s.(closed := s.closed + [c], total := s.total - 1, ipCounts := Decrement(s.ipCounts, c.ip),
         clients := if left == {} then s.clients - {c.chain} else s.clients[c.chain := left],
         lastBlock := if left == {} then s.lastBlock - {c.chain} else s.lastBlock)
  }

  /** A handler reserves for a new client, and releases or registers what it has reserved. Unregister requests
      are accepted at any time, for any client and any number of times. */
  predicate Enabled(s: State, a: Step) {
    match a
    case Reserve(c) => c !in s.used
    case Release(c) => c in s.pending
    case Register(c) => c in s.pending
    case Unregister(_) => true
  }

  function Next(cfg: Config, s: State, a: Step): State {
    match a
    case Reserve(c) => DoReserve(cfg, s, c)
    case Release(c) => DoRelease(s, c)
    case Register(c) => DoRegister(s, c)
    case Unregister(c) => DoUnregister(s, c)
  }

  ghost predicate IsRun(cfg: Config, states: seq<State>, steps: seq<Step>) {
    && |states| == |steps| + 1
    && states[0] == INITIAL
    && forall i :: 0 <= i < |steps| ==> Enabled(states[i], steps[i]) && states[i + 1] == Next(cfg, states[i], steps[i])
  }

  // ---- Counting connections ----

  ghost predicate IsRegistered(s: State, c: Client) {
    c in ClientsOf(s, c.chain)
  }

  ghost function Registered(s: State): set<Client> {
    set chain, c | chain in s.clients && c in s.clients[chain] :: c
  }

  ghost function At(conns: set<Client>, ip: string): (r: set<Client>)
    ensures r <= conns
  {
    set c | c in conns && c.ip == ip
  }

  /** The counters count exactly these connections, and only positive counts are kept. */
  ghost predicate CountsOk(total: int, ipCounts: map<string, int>, conns: set<Client>) {
    && total == |conns|
    && (forall ip :: ip in ipCounts ==> ipCounts[ip] == |At(conns, ip)| > 0)
    && (forall c :: c in conns ==> c.ip in ipCounts)
  }

  lemma CountsAdd(total: int, ipCounts: map<string, int>, conns: set<Client>, c: Client)
    requires CountsOk(total, ipCounts, conns) && c !in conns
    ensures CountsOk(total + 1, Increment(ipCounts, c.ip), conns + {c})
  {
    forall ip | ip in Increment(ipCounts, c.ip)
      ensures Increment(ipCounts, c.ip)[ip] == |At(conns + {c}, ip)| > 0
    {
      if ip == c.ip {
        assert At(conns + {c}, ip) == At(conns, ip) + {c};
        if ip !in ipCounts {
          assert forall d :: d in conns ==> d.ip != ip;
          assert At(conns, ip) == {};
        }
      } else {
        assert At(conns + {c}, ip) == At(conns, ip);
      }
    }
  }

  lemma CountsRemove(total: int, ipCounts: map<string, int>, conns: set<Client>, c: Client)
    requires CountsOk(total, ipCounts, conns) && c in conns
    ensures total >= 1 && CountsOk(total - 1, Decrement(ipCounts, c.ip), conns - {c})
  {
    var rest := conns - {c};
    assert conns == rest + {c};
    assert At(conns, c.ip) == At(rest, c.ip) + {c};
    var m := Decrement(ipCounts, c.ip);
    forall ip | ip in m ensures m[ip] == |At(rest, ip)| > 0 {
      if ip != c.ip { assert At(rest, ip) == At(conns, ip); }
    }
    forall d | d in rest ensures d.ip in m {
      if d.ip == c.ip {
        assert d in At(rest, c.ip);
        assert |At(rest, c.ip)| > 0;
      }
    }
  }

  // ---- The invariant ----

  ghost predicate CapsOk(cfg: Config, s: State) {
    && (cfg.maxConnections > 0 ==> s.total <= cfg.maxConnections)
    && (cfg.maxPerIP > 0 ==> forall ip :: ip in s.ipCounts ==> s.ipCounts[ip] <= cfg.maxPerIP)
  }

  /** Clients are filed under their own chain, and no chain is kept without clients. */
  ghost predicate ClientsOk(s: State) {
    forall chain :: chain in s.clients ==>
      s.clients[chain] != {} && forall c :: c in s.clients[chain] ==> c.chain == chain
  }

  /** Reservations, registered clients and closed clients are disjoint and all known. */
  ghost predicate PhasesOk(s: State) {
    && s.pending <= s.used
    && (forall c :: IsRegistered(s, c) ==> c in s.used && c !in s.pending)
    && (forall i :: 0 <= i < |s.closed| ==> s.closed[i] in s.used && s.closed[i] !in s.pending && !IsRegistered(s, s.closed[i]))
    && (forall i, j :: 0 <= i < j < |s.closed| ==> s.closed[i] != s.closed[j])
  }

  ghost predicate Inv(cfg: Config, s: State) {
    && ClientsOk(s)
    && PhasesOk(s)
    && CountsOk(s.total, s.ipCounts, s.pending + Registered(s))
    && CapsOk(cfg, s)
  }

  lemma RegisteredMembers(s: State)
    requires ClientsOk(s)
    ensures forall c :: c in Registered(s) <==> IsRegistered(s, c)
  {
  }

  lemma CapsAdd(cfg: Config, s: State, c: Client, s': State)
    requires CapsOk(cfg, s) && CanAdd(cfg, s, c)
    requires s'.total == s.total + 1 && s'.ipCounts == Increment(s.ipCounts, c.ip)
    ensures CapsOk(cfg, s')
  {
  }

  lemma CapsRemove(cfg: Config, s: State, ip: string, s': State)
    requires CapsOk(cfg, s) && s'.total <= s.total && s'.ipCounts == Decrement(s.ipCounts, ip)
    ensures CapsOk(cfg, s')
  {
  }

  /** How the four steps move a client between the phases. */
  lemma PhasesMove(s: State, s': State, c: Client)
    requires PhasesOk(s)
    requires s.used <= s'.used && s'.pending <= s.pending + {c} && c in s'.used
    requires forall d :: d != c ==> (IsRegistered(s', d) <==> IsRegistered(s, d))
    requires forall i :: 0 <= i < |s.closed| ==> s.closed[i] != c
    requires s'.closed == s.closed || (s'.closed == s.closed + [c] && c !in s'.pending && !IsRegistered(s', c))
    requires !(c in s'.pending && IsRegistered(s', c))
    ensures PhasesOk(s')
  {
    hide IsRegistered;
    forall i | 0 <= i < |s'.closed|
      ensures s'.closed[i] in s'.used && s'.closed[i] !in s'.pending && !IsRegistered(s', s'.closed[i])
    {
      if i < |s.closed| { assert s'.closed[i] == s.closed[i]; }
    }
    forall i, j | 0 <= i < j < |s'.closed| ensures s'.closed[i] != s'.closed[j] {
      assert s'.closed[i] == s.closed[i];
      if j < |s.closed| { assert s'.closed[j] == s.closed[j]; }
    }
  }

  lemma SameMembers(s: State, s': State)
    requires ClientsOk(s) && s'.clients == s.clients
    ensures ClientsOk(s') && Registered(s') == Registered(s)
    ensures forall d :: IsRegistered(s', d) <==> IsRegistered(s, d)
  {
  }

  lemma ReserveInv(cfg: Config, s: State, c: Client)
    requires Inv(cfg, s) && c !in s.used
    ensures Inv(cfg, DoReserve(cfg, s, c))
  {
    hide CountsOk, CapsOk, ClientsOk, Registered, CanAdd, IsRegistered, Increment;
    if CanAdd(cfg, s, c) {
      var s' := DoReserve(cfg, s, c);
      RegisteredMembers(s);
      SameMembers(s, s');
      CountsAdd(s.total, s.ipCounts, s.pending + Registered(s), c);
      CapsAdd(cfg, s, c, s');
      assert s'.pending + Registered(s') == s.pending + Registered(s) + {c};
      PhasesMove(s, s', c);
    }
  }

  lemma ReleaseInv(cfg: Config, s: State, c: Client)
    requires Inv(cfg, s) && c in s.pending
    ensures Inv(cfg, DoRelease(s, c)) && s.total - 1 >= 0
  {
    hide CountsOk, CapsOk, ClientsOk, Registered, IsRegistered, Decrement;
    var s' := DoRelease(s, c);
    RegisteredMembers(s);
    SameMembers(s, s');
    CountsRemove(s.total, s.ipCounts, s.pending + Registered(s), c);
    CapsRemove(cfg, s, c.ip, s');
    assert s'.pending + Registered(s') == s.pending + Registered(s) - {c};
    PhasesMove(s, s', c);
  }

  lemma RegisterMembers(s: State, c: Client)
    requires ClientsOk(s)
    ensures var s' := DoRegister(s, c);
            ClientsOk(s') && forall d :: IsRegistered(s', d) <==> IsRegistered(s, d) || d == c
  {
  }

  lemma RegisterInv(cfg: Config, s: State, c: Client)
    requires Inv(cfg, s) && c in s.pending
    ensures Inv(cfg, DoRegister(s, c))
  {
    hide CountsOk, Registered, IsRegistered, CapsOk, ClientsOk;
    var s' := DoRegister(s, c);
    RegisteredMembers(s);
    RegisterMembers(s, c);
    RegisteredMembers(s');
    assert s'.pending + Registered(s') == s.pending + Registered(s);
    CapsStay(cfg, s, s');
    PhasesMove(s, s', c);
  }

  lemma CapsStay(cfg: Config, s: State, s': State)
    requires CapsOk(cfg, s) && s'.total == s.total && s'.ipCounts == s.ipCounts
    ensures CapsOk(cfg, s')
  {
  }

  lemma UnregisterInv(cfg: Config, s: State, c: Client)
    requires Inv(cfg, s)
    ensures Inv(cfg, DoUnregister(s, c))
  {
    if IsRegistered(s, c) {
      UnregisterCounts(s, c);
      UnregisterMembers(s, c);
      UnregisterConns(s, c);
      hide CountsOk, Registered, IsRegistered, CapsOk, ClientsOk, DoUnregister, Decrement;
      CountsRemove(s.total, s.ipCounts, s.pending + Registered(s), c);
      CapsRemove(cfg, s, c.ip, DoUnregister(s, c));
      PhasesMove(s, DoUnregister(s, c), c);
    } else {
      assert DoUnregister(s, c) == s;
    }
  }

  lemma UnregisterConns(s: State, c: Client)
    requires ClientsOk(s) && PhasesOk(s) && IsRegistered(s, c)
    ensures var s' := DoUnregister(s, c);
            s'.pending + Registered(s') == s.pending + Registered(s) - {c} && c in s.pending + Registered(s)
  {
    var s' := DoUnregister(s, c);
    UnregisterMembers(s, c);
    RegisteredMembers(s);
    RegisteredMembers(s');
    hide Registered, ClientsOk, DoUnregister, IsRegistered;
    assert Registered(s') == Registered(s) - {c};
    assert c !in s.pending;
    UnregisterCounts(s, c);
  }

  lemma UnregisterCounts(s: State, c: Client)
    requires IsRegistered(s, c)
    ensures c in ClientsOf(s, c.chain)
    ensures var s' := DoUnregister(s, c);
            s'.total == s.total - 1 && s'.ipCounts == Decrement(s.ipCounts, c.ip) && s'.pending == s.pending
            && s'.used == s.used && s'.closed == s.closed + [c]
  {
  }

  lemma UnregisterMembers(s: State, c: Client)
    requires ClientsOk(s) && IsRegistered(s, c)
    ensures var s' := DoUnregister(s, c);
            ClientsOk(s') && forall d :: IsRegistered(s', d) <==> IsRegistered(s, d) && d != c
  {
  }

  lemma NextInv(cfg: Config, s: State, a: Step)
    requires Inv(cfg, s) && Enabled(s, a)
    ensures Inv(cfg, Next(cfg, s, a))
  {
    hide Inv, DoReserve, DoRelease, DoRegister, DoUnregister;
    match a
    case Reserve(c) => ReserveInv(cfg, s, c);
    case Release(c) => ReleaseInv(cfg, s, c);
    case Register(c) => RegisterInv(cfg, s, c);
    case Unregister(c) => UnregisterInv(cfg, s, c);
  }

  lemma InitialInv(cfg: Config)
    ensures Inv(cfg, INITIAL)
  {
    assert Registered(INITIAL) == {};
  }

  lemma {:induction false} RunInv(cfg: Config, states: seq<State>, steps: seq<Step>, i: nat)
    requires IsRun(cfg, states, steps) && i < |states|
    ensures Inv(cfg, states[i])
  {
    hide Inv, Next, Enabled;
    if i == 0 {
      InitialInv(cfg);
    } else {
      RunInv(cfg, states, steps, i - 1);
      NextInv(cfg, states[i - 1], steps[i - 1]);
    }
  }

  // ---- The promises ----

  /** The sum of a map's values over some of its keys. */
  ghost function SumOver(m: map<string, int>, keys: set<string>): int
    requires keys <= m.Keys
  {
    if keys == {} then 0 else var k :| k in keys; m[k] + SumOver(m, keys - {k})
  }

  ghost function SumValues(m: map<string, int>): int {
    SumOver(m, m.Keys)
  }

  ghost function AtAny(conns: set<Client>, ips: set<string>): set<Client> {
    set c | c in conns && c.ip in ips
  }

  lemma {:induction false} CountsSumUp(m: map<string, int>, conns: set<Client>, keys: set<string>)
    requires keys <= m.Keys && forall ip :: ip in m ==> m[ip] == |At(conns, ip)|
    ensures SumOver(m, keys) == |AtAny(conns, keys)|
    decreases keys
  {
    if keys == {} {
      assert AtAny(conns, keys) == {};
    } else {
      var k :| k in keys && SumOver(m, keys) == m[k] + SumOver(m, keys - {k});
      CountsSumUp(m, conns, keys - {k});
      hide SumOver;
      assert AtAny(conns, keys) == AtAny(conns, keys - {k}) + At(conns, k);
    }
  }

  /** In every interleaving the total is the sum of the per-IP counts and the number of pending reservations
      plus registered clients; each IP's count is the number of its own; no zero or negative entry is kept;
      and the total and per-IP caps hold. */
  lemma Accounting(cfg: Config, states: seq<State>, steps: seq<Step>, i: nat)
    requires IsRun(cfg, states, steps) && i < |states|
    ensures var s := states[i];
            && s.total == SumValues(s.ipCounts) == |s.pending| + |Registered(s)|
            && (forall ip :: IpCount(s, ip) == |At(s.pending, ip)| + |At(Registered(s), ip)|)
            && (forall ip :: ip in s.ipCounts ==> s.ipCounts[ip] > 0)
            && (cfg.maxConnections > 0 ==> s.total <= cfg.maxConnections)
            && (cfg.maxPerIP > 0 ==> forall ip :: IpCount(s, ip) <= cfg.maxPerIP)
  {
    RunInv(cfg, states, steps, i);
    var s := states[i];
    assert PhasesOk(s) && ClientsOk(s) && CapsOk(cfg, s);
    assert CountsOk(s.total, s.ipCounts, s.pending + Registered(s));
    hide PhasesOk, ClientsOk, CountsOk, Registered, IsRun, Inv, SumValues;
    TotalsAgree(s);
    forall ip ensures IpCount(s, ip) == |At(s.pending, ip)| + |At(Registered(s), ip)| {
      IpCountsAgree(s, ip);
    }
  }

  lemma Disjoint(s: State)
    requires PhasesOk(s) && ClientsOk(s)
    ensures s.pending !! Registered(s)
  {
    RegisteredMembers(s);
  }

  lemma TotalsAgree(s: State)
    requires PhasesOk(s) && ClientsOk(s) && CountsOk(s.total, s.ipCounts, s.pending + Registered(s))
    ensures s.total == SumValues(s.ipCounts) == |s.pending| + |Registered(s)|
    ensures forall ip :: ip in s.ipCounts ==> s.ipCounts[ip] > 0
  {
    hide Registered;
    Disjoint(s);
    hide PhasesOk, ClientsOk;
    var conns := s.pending + Registered(s);
    assert |conns| == |s.pending| + |Registered(s)|;
    CountsSumUp(s.ipCounts, conns, s.ipCounts.Keys);
    assert AtAny(conns, s.ipCounts.Keys) == conns;
  }

  lemma IpCountsAgree(s: State, ip: string)
    requires PhasesOk(s) && ClientsOk(s) && CountsOk(s.total, s.ipCounts, s.pending + Registered(s))
    ensures IpCount(s, ip) == |At(s.pending, ip)| + |At(Registered(s), ip)|
  {
    hide Registered;
    Disjoint(s);
    hide PhasesOk, ClientsOk;
    var conns := s.pending + Registered(s);
    assert At(conns, ip) == At(s.pending, ip) + At(Registered(s), ip);
    assert At(s.pending, ip) !! At(Registered(s), ip);
    if ip !in s.ipCounts {
      assert forall d :: d in conns ==> d.ip != ip;
      assert At(conns, ip) == {};
    }
  }

  /** There is room for a client: each positive cap is above the number of connections it counts. */
  ghost predicate Room(cfg: Config, s: State, c: Client) {
    && (cfg.maxConnections > 0 ==> |s.pending| + |Registered(s)| < cfg.maxConnections)
    && (cfg.maxPerIP > 0 ==> |At(s.pending, c.ip)| + |At(Registered(s), c.ip)| < cfg.maxPerIP)
    && (cfg.maxPerChain > 0 ==> |On(Registered(s), c.chain)| < cfg.maxPerChain)
  }

  lemma CanAddIffRoom(cfg: Config, s: State, c: Client)
    requires Inv(cfg, s)
    ensures CanAdd(cfg, s, c) <==> Room(cfg, s, c)
  {
    assert PhasesOk(s) && ClientsOk(s) && CountsOk(s.total, s.ipCounts, s.pending + Registered(s));
    hide CountsOk, Registered, Inv, SumValues, At;
    TotalsAgree(s);
    IpCountsAgree(s, c.ip);
    RegisteredOf(s, c.chain);
  }

  lemma RegisteredOf(s: State, chain: Chain)
    requires ClientsOk(s)
    ensures On(Registered(s), chain) == ClientsOf(s, chain)
  {
    RegisteredMembers(s);
    hide Registered;
    forall c ensures c in On(Registered(s), chain) <==> c in ClientsOf(s, chain) {
      if chain in s.clients && c in s.clients[chain] { assert IsRegistered(s, c); }
    }
  }

  /** In every state of every run a reservation is granted if and only if there is room: it then is pending, and
      otherwise nothing changes. */
  lemma GrantedIffRoom(cfg: Config, states: seq<State>, steps: seq<Step>, i: nat)
    requires IsRun(cfg, states, steps) && i < |steps| && steps[i].Reserve?
    ensures var s, s', c := states[i], states[i + 1], steps[i].c;
            && (c in s'.pending <==>
                  && (cfg.maxConnections > 0 ==> |s.pending| + |Registered(s)| < cfg.maxConnections)
                  && (cfg.maxPerIP > 0 ==> |At(s.pending, c.ip)| + |At(Registered(s), c.ip)| < cfg.maxPerIP)
                  && (cfg.maxPerChain > 0 ==> |On(Registered(s), c.chain)| < cfg.maxPerChain))
            && (if c in s'.pending then s'.pending == s.pending + {c} && Registered(s') == Registered(s) else s' == s)
  {
    RunInv(cfg, states, steps, i);
    var s, c := states[i], steps[i].c;
    CanAddIffRoom(cfg, s, c);
    assert c !in s.pending;
    hide Registered, Inv, At, On, CanAdd, Increment;
    assert states[i + 1] == DoReserve(cfg, s, c);
    SameRegistered(s, states[i + 1]);
  }

  lemma SameRegistered(s: State, s': State)
    ensures s'.clients == s.clients ==> Registered(s') == Registered(s)
  {
  }

  /** What the other steps of a run do to the clients: releasing and registering use up the reservation, and
      unregistering a registered client closes its channel, once, and takes it out; the chain's last block is
      forgotten when its last client leaves, and only then. For a client that is not registered it does nothing. */
  lemma StepMoves(cfg: Config, states: seq<State>, steps: seq<Step>, i: nat)
    requires IsRun(cfg, states, steps) && i < |steps| && !steps[i].Reserve?
    ensures var s, s', c := states[i], states[i + 1], steps[i].c;
            match steps[i]
            case Release(_) =>
              s'.pending == s.pending - {c} && Registered(s') == Registered(s) && s'.closed == s.closed && s'.lastBlock == s.lastBlock
            case Register(_) =>
              s'.pending == s.pending - {c} && Registered(s') == Registered(s) + {c} && s'.closed == s.closed && s'.lastBlock == s.lastBlock
            case Unregister(_) =>
              if c in Registered(s) then
                && s'.pending == s.pending && Registered(s') == Registered(s) - {c} && s'.closed == s.closed + [c]
                && s'.lastBlock == if On(Registered(s'), c.chain) == {} then s.lastBlock - {c.chain} else s.lastBlock
              else s' == s
            case _ => true
  {
    hide Registered, Inv, DoRelease, DoRegister, DoUnregister, DoReserve, On, Enabled;
    RunInv(cfg, states, steps, i);
    var s, c := states[i], steps[i].c;
    match steps[i]
    case Release(_) => SameRegistered(s, DoRelease(s, c)); ReleaseMoves(s, c);
    case Register(_) => RegisterMoves(cfg, s, c);
    case Unregister(_) => UnregisterMoves(cfg, s, c);
    case _ =>
  }

  lemma ReleaseMoves(s: State, c: Client)
    ensures var s' := DoRelease(s, c);
            s'.pending == s.pending - {c} && s'.clients == s.clients && s'.closed == s.closed && s'.lastBlock == s.lastBlock
  {
  }

  lemma RegisterMoves(cfg: Config, s: State, c: Client)
    requires Inv(cfg, s)
    ensures var s' := DoRegister(s, c);
            s'.pending == s.pending - {c} && Registered(s') == Registered(s) + {c} && s'.closed == s.closed
            && s'.lastBlock == s.lastBlock
  {
    hide CountsOk, PhasesOk, CapsOk, IsRegistered, Registered;
    RegisterMembers(s, c);
    RegisteredMembers(s);
    RegisteredMembers(DoRegister(s, c));
  }

  lemma UnregisterMoves(cfg: Config, s: State, c: Client)
    requires Inv(cfg, s)
    ensures var s' := DoUnregister(s, c);
            if c in Registered(s) then
              && s'.pending == s.pending && Registered(s') == Registered(s) - {c} && s'.closed == s.closed + [c]
              && s'.lastBlock == if On(Registered(s'), c.chain) == {} then s.lastBlock - {c.chain} else s.lastBlock
            else s' == s
  {
    hide CountsOk, PhasesOk, CapsOk, Registered;
    RegisteredMembers(s);
    if c in Registered(s) {
      UnregisterMembers(s, c);
      var s' := DoUnregister(s, c);
      RegisteredMembers(s');
      RegisteredOf(s', c.chain);
      LastLeaves(s, c);
      hide DoUnregister, On, ClientsOk, IsRegistered;
      assert Registered(s') == Registered(s) - {c};
    }
  }

  lemma LastLeaves(s: State, c: Client)
    requires IsRegistered(s, c)
    ensures var s' := DoUnregister(s, c);
            && s'.pending == s.pending && s'.closed == s.closed + [c]
            && s'.lastBlock == if ClientsOf(s', c.chain) == {} then s.lastBlock - {c.chain} else s.lastBlock
  {
    hide Decrement;
  }

  /** The clamp of the total at 0 is never needed: a reservation that is released has been counted. */
  lemma ClampUnreachable(cfg: Config, states: seq<State>, steps: seq<Step>, i: nat)
    requires IsRun(cfg, states, steps) && i < |steps| && steps[i].Release?
    ensures states[i].total - 1 >= 0 && states[i + 1].total == states[i].total - 1
  {
    RunInv(cfg, states, steps, i);
    ReleaseInv(cfg, states[i], steps[i].c);
  }

  /** A send channel is closed at most once, and only after its client has left the hub for good. */
  lemma ClosedOnce(cfg: Config, states: seq<State>, steps: seq<Step>, i: nat)
    requires IsRun(cfg, states, steps) && i < |states|
    ensures forall j, k :: 0 <= j < k < |states[i].closed| ==> states[i].closed[j] != states[i].closed[k]
    ensures forall j :: 0 <= j < |states[i].closed| ==>
              !IsRegistered(states[i], states[i].closed[j]) && states[i].closed[j] !in states[i].pending
  {
    RunInv(cfg, states, steps, i);
  }

  const ALICE := Client(0, 1, "x")
  const BOB := Client(1, 1, "y")

  /** Two handlers reserve on chain 1 under a per-chain cap of 1, and then both register. */
  lemma TwoReservations() returns (states: seq<State>)
    ensures IsRun(Config(0, 0, 1), states, [Reserve(ALICE), Reserve(BOB), Register(ALICE), Register(BOB)])
    ensures |states| == 5 && states[4].clients == map[1 := {ALICE, BOB}]
  {
    var cfg := Config(0, 0, 1);
    var s1 := State(map[], map["x" := 1], 1, map[], {ALICE}, {ALICE}, []);
    var s2 := State(map[], map["x" := 1, "y" := 1], 2, map[], {ALICE, BOB}, {ALICE, BOB}, []);
    var s3 := s2.(clients := map[1 := {ALICE}], pending := {BOB});
    var s4 := s2.(clients := map[1 := {ALICE, BOB}], pending := {});
    assert Increment(map[], "x") == s1.ipCounts;
    assert DoReserve(cfg, INITIAL, ALICE) == s1 by { assert {} + {ALICE} == {ALICE}; }
    assert "x" != "y" by { assert "x"[0] != "y"[0]; }
    assert Increment(s1.ipCounts, "y") == s2.ipCounts;
    assert DoReserve(cfg, s1, BOB) == s2 by { assert {ALICE} + {BOB} == {ALICE, BOB}; }
    assert DoRegister(s2, ALICE) == s3 by { assert {} + {ALICE} == {ALICE}; assert {ALICE, BOB} - {ALICE} == {BOB}; }
    assert DoRegister(s3, BOB) == s4 by { assert {ALICE} + {BOB} == {ALICE, BOB}; }
    hide DoReserve, DoRegister, Increment;
    states := [INITIAL, s1, s2, s3, s4];
  }

  /** The per-chain cap counts registered clients only, so reservations made before either client registers
      pass it together: a cap of 1 can end with two clients on the chain. */
  lemma ChainCapCanBeExceeded()
    ensures exists states, steps, chain ::
              var cfg := Config(0, 0, 1);
              IsRun(cfg, states, steps) && |ClientsOf(states[|steps|], chain)| == 2 > cfg.maxPerChain
  {
    hide IsRun;
    var steps := [Reserve(ALICE), Reserve(BOB), Register(ALICE), Register(BOB)];
    var states := TwoReservations();
    assert ClientsOf(states[|steps|], 1) == {ALICE, BOB};
  }

  /** The clients on a chain, registered or with a pending reservation. */
  ghost function OnChain(s: State, chain: Chain): set<Client> {
    On(s.pending, chain) + ClientsOf(s, chain)
  }

  ghost function On(conns: set<Client>, chain: Chain): set<Client> {
    set c | c in conns && c.chain == chain
  }

  /** Every reservation granted for the chain finds fewer clients on it than the cap, pending ones included. */
  ghost predicate GrantedBelowCap(cfg: Config, states: seq<State>, steps: seq<Step>, chain: Chain)
    requires |states| == |steps| + 1
  {
    forall i :: 0 <= i < |steps| ==> BelowCap(cfg, states[i], steps[i], chain)
  }

  ghost predicate BelowCap(cfg: Config, s: State, a: Step, chain: Chain) {
    a.Reserve? && a.c.chain == chain && CanAdd(cfg, s, a.c) ==> |OnChain(s, chain)| < cfg.maxPerChain
  }

  lemma StepOnChain(cfg: Config, s: State, a: Step, chain: Chain)
    requires Inv(cfg, s) && Enabled(s, a) && cfg.maxPerChain > 0 && |OnChain(s, chain)| <= cfg.maxPerChain
    ensures |OnChain(Next(cfg, s, a), chain)| <= cfg.maxPerChain <==> BelowCap(cfg, s, a, chain)
  {
    hide CountsOk, CapsOk, PhasesOk, ClientsOk, Increment, Decrement, OnChain, CanAdd;
    var s' := Next(cfg, s, a);
    if a.Reserve? {
      ReservedOnChain(cfg, s, a.c, chain);
    } else {
      assert OnChain(s', chain) <= OnChain(s, chain) by {
        if a.Register? { RegisteredOnChain(s, a.c, chain); }
        if a.Release? { ReleasedOnChain(s, a.c, chain); }
        if a.Unregister? { UnregisteredOnChain(s, a.c, chain); }
      }
      Smaller(OnChain(s', chain), OnChain(s, chain));
    }
  }

  lemma ReservedOnChain(cfg: Config, s: State, c: Client, chain: Chain)
    requires PhasesOk(s) && c !in s.used
    ensures |OnChain(DoReserve(cfg, s, c), chain)|
            == |OnChain(s, chain)| + if CanAdd(cfg, s, c) && c.chain == chain then 1 else 0
  {
    var s' := DoReserve(cfg, s, c);
    ReserveParts(cfg, s, c, chain);
    OnMore(s.pending, c, chain);
    assert c.chain == chain ==> !IsRegistered(s, c);
    hide ClientsOf, PhasesOk, On, CanAdd, DoReserve;
    if CanAdd(cfg, s, c) && c.chain == chain {
      AddToUnion(On(s.pending, chain), ClientsOf(s, chain), c);
    }
  }

  lemma ReserveParts(cfg: Config, s: State, c: Client, chain: Chain)
    ensures var s' := DoReserve(cfg, s, c);
            && ClientsOf(s', chain) == ClientsOf(s, chain)
            && s'.pending == if CanAdd(cfg, s, c) then s.pending + {c} else s.pending
  {
    hide Increment, CanAdd;
  }

  lemma AddToUnion(a: set<Client>, b: set<Client>, c: Client)
    requires c !in a && c !in b
    ensures |(a + {c}) + b| == |a + b| + 1
  {
    assert (a + {c}) + b == (a + b) + {c};
  }

  lemma OnMore(conns: set<Client>, c: Client, chain: Chain)
    ensures On(conns + {c}, chain) == if c.chain == chain then On(conns, chain) + {c} else On(conns, chain)
    ensures c !in conns ==> c !in On(conns, chain)
  {
  }

  lemma RegisteredOnChain(s: State, c: Client, chain: Chain)
    requires c in s.pending
    ensures OnChain(DoRegister(s, c), chain) == OnChain(s, chain)
  {
    var s' := DoRegister(s, c);
    assert ClientsOf(s', chain) == ClientsOf(s, chain) + if c.chain == chain then {c} else {};
    hide ClientsOf;
  }

  lemma ReleasedOnChain(s: State, c: Client, chain: Chain)
    ensures OnChain(DoRelease(s, c), chain) <= OnChain(s, chain)
  {
    hide Decrement;
    assert ClientsOf(DoRelease(s, c), chain) == ClientsOf(s, chain);
    hide ClientsOf;
  }

  lemma UnregisteredOnChain(s: State, c: Client, chain: Chain)
    ensures OnChain(DoUnregister(s, c), chain) <= OnChain(s, chain)
  {
    hide Decrement;
    assert ClientsOf(DoUnregister(s, c), chain) <= ClientsOf(s, chain);
    hide ClientsOf;
  }

  lemma Smaller(a: set<Client>, b: set<Client>)
    requires a <= b
    ensures |a| <= |b|
  {
    assert b == a + (b - a);
  }

  lemma {:induction false} GrantedBelowCapHolds(cfg: Config, states: seq<State>, steps: seq<Step>, i: nat, chain: Chain)
    requires IsRun(cfg, states, steps) && GrantedBelowCap(cfg, states, steps, chain) && i < |states| && cfg.maxPerChain > 0
    ensures |OnChain(states[i], chain)| <= cfg.maxPerChain
  {
    hide Next, Enabled, Inv, BelowCap;
    if i == 0 {
      assert OnChain(INITIAL, chain) == {};
    } else {
      hide OnChain;
      GrantedBelowCapHolds(cfg, states, steps, i - 1, chain);
      RunInv(cfg, states, steps, i - 1);
      StepOnChain(cfg, states[i - 1], steps[i - 1], chain);
    }
  }

  /** A chain stays within its cap over a whole run, pending reservations included, if and only if each of its
      reservations is granted below the cap when pending ones are counted too. */
  lemma ChainCapIff(cfg: Config, states: seq<State>, steps: seq<Step>, chain: Chain)
    requires IsRun(cfg, states, steps) && cfg.maxPerChain > 0
    ensures (forall i :: 0 <= i < |states| ==> |OnChain(states[i], chain)| <= cfg.maxPerChain)
            <==> GrantedBelowCap(cfg, states, steps, chain)
  {
    hide Next, Enabled, Inv, BelowCap, OnChain;
    if GrantedBelowCap(cfg, states, steps, chain) {
      forall i | 0 <= i < |states| ensures |OnChain(states[i], chain)| <= cfg.maxPerChain {
        GrantedBelowCapHolds(cfg, states, steps, i, chain);
      }
    }
    if forall i :: 0 <= i < |states| ==> |OnChain(states[i], chain)| <= cfg.maxPerChain {
      forall i | 0 <= i < |steps| ensures BelowCap(cfg, states[i], steps[i], chain) {
        RunInv(cfg, states, steps, i);
        StepOnChain(cfg, states[i], steps[i], chain);
        assert |OnChain(states[i + 1], chain)| <= cfg.maxPerChain;
      }
    }
  }

  /** What goes over the cap does show: the pending clients of any point of a run may all register next, and then
      that many clients are registered on the chain. */
  lemma {:induction false} AllPendingRegister(cfg: Config, states: seq<State>, steps: seq<Step>, chain: Chain)
    returns (states': seq<State>, steps': seq<Step>)
    requires IsRun(cfg, states, steps)
    ensures IsRun(cfg, states', steps') && states <= states' && steps <= steps'
    ensures forall i :: |steps| <= i < |steps'| ==> steps'[i].Register?
    ensures |ClientsOf(states'[|steps'|], chain)| == |OnChain(states[|steps|], chain)|
    decreases |states[|steps|].pending|
  {
    hide Inv, DoRegister, OnChain, ClientsOf, Increment, Decrement, CanAdd;
    states', steps' := states, steps;
    var s := states[|steps|];
    if c :| c in s.pending && c.chain == chain {
      var s1 := DoRegister(s, c);
      RegisteredOnChain(s, c, chain);
      assert s1.pending == s.pending - {c} by { RegisteredLeaves(s, c); }
      var more, a := states + [s1], steps + [Register(c)];
      assert IsRun(cfg, more, a) by {
        forall i | 0 <= i < |a|
          ensures Enabled(more[i], a[i]) && more[i + 1] == Next(cfg, more[i], a[i])
        {
          if i < |steps| { assert a[i] == steps[i] && more[i] == states[i] && more[i + 1] == states[i + 1]; }
        }
      }
      states', steps' := AllPendingRegister(cfg, more, a, chain);
    } else {
      assert OnChain(s, chain) == ClientsOf(s, chain) by { NonePending(s, chain); }
    }
  }

  lemma RegisteredLeaves(s: State, c: Client)
    ensures DoRegister(s, c).pending == s.pending - {c}
  {
  }

  lemma NonePending(s: State, chain: Chain)
    requires forall c :: c in s.pending ==> c.chain != chain
    ensures OnChain(s, chain) == ClientsOf(s, chain)
  {
    assert On(s.pending, chain) == {};
  }

  /** Every reservation for a chain is made while no other one for that chain is pending. */
  ghost predicate OneAtATime(states: seq<State>, steps: seq<Step>) {
    forall i, c :: 0 <= i < |steps| < |states| && steps[i] == Reserve(c) ==>
      forall d :: d in states[i].pending ==> d.chain != c.chain
  }

  /** In particular the cap holds when the reservations for each chain come one at a time. */
  lemma ChainCapHoldsOneAtATime(cfg: Config, states: seq<State>, steps: seq<Step>, i: nat, chain: Chain)
    requires IsRun(cfg, states, steps) && OneAtATime(states, steps) && i < |states| && cfg.maxPerChain > 0
    ensures |ClientsOf(states[i], chain)| <= |OnChain(states[i], chain)| <= cfg.maxPerChain
  {
    hide Next, Enabled, ClientsOf;
    forall j | 0 <= j < |steps| ensures BelowCap(cfg, states[j], steps[j], chain) {
      if steps[j].Reserve? && steps[j].c.chain == chain {
        assert steps[j] == Reserve(steps[j].c);
        NonePending(states[j], chain);
      }
    }
    GrantedBelowCapHolds(cfg, states, steps, i, chain);
    Smaller(ClientsOf(states[i], chain), OnChain(states[i], chain));
  }

  // ---- The hub ----

  class WSHub {
    const config: Config
    var clients: map<Chain, set<Client>>
    var ipCounts: map<string, int>
    var total: int
    var lastBlock: map<Chain, uint64>

    ghost var pending: set<Client>
    ghost var used: set<Client>
    ghost var closed: seq<Client>

    ghost function View(): State
      reads this
    {
      State(clients, ipCounts, total, lastBlock, pending, used, closed)
    }

    constructor (config: Config)
      ensures this.config == config && View() == INITIAL
    {
      this.config := config;
      clients, ipCounts, total, lastBlock := map[], map[], 0, map[];
      pending, used, closed := {}, {}, [];
    }

    method CanAddConnectionLocked(c: Client) returns (ok: bool)
      ensures ok == CanAdd(config, View(), c)
      ensures Inv(config, View()) ==> (ok <==>
                && (config.maxConnections > 0 ==> |pending| + |Registered(View())| < config.maxConnections)
                && (config.maxPerIP > 0 ==> |At(pending, c.ip)| + |At(Registered(View()), c.ip)| < config.maxPerIP)
                && (config.maxPerChain > 0 ==> |On(Registered(View()), c.chain)| < config.maxPerChain))
    {
      if Inv(config, View()) { CanAddIffRoom(config, View(), c); }
      hide Inv, Registered, At, On;
      if config.maxConnections > 0 && total >= config.maxConnections { return false; }
      if config.maxPerIP > 0 && (if c.ip in ipCounts then ipCounts[c.ip] else 0) >= config.maxPerIP { return false; }
      if config.maxPerChain > 0 && |if c.chain in clients then clients[c.chain] else {}| >= config.maxPerChain {
        return false;
      }
      return true;
    }

    method ReserveConnection(c: Client) returns (ok: bool)
      modifies this
      ensures ok == CanAdd(config, old(View()), c) && View() == DoReserve(config, old(View()), c)
      ensures old(Inv(config, View())) ==> (ok <==> old(Room(config, View(), c)))
    {
      hide Inv, Registered, At, On;
      ok := CanAddConnectionLocked(c);
      if !ok { return; }
      ipCounts := ipCounts[c.ip := (if c.ip in ipCounts then ipCounts[c.ip] else 0) + 1];
      total := total + 1;
      pending, used := pending + {c}, used + {c};
    }

    method ReleaseReservedConnection(c: Client)
      modifies this
      ensures View() == DoRelease(old(View()), c)
    {
      total := total - 1;
      if total < 0 { total := 0; }
      ipCounts := ipCounts[c.ip := (if c.ip in ipCounts then ipCounts[c.ip] else 0) - 1];
      if ipCounts[c.ip] <= 0 {
        ipCounts := ipCounts - {c.ip};
      }
      pending := pending - {c};
      assert ipCounts == Decrement(old(ipCounts), c.ip);
    }

    /** Run, the register case. A client without a reservation is counted here; the handlers make one first. */
    method Register(c: Client, reserved: bool)
      modifies this
      ensures View() == var s := DoRegister(old(View()), c);
                        if reserved then s else s.(ipCounts := Increment(s.ipCounts, c.ip), total := s.total + 1)
    {
      if c.chain !in clients {
        clients := clients[c.chain := {}];
      }
      clients := clients[c.chain := clients[c.chain] + {c}];
      if !reserved {
        ipCounts := ipCounts[c.ip := (if c.ip in ipCounts then ipCounts[c.ip] else 0) + 1];
        total := total + 1;
      }
      pending := pending - {c};
    }

    /** Run, the unregister case. */
    method Unregister(c: Client)
      modifies this
      ensures View() == DoUnregister(old(View()), c)
    {
      if c.chain in clients {
        if c in clients[c.chain] {
          clients := clients[c.chain := clients[c.chain] - {c}];
          closed := closed + [c];
          total := total - 1;
          ipCounts := ipCounts[c.ip := (if c.ip in ipCounts then ipCounts[c.ip] else 0) - 1];
          if ipCounts[c.ip] <= 0 {
            ipCounts := ipCounts - {c.ip};
          }
          assert ipCounts == Decrement(old(ipCounts), c.ip);
          if |clients[c.chain]| == 0 {
            clients := clients - {c.chain};
            lastBlock := lastBlock - {c.chain};
          }
        }
      }
    }
  }
}
