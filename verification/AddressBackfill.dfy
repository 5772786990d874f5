/** cmd/cmd_address_backfill.go: copying history into a lookup table while a live writer fills the same table
    through a materialized view. The backfill may be stopped or crash at any point and be run again. */
module AddressBackfill {
  import opened Base

  datatype Table = Txs | Traces

  /** A row of raw_txs or raw_traces; only traces look at value and call type. */
  datatype RawRow = RawRow(block: uint32, index: nat, from: string, to: Option<string>, value: nat, callType: string)

  /** A row of the lookup table: the copied row under one of its addresses. */
  datatype LookupRow = LookupRow(row: RawRow, address: string)

  /** What the select, and the view, make of one raw row: one lookup row for each distinct address. */
  function Copies(t: Table, r: RawRow): set<LookupRow> {
    if t.Traces? && !(r.value > 0 || r.callType == "CREATE" || r.callType == "CREATE2") then {}
    else {LookupRow(r, r.from)} + if r.to.None? then {} else {LookupRow(r, r.to.value)}
  }

  /** A raw row is filed under its sender and its receiver, a trace only when it moves value or creates a contract. */
  lemma CopiesAre(t: Table, r: RawRow, l: LookupRow)
    ensures l in Copies(t, r) <==>
            && l.row == r && (l.address == r.from || r.to == Some(l.address))
            && (t.Traces? ==> r.value > 0 || r.callType in ["CREATE", "CREATE2"])
  {
  }

  /** The select over [from, to). */
  function Selected(t: Table, raw: set<RawRow>, from: int, to: int): set<LookupRow> {
    set r, l | r in raw && from <= r.block < to && l in Copies(t, r) :: l
  }

  /** The end of the next chunk, in uint32. */
  function ChunkEnd(next: uint32, cutoff: uint32, chunkSize: uint32): uint32 {
    var to := WrapU32(next + chunkSize);
    if to > cutoff || to < next then cutoff else to
  }

  /** Where a run of backfillAddressTable is. */
  datatype Process =
    | Idle
    | Starting                                          // no saved state was found
    | HaveCaptured(captured: Option<uint32>)            // the view's first block has been read
    | HaveCutoff(cutoff: uint32)
    | Copying(cutoff: uint32, next: uint32)             // at the head of the loop
    | Copied(cutoff: uint32, next: uint32, to: uint32)  // the chunk is copied, its end not yet saved
    | Done

  datatype Db = Db(
    raw: set<RawRow>,
    lookup: set<LookupRow>,                       // duplicates merge
    saved: Option<(uint32, uint32)>,              // cutoff and next_block
    viewStart: nat,                               // the writer's position when the view was created
    writer: nat)                                  // the writer's position now

  datatype State = State(db: Db, process: Process)

  datatype Step =
    | Insert(rows: set<RawRow>, writer: nat)      // the writer adds blocks; the view captures them
    | Load
    | ReadCaptured(captured: Option<uint32>)
    | ReadHead(head: uint32)
    | SaveInitial
    | Copy
    | SaveChunk
    | CopyFails(part: set<LookupRow>)             // some of the chunk's rows were inserted
    | SaveFails(applied: bool)                    // the state may have been written all the same
    | Stop                                        // crash, cancellation, or the end of the process

  ghost predicate Covered(db: Db, t: Table, r: RawRow) {
    Copies(t, r) <= db.lookup
  }

  /** min(block_number) of the lookup table and whether it has rows. */
  ghost predicate IsCaptured(lookup: set<LookupRow>, captured: Option<uint32>) {
    match captured
    case None => lookup == {}
    case Some(m) => (exists l :: l in lookup && l.row.block == m) && forall l :: l in lookup ==> l.row.block >= m
  }

  /** max(block_number) of the raw table, 0 for an empty one. */
  ghost predicate IsHead(raw: set<RawRow>, head: uint32) {
    && (forall r :: r in raw ==> r.block <= head)
    && (if raw == {} then head == 0 else exists r :: r in raw && r.block == head)
  }

  ghost predicate Enabled(t: Table, chunkSize: uint32, s: State, a: Step) {
    match a
    case Insert(rows, w) => w >= s.db.writer && forall r :: r in rows ==> s.db.writer <= r.block < w
    case Load => s.process.Idle?
    case ReadCaptured(c) => s.process.Starting? && IsCaptured(s.db.lookup, c)
    case ReadHead(h) => s.process.HaveCaptured? && IsHead(s.db.raw, h)
    case SaveInitial => s.process.HaveCutoff?
    case Copy => s.process.Copying?
    case SaveChunk => s.process.Copied?
    case CopyFails(part) =>
      s.process.Copying? &&
      part <= Selected(t, s.db.raw, s.process.next, ChunkEnd(s.process.next, s.process.cutoff, chunkSize))
    case SaveFails(_) => s.process.HaveCutoff? || s.process.Copied?
    case Stop => true
  }

  function Loop(cutoff: uint32, next: uint32): Process {
    if next >= cutoff then Done else Copying(cutoff, next)
  }

  ghost function Next(t: Table, chunkSize: uint32, s: State, a: Step): State
    requires Enabled(t, chunkSize, s, a)
  {
    var db, p := s.db, s.process;
    match a
    case Insert(rows, w) =>
      s.(db := db.(raw := db.raw + rows, lookup := db.lookup + (set r, l | r in rows && l in Copies(t, r) :: l), writer := w))
    case Load => s.(process := if db.saved.None? then Starting else Loop(db.saved.value.0, db.saved.value.1))
    case ReadCaptured(c) => s.(process := HaveCaptured(c))
    case ReadHead(h) => s.(process := HaveCutoff(if p.captured.Some? then p.captured.value else WrapU32(h + 1)))
    case SaveInitial => State(db.(saved := Some((p.cutoff, 0))), Loop(p.cutoff, 0))
    case Copy =>
      var to := ChunkEnd(p.next, p.cutoff, chunkSize);
      State(db.(lookup := db.lookup + Selected(t, db.raw, p.next, to)), Copied(p.cutoff, p.next, to))
    case SaveChunk => State(db.(saved := Some((p.cutoff, p.to))), Loop(p.cutoff, p.to))
    case CopyFails(part) => State(db.(lookup := db.lookup + part), Idle)
    case SaveFails(applied) =>
      State(if applied then db.(saved := Some((p.cutoff, if p.Copied? then p.to else 0))) else db, Idle)
    case Stop => s.(process := Idle)
  }

  /** The moment the view is created: the raw table has what was written so far, the lookup table is empty. */
  ghost predicate IsInitial(s: State) {
    && s.db.lookup == {} && s.db.saved.None? && s.process.Idle?
    && s.db.viewStart == s.db.writer
    && forall r :: r in s.db.raw ==> r.block < s.db.writer
  }

  /** The cutoff computed from the head is usable: it does not wrap around to 0, the view has captured something, or
      there is nothing left to copy. */
  ghost predicate HeadOk(t: Table, s: State, a: Step) {
    a.ReadHead? && s.process.HaveCaptured? && s.process.captured.None? ==>
      a.head < 0xFFFF_FFFF || forall r :: r in s.db.raw ==> Covered(s.db, t, r)
  }

  ghost predicate IsRun(t: Table, chunkSize: uint32, states: seq<State>, steps: seq<Step>) {
    && |states| == |steps| + 1
    && IsInitial(states[0])
    && forall i :: 0 <= i < |steps| ==>
         Enabled(t, chunkSize, states[i], steps[i]) && states[i + 1] == Next(t, chunkSize, states[i], steps[i])
  }

  ghost predicate HeadsOk(t: Table, states: seq<State>, steps: seq<Step>)
    requires |states| == |steps| + 1
  {
    forall i :: 0 <= i < |steps| ==> HeadOk(t, states[i], steps[i])
  }

  // ---- The invariant ----

  /** Lookup rows are copies of raw rows, and of nothing else. */
  ghost predicate OnlyCopies(db: Db, t: Table) {
    forall l :: l in db.lookup ==> l.row in db.raw && l in Copies(t, l.row)
  }

  ghost predicate CoveredBelow(db: Db, t: Table, b: int) {
    forall r :: r in db.raw && r.block < b ==> Covered(db, t, r)
  }

  ghost predicate CoveredFrom(db: Db, t: Table, b: int) {
    forall r :: r in db.raw && r.block >= b ==> Covered(db, t, r)
  }

  ghost predicate DbOk(db: Db, t: Table) {
    && OnlyCopies(db, t)
    && db.viewStart <= db.writer
    && (forall r :: r in db.raw ==> r.block < db.writer)
    && CoveredFrom(db, t, db.viewStart)
    && (db.saved.Some? ==> CoveredFrom(db, t, db.saved.value.0) && CoveredBelow(db, t, db.saved.value.1))
    && (db.saved.None? ==> forall l :: l in db.lookup ==> l.row.block >= db.viewStart)
  }

  ghost predicate ProcessOk(db: Db, t: Table, p: Process) {
    match p
    case Idle => true
    case Starting => db.saved.None?
    case HaveCaptured(c) => db.saved.None? && (c.Some? ==> c.value >= db.viewStart)
    case HaveCutoff(cutoff) => db.saved.None? && CoveredFrom(db, t, cutoff)
    case Copying(cutoff, next) =>
      db.saved.Some? && next < cutoff && CoveredFrom(db, t, cutoff) && CoveredBelow(db, t, next)
    case Copied(cutoff, next, to) =>
      db.saved.Some? && to <= cutoff && CoveredFrom(db, t, cutoff) && CoveredBelow(db, t, to)
    case Done => forall r :: r in db.raw ==> Covered(db, t, r)
  }

  ghost predicate Inv(t: Table, s: State) {
    DbOk(s.db, t) && ProcessOk(s.db, t, s.process)
  }

  /** More lookup rows keep what was covered covered, as long as the raw rows stay. */
  lemma GrowLookup(db: Db, t: Table, more: set<LookupRow>, from: int, to: int)
    requires more <= Selected(t, db.raw, from, to)
    requires OnlyCopies(db, t)
    ensures var db' := db.(lookup := db.lookup + more);
            && OnlyCopies(db', t)
            && (forall b :: CoveredFrom(db, t, b) ==> CoveredFrom(db', t, b))
            && (forall b :: CoveredBelow(db, t, b) ==> CoveredBelow(db', t, b))
  {
    assert forall r, l :: l in Copies(t, r) ==> l.row == r;
  }

  lemma InsertDb(db: Db, t: Table, rows: set<RawRow>, w: nat)
    requires DbOk(db, t) && w >= db.writer && forall r :: r in rows ==> db.writer <= r.block < w
    ensures var db' := db.(raw := db.raw + rows,
                           lookup := db.lookup + (set r, l | r in rows && l in Copies(t, r) :: l), writer := w);
            && DbOk(db', t)
            && (forall b :: CoveredFrom(db, t, b) ==> CoveredFrom(db', t, b))
            && (forall b :: CoveredBelow(db, t, b) ==> CoveredBelow(db', t, b))
            && ((forall r :: r in db.raw ==> Covered(db, t, r)) ==> forall r :: r in db'.raw ==> Covered(db', t, r))
  {
    var db' := db.(raw := db.raw + rows,
                   lookup := db.lookup + (set r, l | r in rows && l in Copies(t, r) :: l), writer := w);
    InsertCovers(db, db', t, rows);
    InsertOnlyCopies(db, db', t, rows);
    hide Copies, Covered, OnlyCopies;
    assert CoveredFrom(db', t, db.viewStart);
  }

  lemma InsertOnlyCopies(db: Db, db': Db, t: Table, rows: set<RawRow>)
    requires OnlyCopies(db, t)
    requires db'.raw == db.raw + rows && db'.lookup == db.lookup + (set r, l | r in rows && l in Copies(t, r) :: l)
    ensures OnlyCopies(db', t)
    ensures forall l :: l in db'.lookup ==> l in db.lookup || l.row in rows
  {
    assert forall r, l :: l in Copies(t, r) ==> l.row == r;
  }

  lemma InsertCovers(db: Db, db': Db, t: Table, rows: set<RawRow>)
    requires db'.raw == db.raw + rows && db'.lookup == db.lookup + (set r, l | r in rows && l in Copies(t, r) :: l)
    ensures forall r :: r in rows ==> Covered(db', t, r)
    ensures forall r :: Covered(db, t, r) ==> Covered(db', t, r)
  {
    hide Copies;
  }

  /** A chunk that is copied extends the covered blocks to its end. */
  lemma CopyCovers(db: Db, t: Table, next: int, to: int)
    requires OnlyCopies(db, t) && CoveredBelow(db, t, next)
    ensures CoveredBelow(db.(lookup := db.lookup + Selected(t, db.raw, next, to)), t, to)
  {
    hide Copies;
  }

  lemma CutoffFromCaptured(db: Db, t: Table, c: uint32)
    requires CoveredFrom(db, t, db.viewStart) && c >= db.viewStart
    ensures CoveredFrom(db, t, c)
  {
  }

  lemma CutoffFromHead(db: Db, t: Table, head: uint32)
    requires IsHead(db.raw, head)
    ensures CoveredFrom(db, t, head + 1)
  {
  }

  lemma AllCovered(db: Db, t: Table, cutoff: int, next: int)
    requires CoveredFrom(db, t, cutoff) && CoveredBelow(db, t, next) && next >= cutoff
    ensures forall r :: r in db.raw ==> Covered(db, t, r)
  {
  }

  lemma LoopInv(db: Db, t: Table, cutoff: uint32, next: uint32)
    requires db.saved.Some? && CoveredFrom(db, t, cutoff) && CoveredBelow(db, t, next)
    ensures ProcessOk(db, t, Loop(cutoff, next))
  {
    if next >= cutoff { AllCovered(db, t, cutoff, next); }
  }

  lemma CopyInv(t: Table, chunkSize: uint32, s: State, a: Step)
    requires Inv(t, s) && Enabled(t, chunkSize, s, a) && (a.Copy? || a.CopyFails?)
    ensures Inv(t, Next(t, chunkSize, s, a))
  {
    hide Selected, Covered, ChunkEnd;
    var p, db := s.process, s.db;
    var to := ChunkEnd(p.next, p.cutoff, chunkSize);
    ChunkWithin(p.next, p.cutoff, chunkSize);
    GrowLookup(db, t, if a.Copy? then Selected(t, db.raw, p.next, to) else a.part, p.next, to);
    CopyCovers(db, t, p.next, to);
    hide CoveredFrom, CoveredBelow, OnlyCopies;
  }

  /** A step keeps the invariant if and only if it does not read a head that makes the cutoff unusable. */
  lemma NextInv(t: Table, chunkSize: uint32, s: State, a: Step)
    requires Inv(t, s) && Enabled(t, chunkSize, s, a)
    ensures Inv(t, Next(t, chunkSize, s, a)) <==> HeadOk(t, s, a)
  {
    var db, p := s.db, s.process;
    match a
    case Insert(rows, w) => InsertInv(t, chunkSize, s, rows, w);
    case Copy => CopyInv(t, chunkSize, s, a);
    case CopyFails(part) => CopyInv(t, chunkSize, s, a);
    case Load => if db.saved.Some? { LoopInv(db, t, db.saved.value.0, db.saved.value.1); }
    case ReadCaptured(c) =>
    case ReadHead(h) => ReadHeadInv(t, chunkSize, s, h);
    case SaveInitial => SavedInv(t, s, p.cutoff, 0);
    case SaveChunk => SavedInv(t, s, p.cutoff, p.to);
    case SaveFails(applied) => SavedInv(t, s, p.cutoff, if p.Copied? then p.to else 0);
    case Stop =>
  }

  lemma ReadHeadInv(t: Table, chunkSize: uint32, s: State, h: uint32)
    requires Inv(t, s) && Enabled(t, chunkSize, s, ReadHead(h))
    ensures Inv(t, Next(t, chunkSize, s, ReadHead(h))) <==> HeadOk(t, s, ReadHead(h))
  {
    var db, p := s.db, s.process;
    hide Copies, Covered;
    if p.captured.Some? { CutoffFromCaptured(db, t, p.captured.value); } else { CutoffFromHead(db, t, h); }
    assert CoveredFrom(db, t, 0) <==> forall r :: r in db.raw ==> Covered(db, t, r);
  }

  lemma InsertInv(t: Table, chunkSize: uint32, s: State, rows: set<RawRow>, w: nat)
    requires Inv(t, s) && Enabled(t, chunkSize, s, Insert(rows, w))
    ensures Inv(t, Next(t, chunkSize, s, Insert(rows, w)))
  {
    hide CoveredFrom, CoveredBelow, OnlyCopies, Covered, Copies;
    InsertDb(s.db, t, rows, w);
  }

  lemma SavedInv(t: Table, s: State, cutoff: uint32, next: uint32)
    requires Inv(t, s) && CoveredFrom(s.db, t, cutoff) && CoveredBelow(s.db, t, next)
    ensures var db' := s.db.(saved := Some((cutoff, next)));
            Inv(t, State(db', Loop(cutoff, next))) && Inv(t, State(db', Idle))
  {
    var db' := s.db.(saved := Some((cutoff, next)));
    SavedSame(s.db, db', t);
    hide CoveredFrom, CoveredBelow, OnlyCopies;
    LoopInv(db', t, cutoff, next);
  }

  lemma SavedSame(db: Db, db': Db, t: Table)
    requires db' == db.(saved := db'.saved)
    ensures OnlyCopies(db', t) <==> OnlyCopies(db, t)
    ensures forall b :: CoveredFrom(db', t, b) <==> CoveredFrom(db, t, b)
    ensures forall b :: CoveredBelow(db', t, b) <==> CoveredBelow(db, t, b)
  {
    hide Copies;
    assert forall r :: Covered(db', t, r) <==> Covered(db, t, r);
    hide Covered;
  }

  lemma {:induction false} RunInv(t: Table, chunkSize: uint32, states: seq<State>, steps: seq<Step>, i: nat)
    requires IsRun(t, chunkSize, states, steps) && HeadsOk(t, states, steps) && i < |states|
    ensures Inv(t, states[i])
  {
    hide Inv, Next, Enabled, HeadOk;
    if i == 0 {
      InitialInv(t, states[0]);
    } else {
      RunInv(t, chunkSize, states, steps, i - 1);
      NextInv(t, chunkSize, states[i - 1], steps[i - 1]);
    }
  }

  /** Over a whole run the invariant holds throughout if and only if every head that is read is usable. */
  lemma RunInvIff(t: Table, chunkSize: uint32, states: seq<State>, steps: seq<Step>)
    requires IsRun(t, chunkSize, states, steps)
    ensures (forall i :: 0 <= i < |states| ==> Inv(t, states[i])) <==> HeadsOk(t, states, steps)
  {
    hide Inv, Next, Enabled, HeadOk;
    if HeadsOk(t, states, steps) {
      forall i | 0 <= i < |states| ensures Inv(t, states[i]) { RunInv(t, chunkSize, states, steps, i); }
    }
    if forall i :: 0 <= i < |states| ==> Inv(t, states[i]) {
      forall i | 0 <= i < |steps| ensures HeadOk(t, states[i], steps[i]) {
        NextInv(t, chunkSize, states[i], steps[i]);
        assert Inv(t, states[i + 1]);
      }
    }
  }

  lemma InitialInv(t: Table, s: State)
    requires IsInitial(s)
    ensures Inv(t, s)
  {
  }

  // ---- The promises ----

  /** Over any interleaving with the writer, and any crashes and failures: the lookup table files raw rows under
      their sender and receiver, and nothing else, and it has all of this for the blocks below the saved next block
      and from the saved cutoff up; once a run is done it has it for all blocks. */
  lemma BackfillCovers(t: Table, chunkSize: uint32, states: seq<State>, steps: seq<Step>, i: nat)
    requires IsRun(t, chunkSize, states, steps) && HeadsOk(t, states, steps) && i < |states|
    ensures var db := states[i].db;
            && (forall l :: l in db.lookup ==>
                  && l.row in db.raw && (l.address == l.row.from || l.row.to == Some(l.address))
                  && (t.Traces? ==> l.row.value > 0 || l.row.callType in ["CREATE", "CREATE2"]))
            && (forall l: LookupRow :: l.row in db.raw && (l.address == l.row.from || l.row.to == Some(l.address))
                  && (t.Traces? ==> l.row.value > 0 || l.row.callType in ["CREATE", "CREATE2"])
                  && (states[i].process.Done?
                      || (db.saved.Some? && (l.row.block < db.saved.value.1 || l.row.block >= db.saved.value.0)))
                  ==> l in db.lookup)
  {
    RunInv(t, chunkSize, states, steps, i);
    var db := states[i].db;
    hide Copies;
    forall l: LookupRow ensures l in Copies(t, l.row) <==>
                     && (l.address == l.row.from || l.row.to == Some(l.address))
                     && (t.Traces? ==> l.row.value > 0 || l.row.callType in ["CREATE", "CREATE2"])
    {
      CopiesAre(t, l.row, l);
    }
    assert OnlyCopies(db, t);
    assert forall r :: Covered(db, t, r) ==> forall l :: l in Copies(t, r) ==> l in db.lookup;
  }

  lemma DoneIsComplete(db: Db, t: Table, l: LookupRow)
    requires OnlyCopies(db, t) && forall r :: r in db.raw ==> Covered(db, t, r)
    ensures l in db.lookup <==>
            && l.row in db.raw && (l.address == l.row.from || l.row.to == Some(l.address))
            && (t.Traces? ==> l.row.value > 0 || l.row.callType in ["CREATE", "CREATE2"])
  {
    CopiesAre(t, l.row, l);
    hide Copies;
    if l.row in db.raw { assert Covered(db, t, l.row); }
  }

  /** A first run with nothing captured reports completion rightly if and only if the head is usable: from the last
      uint32 block the cutoff wraps around to 0, and the run is done at once with whatever rows are missing. */
  lemma WrappedCutoffIff(t: Table, chunkSize: uint32, s: State, h: uint32)
    requires Inv(t, s) && s.process == HaveCaptured(None) && IsHead(s.db.raw, h)
    ensures var s1 := Next(t, chunkSize, s, ReadHead(h));
            var s2 := Next(t, chunkSize, s1, SaveInitial);
            && (Inv(t, s1) <==> h < 0xFFFF_FFFF || forall r :: r in s.db.raw ==> Covered(s.db, t, r))
            && (h == 0xFFFF_FFFF ==>
                  s2.process == Done && s2.db.lookup == s.db.lookup && s2.db.raw == s.db.raw
                  && (Inv(t, s2) <==> forall r :: r in s.db.raw ==> Covered(s.db, t, r)))
  {
    ReadHeadInv(t, chunkSize, s, h);
    var s1 := Next(t, chunkSize, s, ReadHead(h));
    var s2 := Next(t, chunkSize, s1, SaveInitial);
    if Inv(t, s1) { NextInv(t, chunkSize, s1, SaveInitial); }
    SavedSame(s1.db, s2.db, t);
    hide Inv, Covered, Copies;
    assert h == 0xFFFF_FFFF ==> s2.process == Done;
    DoneCovers(t, s, s2);
  }

  lemma DoneCovers(t: Table, s: State, s2: State)
    requires s2.db.lookup == s.db.lookup && s2.db.raw == s.db.raw
    ensures s2.process == Done && Inv(t, s2) ==> forall r :: r in s.db.raw ==> Covered(s.db, t, r)
  {
    assert forall r :: Covered(s2.db, t, r) <==> Covered(s.db, t, r);
  }

  /** The failing case is reached from any start whose raw table has a row to copy in the last uint32 block. */
  lemma WrappedCutoffCopiesNothing(t: Table, chunkSize: uint32, s: State, r: RawRow)
    requires IsInitial(s) && r in s.db.raw && r.block == 0xFFFF_FFFF
    requires t.Traces? ==> r.value > 0 || r.callType in ["CREATE", "CREATE2"]
    ensures var s1 := Next(t, chunkSize, s, Load);
            IsCaptured(s1.db.lookup, None) && Enabled(t, chunkSize, s1, ReadCaptured(None)) &&
            var s2 := Next(t, chunkSize, s1, ReadCaptured(None));
            IsHead(s2.db.raw, 0xFFFF_FFFF) && Enabled(t, chunkSize, s2, ReadHead(0xFFFF_FFFF)) &&
            var s3 := Next(t, chunkSize, s2, ReadHead(0xFFFF_FFFF));
            Enabled(t, chunkSize, s3, SaveInitial) &&
            var s4 := Next(t, chunkSize, s3, SaveInitial);
            s4.process == Done && !Covered(s4.db, t, r)
  {
    CopiesAre(t, r, LookupRow(r, r.from));
    hide Copies;
    assert IsHead(s.db.raw, 0xFFFF_FFFF);
  }

  // ---- Chunks ----

  lemma ChunkWithin(next: uint32, cutoff: uint32, chunkSize: uint32)
    requires next < cutoff
    ensures next <= ChunkEnd(next, cutoff, chunkSize) <= cutoff
  {
  }

  /** The wrap guard makes every chunk move on and stay below the cutoff, if and only if the chunk size is at
      least 1. */
  lemma ChunkAdvances(next: uint32, cutoff: uint32, chunkSize: uint32)
    requires next < cutoff
    ensures next < ChunkEnd(next, cutoff, chunkSize) <= cutoff <==> chunkSize >= 1
    ensures ChunkEnd(next, cutoff, chunkSize) == if next + chunkSize > cutoff then cutoff else next + chunkSize
  {
  }

  /** The chunks of the loop from next on. */
  function Chunks(next: uint32, cutoff: uint32, chunkSize: uint32): seq<(uint32, uint32)>
    requires chunkSize >= 1
    decreases cutoff - next
  {
    if next >= cutoff then []
    else
      ChunkAdvances(next, cutoff, chunkSize);
      var to := ChunkEnd(next, cutoff, chunkSize);
      [(next, to)] + Chunks(to, cutoff, chunkSize)
  }

  /** The chunks tile [next, cutoff): they start at next, end at the cutoff, follow one another without gap or
      overlap, and none is longer than the chunk size. */
  lemma {:induction false} ChunksTile(next: uint32, cutoff: uint32, chunkSize: uint32)
    requires chunkSize >= 1 && next < cutoff
    ensures var c := Chunks(next, cutoff, chunkSize);
            && |c| >= 1 && c[0].0 == next && c[|c| - 1].1 == cutoff
            && (forall i :: 0 <= i < |c| ==> c[i].0 < c[i].1 <= c[i].0 + chunkSize)
            && (forall i :: 0 < i < |c| ==> c[i].0 == c[i - 1].1)
    decreases cutoff - next
  {
    hide ChunkEnd;
    ChunkAdvances(next, cutoff, chunkSize);
    var to := ChunkEnd(next, cutoff, chunkSize);
    if to < cutoff { ChunksTile(to, cutoff, chunkSize); }
  }

  // ---- The loop ----

  /** What happens around one database call of the program: the writer first inserts a batch of blocks, the
      context may have been cancelled by then, and then the call is answered. */
  datatype Interlude = Interlude(rows: set<RawRow>, writer: nat, cancelled: bool, failure: Option<Failure>)

  /** A call that fails may have inserted some of its rows, or have been applied. */
  datatype Failure = Failure(inserted: LookupRow -> bool, applied: bool)

  /** The writer's position before the n-th call. */
  ghost function WriterAt(world: nat -> Interlude, start: nat, n: nat): nat {
    if n == 0 then start else world(n - 1).writer
  }

  predicate Smooth(world: nat -> Interlude, n: nat) {
    world(n).failure.None? && !world(n).cancelled
  }

  /** The writer adds blocks in order. */
  ghost predicate InOrder(world: nat -> Interlude, start: nat) {
    forall n: nat ::
      world(n).writer >= WriterAt(world, start, n) &&
      forall r :: r in world(n).rows ==> WriterAt(world, start, n) <= r.block < world(n).writer
  }

  /** Where the steps lead, None when one of them is not enabled. */
  ghost function After(t: Table, chunkSize: uint32, s: State, steps: seq<Step>): Option<State> {
    if steps == [] then Some(s)
    else match After(t, chunkSize, s, steps[..|steps| - 1])
         case None => None
         case Some(m) =>
           if Enabled(t, chunkSize, m, steps[|steps| - 1]) then Some(Next(t, chunkSize, m, steps[|steps| - 1])) else None
  }

  lemma OneMore(t: Table, chunkSize: uint32, s: State, steps: seq<Step>, m: State, a: Step)
    requires After(t, chunkSize, s, steps) == Some(m) && Enabled(t, chunkSize, m, a)
    ensures After(t, chunkSize, s, steps + [a]) == Some(Next(t, chunkSize, m, a))
  {
    hide Enabled, Next;
    assert (steps + [a])[..|steps|] == steps;
  }

  /** Every head that the steps read is usable. */
  ghost predicate StepsUsable(t: Table, chunkSize: uint32, s: State, steps: seq<Step>) {
    steps == [] ||
    var before := steps[..|steps| - 1];
    && StepsUsable(t, chunkSize, s, before)
    && (After(t, chunkSize, s, before).Some? ==> HeadOk(t, After(t, chunkSize, s, before).value, steps[|steps| - 1]))
  }

  lemma OneMoreUsable(t: Table, chunkSize: uint32, s: State, steps: seq<Step>, m: State, a: Step)
    requires After(t, chunkSize, s, steps) == Some(m)
    ensures StepsUsable(t, chunkSize, s, steps + [a]) <==> StepsUsable(t, chunkSize, s, steps) && HeadOk(t, m, a)
  {
    hide HeadOk;
    assert (steps + [a])[..|steps|] == steps;
  }

  lemma {:induction false} AfterInv(t: Table, chunkSize: uint32, s: State, steps: seq<Step>)
    requires Inv(t, s) && After(t, chunkSize, s, steps).Some? && StepsUsable(t, chunkSize, s, steps)
    ensures Inv(t, After(t, chunkSize, s, steps).value)
  {
    hide Inv, Next, Enabled, HeadOk;
    if steps != [] {
      AfterInv(t, chunkSize, s, steps[..|steps| - 1]);
      NextInv(t, chunkSize, After(t, chunkSize, s, steps[..|steps| - 1]).value, steps[|steps| - 1]);
    }
  }

  ghost predicate BelowLastBlock(db: Db) {
    forall r :: r in db.raw ==> r.block < 0xFFFF_FFFF
  }

  lemma RawGrows(a: Db, b: Db)
    requires a.raw <= b.raw
    ensures BelowLastBlock(b) ==> BelowLastBlock(a)
  {
  }

  /** A head is usable when the view had captured something, or while no row is in the last uint32 block. */
  lemma UsableHead(t: Table, was: Db, db: Db, captured: Option<uint32>, head: uint32)
    requires IsHead(db.raw, head)
    requires was.lookup != {} ==> captured.Some?
    ensures was.lookup != {} || BelowLastBlock(db) ==> HeadOk(t, State(db, HaveCaptured(captured)), ReadHead(head))
  {
  }

  class Database {
    const table: Table
    const chunkSize: uint32
    var db: Db
    ghost const start: State                    // where the run began
    ghost var steps: seq<Step>                  // the steps of the protocol taken since

    constructor (table: Table, chunkSize: uint32, db: Db)
      ensures this.table == table && this.chunkSize == chunkSize && this.db == db
      ensures At(Idle) && start == State(db, Idle) && steps == []
    {
      this.table, this.chunkSize, this.db := table, chunkSize, db;
      start, steps := State(db, Idle), [];
    }

    /** The steps taken lead to the database of now, with the program at p. */
    ghost predicate At(p: Process)
      reads this
    {
      After(table, chunkSize, start, steps) == Some(State(db, p))
    }

    /** Every head read so far is usable. */
    ghost predicate Usable()
      reads this
    {
      StepsUsable(table, chunkSize, start, steps)
    }

    /** A step of the protocol, of which the database has taken its part. */
    ghost method Takes(was: Db, p: Process, a: Step)
      requires After(table, chunkSize, start, steps) == Some(State(was, p)) && Enabled(table, chunkSize, State(was, p), a)
      requires Next(table, chunkSize, State(was, p), a).db == db
      modifies this`steps
      ensures At(Next(table, chunkSize, State(was, p), a).process)
      ensures Usable() <==> old(Usable()) && HeadOk(table, State(was, p), a)
    {
      OneMore(table, chunkSize, start, steps, State(was, p), a);
      OneMoreUsable(table, chunkSize, start, steps, State(was, p), a);
      hide After, StepsUsable, Enabled, Next, HeadOk;
      steps := steps + [a];
    }

    /** The live writer's insert, which the view captures. */
    method WriterInserts(world: nat -> Interlude, n: nat, ghost began: nat, ghost p: Process)
      requires At(p) && InOrder(world, began) && db.writer == WriterAt(world, began, n)
      modifies this
      ensures At(p) && (Usable() <==> old(Usable()))
      ensures db.writer == WriterAt(world, began, n + 1) && db.saved == old(db.saved)
      ensures old(db.raw) <= db.raw && old(db.lookup) <= db.lookup
    {
      hide After, StepsUsable, Copies;
      var i := world(n);
      ghost var was := db;
      db := db.(raw := db.raw + i.rows,
        lookup := db.lookup + (set r, l | r in i.rows && l in Copies(table, r) :: l),
        writer := i.writer);
      Takes(was, p, Insert(i.rows, i.writer));
    }

    /** min(block_number) and whether there is one. */
    method ReadViewStart() returns (captured: Option<uint32>)
      ensures IsCaptured(db.lookup, captured) && (db.lookup != {} ==> captured.Some?)
    {
      var rest := db.lookup;
      captured := None;
      while rest != {}
        invariant rest <= db.lookup && IsCaptured(db.lookup - rest, captured)
        decreases |rest|
      {
        var l :| l in rest;
        rest := rest - {l};
        if captured.None? || l.row.block < captured.value { captured := Some(l.row.block); }
      }
      assert db.lookup - {} == db.lookup;
    }

    /** max(block_number), 0 for an empty table. */
    method ReadHead() returns (head: uint32)
      ensures IsHead(db.raw, head)
    {
      var rest := db.raw;
      head := 0;
      while rest != {}
        invariant rest <= db.raw && IsHead(db.raw - rest, head)
        decreases |rest|
      {
        var r :| r in rest;
        rest := rest - {r};
        if db.raw - rest == {r} || r.block > head { head := r.block; }
      }
      assert db.raw - {} == db.raw;
    }

    /** The INSERT ... SELECT of one chunk. */
    method Copy(cutoff: uint32, next: uint32, to: uint32, failure: Option<Failure>) returns (ok: bool)
      requires At(Copying(cutoff, next)) && to == ChunkEnd(next, cutoff, chunkSize)
      modifies this
      ensures ok == failure.None? && db == old(db).(lookup := db.lookup)
      ensures At(if ok then Copied(cutoff, next, to) else Idle)
      ensures Usable() <==> old(Usable())
    {
      hide After, Copies, StepsUsable;
      ghost var was := db;
      var rows := Selected(table, db.raw, next, to);
      if failure.Some? { rows := set l | l in rows && failure.value.inserted(l); }
      ghost var a := if failure.None? then Step.Copy else CopyFails(rows);
      db := db.(lookup := db.lookup + rows);
      Takes(was, Copying(cutoff, next), a);
      ok := failure.None?;
    }

    method SaveBackfillState(cutoff: uint32, next: uint32, failure: Option<Failure>, ghost p: Process) returns (ok: bool)
      requires At(p) && p == (if p.Copied? then Copied(cutoff, p.next, next) else HaveCutoff(cutoff))
      requires !p.Copied? ==> next == 0
      modifies this
      ensures ok == failure.None? && db == old(db).(saved := db.saved)
      ensures ok ==> db.saved == Some((cutoff, next))
      ensures At(if ok then Loop(cutoff, next) else Idle) && (Usable() <==> old(Usable()))
    {
      hide After, Copies, StepsUsable;
      ghost var was := db;
      ghost var a := if failure.Some? then SaveFails(failure.value.applied) else if p.Copied? then SaveChunk else SaveInitial;
      if failure.None? || failure.value.applied { db := db.(saved := Some((cutoff, next))); }
      Takes(was, p, a);
      ok := failure.None?;
    }

    /** The program ends early. */
    ghost method Stops(p: Process)
      requires At(p)
      modifies this`steps
      ensures At(Idle) && (Usable() <==> old(Usable()))
    {
      hide After, StepsUsable;
      Takes(db, p, Stop);
    }

    ghost method Loads()
      requires At(Idle)
      modifies this`steps
      ensures At(if db.saved.None? then Starting else Loop(db.saved.value.0, db.saved.value.1)) && (Usable() <==> old(Usable()))
    {
      hide After, StepsUsable;
      Takes(db, Idle, Load);
    }

    ghost method ReadsCaptured(captured: Option<uint32>)
      requires At(Starting) && IsCaptured(db.lookup, captured)
      modifies this`steps
      ensures At(HaveCaptured(captured)) && (Usable() <==> old(Usable()))
    {
      hide After, StepsUsable, IsCaptured;
      Takes(db, Starting, ReadCaptured(captured));
    }

    ghost method ReadsHead(captured: Option<uint32>, head: uint32)
      requires At(HaveCaptured(captured)) && IsHead(db.raw, head)
      modifies this`steps
      ensures At(HaveCutoff(if captured.Some? then captured.value else WrapU32(head + 1)))
      ensures Usable() <==> old(Usable()) && HeadOk(table, State(db, HaveCaptured(captured)), Step.ReadHead(head))
    {
      hide After, StepsUsable, IsHead, HeadOk;
      Takes(db, HaveCaptured(captured), Step.ReadHead(head));
    }

    /** Calls n and n + 1 read the view's first block and the head. */
    method FixCutoff(world: nat -> Interlude, n: nat, ghost began: nat) returns (ok: bool, cutoff: uint32)
      requires At(Starting) && InOrder(world, began) && db.writer == WriterAt(world, began, n)
      modifies this
      ensures At(if ok then HaveCutoff(cutoff) else Idle)
      ensures old(Usable()) && (old(db.lookup) != {} || BelowLastBlock(db)) ==> Usable()
      ensures old(db.raw) <= db.raw
      ensures ok ==> db.writer == WriterAt(world, began, n + 2)
      ensures ok <==> world(n).failure.None? && world(n + 1).failure.None?
    {
      hide After, Copies, IsHead, IsCaptured, InOrder, StepsUsable, BelowLastBlock, HeadOk;
      ok, cutoff := false, 0;
      WriterInserts(world, n, began, Starting);
      if world(n).failure.Some? { Stops(Starting); return; }
      var captured := ReadViewStart();
      ReadsCaptured(captured);
      WriterInserts(world, n + 1, began, HaveCaptured(captured));
      if world(n + 1).failure.Some? { Stops(HaveCaptured(captured)); return; }
      var head := ReadHead();
      UsableHead(table, old(db), db, captured, head);
      ReadsHead(captured, head);
      var top: int := head;
      cutoff := WrapU32(top + 1);
      if captured.Some? { cutoff := captured.value; }
      ok := true;
    }

    /** The first run: calls n to n + 2 fix the cutoff and save it. */
    method FirstRun(world: nat -> Interlude, n: nat, ghost began: nat) returns (ok: bool, cutoff: uint32)
      requires At(Starting) && InOrder(world, began) && db.writer == WriterAt(world, began, n)
      modifies this
      ensures At(if ok then Loop(cutoff, 0) else Idle)
      ensures old(Usable()) && (old(db.lookup) != {} || BelowLastBlock(db)) ==> Usable()
      ensures old(db.raw) <= db.raw
      ensures ok ==> db.writer == WriterAt(world, began, n + 3) && db.saved == Some((cutoff, 0))
      ensures ok <==> forall k :: n <= k < n + 3 ==> world(k).failure.None?
    {
      hide After, InOrder, StepsUsable, BelowLastBlock;
      ok, cutoff := FixCutoff(world, n, began);
      if !ok { return; }
      ghost var seen := db;
      WriterInserts(world, n + 2, began, HaveCutoff(cutoff));
      ok := SaveBackfillState(cutoff, 0, world(n + 2).failure, HaveCutoff(cutoff));
      RawGrows(seen, db);
    }

    /** The loop, from call n on: it ends, and unless a call fails or the context is cancelled it ends with
        everything copied. */
    method CopyChunks(world: nat -> Interlude, n: nat, cutoff: uint32, next: uint32, ghost began: nat) returns (ok: bool)
      requires chunkSize >= 1
      requires At(Loop(cutoff, next)) && InOrder(world, began) && db.writer == WriterAt(world, began, n)
      modifies this
      ensures At(if ok then Done else Idle) && (Usable() <==> old(Usable())) && old(db.raw) <= db.raw
      ensures (forall k: nat :: Smooth(world, k)) ==> ok
      ensures ok && next < cutoff ==> db.saved == Some((cutoff, cutoff))
    {
      hide After, Copies, ChunkEnd, InOrder, StepsUsable;
      var at: uint32, call: nat := next, n;
      while at < cutoff
        invariant At(Loop(cutoff, at)) && db.writer == WriterAt(world, began, call)
        invariant (Usable() <==> old(Usable())) && old(db.raw) <= db.raw
        invariant at == next || (next < at <= cutoff && db.saved == Some((cutoff, at)))
        decreases cutoff - at
      {
        ChunkAdvances(at, cutoff, chunkSize);
        ghost var smooth := Smooth(world, call) && Smooth(world, call + 1);
        if world(call).cancelled { Stops(Copying(cutoff, at)); return false; }
        var to := WrapU32(at + chunkSize);
        if to > cutoff || to < at { to := cutoff; }
        WriterInserts(world, call, began, Copying(cutoff, at));
        assert to == ChunkEnd(at, cutoff, chunkSize) by { ChunkEndIs(at, cutoff, chunkSize); }
        ok := Copy(cutoff, at, to, world(call).failure);
        if !ok { return false; }
        WriterInserts(world, call + 1, began, Copied(cutoff, at, to));
        ok := SaveBackfillState(cutoff, to, world(call + 1).failure, Copied(cutoff, at, to));
        if !ok { return false; }
        at, call := to, call + 2;
      }
      ok := true;
    }

    /** backfillAddressTable, with a writer at work and calls that may fail. It takes the protocol's steps, so
        what it leaves behind keeps the promises of a run; it always ends, and with success when nothing fails. */
    method BackfillAddressTable(world: nat -> Interlude) returns (ok: bool)
      requires chunkSize >= 1
      requires At(Idle) && InOrder(world, db.writer)
      modifies this
      ensures At(if ok then Done else Idle)
      ensures (forall k: nat :: Smooth(world, k)) ==> ok
      ensures old(Usable()) && (old(db).saved.Some? || old(db).lookup != {} || BelowLastBlock(db)) ==> Usable()
      ensures start.process.Idle? && DbOk(start.db, table) && Usable() ==>
                && DbOk(db, table)
                && (ok ==> forall l: LookupRow :: l in db.lookup <==>
                             && l.row in db.raw && (l.address == l.row.from || l.row.to == Some(l.address))
                             && (table.Traces? ==> l.row.value > 0 || l.row.callType in ["CREATE", "CREATE2"]))
    {
      hide After, InOrder, StepsUsable, DbOk, BelowLastBlock;
      ghost var began := db.writer;
      assert forall k :: 0 <= k < 4 ==> (Smooth(world, k) ==> world(k).failure.None?);
      WriterInserts(world, 0, began, Idle);
      ok := false;
      if world(0).failure.Some? {
        Stops(Idle);
      } else {
        var found, n: nat := db.saved, 1;
        var cutoff: uint32, next: uint32 := 0, 0;
        Loads();
        if found.Some? {
          cutoff, next, ok := found.value.0, found.value.1, true;
        } else {
          ok, cutoff := FirstRun(world, 1, began);
          n := 4;
        }
        ghost var seen := db;
        if ok { ok := CopyChunks(world, n, cutoff, next, began); }
        RawGrows(seen, db);
      }
      if start.process.Idle? && DbOk(start.db, table) && Usable() { Promised(ok); }
    }

    lemma Promised(ok: bool)
      requires At(if ok then Done else Idle) && start.process.Idle? && DbOk(start.db, table) && Usable()
      ensures DbOk(db, table)
      ensures ok ==> forall l: LookupRow :: l in db.lookup <==>
                       && l.row in db.raw && (l.address == l.row.from || l.row.to == Some(l.address))
                       && (table.Traces? ==> l.row.value > 0 || l.row.callType in ["CREATE", "CREATE2"])
    {
      AfterInv(table, chunkSize, start, steps);
      if ok {
        forall l: LookupRow
          ensures l in db.lookup <==>
                  && l.row in db.raw && (l.address == l.row.from || l.row.to == Some(l.address))
                  && (table.Traces? ==> l.row.value > 0 || l.row.callType in ["CREATE", "CREATE2"])
        {
          DoneIsComplete(db, table, l);
        }
      }
    }
  }

  lemma ChunkEndIs(next: uint32, cutoff: uint32, chunkSize: uint32)
    ensures var to := WrapU32(next + chunkSize);
            ChunkEnd(next, cutoff, chunkSize) == if to > cutoff || to < next then cutoff else to
  {
  }
}
