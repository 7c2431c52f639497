/**
 Crash-safe backfill without fork cursors (internal/ingestion/ingestion.go, with the
 truncation of internal/database/clickhouse.go and the commits of a generated processor's
 state): batches, commits, checkpoints, crashes, resumes.

 The rows of a block are one token here, and what the processor derives from it is another.
 Inserts of rows go to the server's asynchronous queue first; a flush, or the server by itself,
 moves them to storage.  Derived state is dirty in memory until a commit, which runs in the
 background, has stored it.
 */
module CrashSafety {
  import opened Options
  import opened Transitions

  /**
   start: the configured start block.  matches: the blocks that carry rows.
   ledger: the optional table of block rows is kept, and serves as a fallback checkpoint.
   settles: whatever a crashed process left in the server's queue lands or is lost before the
   next resume truncates.
   derives: the processor derives state from the blocks.  reports: it tells how far that state
   is committed.
   */
  datatype Config = Config(
    start: nat, matches: nat -> bool, ledger: bool, settles: bool, derives: bool, reports: bool)

  datatype State = State(
    stored: multiset<nat>, queued: multiset<nat>,  // rows in storage, rows in the server's queue
    sync: set<nat>, blocks: set<nat>,              // saved checkpoints, rows of the block ledger
    up: bool, next: nat, pending: set<nat>, durable: nat,
    kept: multiset<nat>,                           // derived state in storage
    dirty: set<nat>, flying: set<nat>,             // in memory only, and in the commit under way
    flight: Option<nat>, horizon: nat)             // up to where that commit, and the last acknowledged one, go

  datatype Action =
    | Process(block: nat)             // the consumer takes a block, with or without rows
    | Insert(block: nat)              // one of the batch's inserts
    | LedgerLands(block: nat)
    | Drain(rows: multiset<nat>)      // the server flushes some of its queue
    | StartCommit                     // the dirty state is taken over by a background insert
    | Land(part: set<nat>)            // some of it is stored
    | Acknowledge                     // the insert is done, and the horizon moves
    | Flush                           // a final commit, waited for
    | Checkpoint(finalized: Option<nat>)  // after the batch's inserts
    | TruncateSync
    | Crash(landed: multiset<nat>, saved: set<nat>)
    | Resume(last: Option<nat>)

  ghost predicate Greatest(s: set<nat>, m: nat) {
    m in s && forall n :: n in s ==> n <= m
  }

  function Lower(a: nat, b: Option<nat>): nat {
    if b.Some? && b.value < a then b.value else a
  }

  /** The checkpoint of a batch, gated by the committed horizon and the finalized head. */
  function Gate(c: Config, s: State, finalized: Option<nat>): nat
    requires s.next > 0
  {
    Lower(Lower(s.next - 1, if c.reports then Some(s.horizon) else None), finalized)
  }

  /** What LastBlock reports: the greatest saved checkpoint, or else the ledger's greatest block. */
  ghost predicate LastBlock(c: Config, s: State, last: Option<nat>) {
    match last
    case Some(m) => Greatest(s.sync, m) || (s.sync == {} && c.ledger && Greatest(s.blocks, m))
    case None => s.sync == {} && (!c.ledger || s.blocks == {})
  }

  /** Rows above `last` are deleted. */
  ghost predicate Truncated(rows: multiset<nat>, last: nat, rows': multiset<nat>) {
    forall n: nat :: rows'[n] == if n <= last then rows[n] else 0
  }

  /** From where the rows are deleted on resume: above the checkpoint, or from the start block on. */
  function Floor(c: Config, last: Option<nat>): Option<nat> {
    if last.Some? then last else if c.start > 0 then Some(c.start - 1) else None
  }

  ghost predicate Step(c: Config, s: State, a: Action, s': State) {
    match a
    case Process(b) =>
      && s.up && s.next <= b && (forall n :: s.next <= n < b ==> !c.matches(n))
      && s' == s.(pending := if c.matches(b) then s.pending + {b} else s.pending,
                  dirty := if c.derives && c.matches(b) then s.dirty + {b} else s.dirty, next := b + 1)
    case Insert(b) =>
      && s.up && b in s.pending
      && s' == s.(pending := s.pending - {b}, queued := s.queued + multiset{b})
    case LedgerLands(b) =>
      && s.up && c.ledger && b in s.queued && s' == s.(blocks := s.blocks + {b})
    case Drain(rows) =>
      && rows <= s.queued && s' == s.(stored := s.stored + rows, queued := s.queued - rows)
    case StartCommit =>
      && s.up && s.next > 0 && s.flight == None
      && s' == s.(dirty := {}, flying := s.dirty, flight := Some(s.next - 1))
    case Land(rows) =>
      && s.up && rows <= s.flying && s' == s.(kept := s.kept + multiset(rows), flying := s.flying - rows)
    case Acknowledge =>
      && s.up && s.flight.Some? && s.flying == {}
      && s' == s.(flight := None, horizon := if s.flight.value > s.horizon then s.flight.value else s.horizon)
    case Flush =>
      && s.up && s.next > 0 && s.pending == {}
      && s' == s.(kept := s.kept + multiset(s.flying) + multiset(s.dirty), flying := {}, dirty := {}, flight := None,
                  horizon := s.next - 1)
    case Checkpoint(finalized) =>
      && s.up && s.pending == {} && s.next > 0
      && var cp := Gate(c, s, finalized);
      if cp > s.durable then
        s' == s.(stored := s.stored + s.queued, queued := multiset{}, sync := s.sync + {cp}, durable := cp)
      else
        s' == s
    case TruncateSync =>
      && s.up && s.durable > 0 && s' == s.(sync := set n | n in s.sync && n >= s.durable)
    case Crash(landed, saved) =>
      && s.up && landed <= s.queued && saved <= s.flying
      && s' == (if c.settles then Died(s, saved).(stored := s.stored + landed, queued := multiset{})
          else Died(s, saved))
    case Resume(last) =>
      && !s.up && LastBlock(c, s, last)
      && s'.up && s'.pending == {} && s'.durable == 0 && s'.queued == s.queued
      && s'.dirty == {} && s'.flying == {} && s'.flight == None && s'.horizon == 0
      && s'.next == (if last.Some? && last.value >= c.start then last.value + 1 else c.start)
      && match Floor(c, last)
         case Some(f) =>
           && Truncated(s.stored, f, s'.stored) && Truncated(s.kept, f, s'.kept)
           && s'.sync == (set n | n in s.sync && n <= f) && s'.blocks == (set n | n in s.blocks && n <= f)
         case None => s'.stored == s.stored && s'.kept == s.kept && s'.sync == s.sync && s'.blocks == s.blocks
  }

  /** What was in memory is gone; of the commit under way some may have been stored. */
  function Died(s: State, saved: set<nat>): State {
    s.(up := false, pending := {}, kept := s.kept + multiset(saved), dirty := {}, flying := {}, flight := None)
  }

  /** Nothing is stored twice, and everything up to the greatest saved checkpoint is stored, be it
      rows or derived state. */
  ghost predicate Safe(c: Config, s: State) {
    && (forall n: nat :: s.stored[n] <= 1 && s.kept[n] <= 1)
    && (forall m, n :: m in s.sync && c.start <= n <= m && c.matches(n) ==>
         s.stored[n] == 1 && (c.derives ==> s.kept[n] == 1))
  }

  // ----- the invariant -----

  /** Every matching block behind the cursor is in exactly one place; nothing else is anywhere. */
  ghost predicate Placed(c: Config, s: State) {
    forall n: nat ::
      s.stored[n] + s.queued[n] + (if n in s.pending then 1 else 0)
      == if c.start <= n < s.next && c.matches(n) then 1 else 0
  }

  /** So is what was derived from it. */
  ghost predicate Derived(c: Config, s: State) {
    forall n: nat ::
      s.kept[n] + (if n in s.dirty then 1 else 0) + (if n in s.flying then 1 else 0)
      == if c.derives && c.start <= n < s.next && c.matches(n) then 1 else 0
  }

  /** What the horizon covers is stored, and what the commit under way covers is not dirty. */
  ghost predicate Committed(c: Config, s: State) {
    && (forall n: nat :: c.derives && c.start <= n <= s.horizon && c.matches(n) ==> s.kept[n] == 1)
    && (s.horizon > 0 ==> s.horizon < s.next)
    && (s.flight.None? ==> s.flying == {})
    && (s.flight.Some? ==> s.flight.value < s.next && forall n :: n in s.dirty ==> n > s.flight.value)
  }

  /** Storage holds each matching block at most once, and nothing if it is not in use. */
  ghost predicate AtMostOnce(c: Config, rows: multiset<nat>, used: bool) {
    forall n: nat :: rows[n] <= if used && c.start <= n && c.matches(n) then 1 else 0
  }

  /** Saved checkpoints are behind the cursor, and what is below them is stored. */
  ghost predicate Covered(c: Config, s: State) {
    forall m, n :: m in s.sync && c.start <= n <= m && c.matches(n) ==>
        s.stored[n] == 1 && (c.derives ==> s.kept[n] == 1)
  }

  ghost predicate Running(c: Config, s: State) {
    && Placed(c, s) && Derived(c, s) && Committed(c, s)
    && (forall m :: m in s.sync ==> m < s.next)
    && c.start <= s.next && (s.durable > 0 ==> s.durable in s.sync)
  }

  ghost predicate Stopped(c: Config, s: State) {
    s.queued == multiset{} && AtMostOnce(c, s.stored, true) && AtMostOnce(c, s.kept, c.derives)
  }

  ghost predicate Inv(c: Config, s: State) {
    && Covered(c, s)
    && (if s.up then Running(c, s) else Stopped(c, s))
  }

  ghost predicate Sheltered(c: Config) {
    c.start > 0 && c.settles && !c.ledger && (c.derives ==> c.reports)
  }

  lemma InvIsSafe(c: Config, s: State)
    requires Inv(c, s)
    ensures Safe(c, s)
  {
    if s.up {
      forall n: nat ensures s.stored[n] <= 1 && s.kept[n] <= 1 {
        assert s.stored[n] + s.queued[n] <= 1;
      }
    }
  }

  lemma ProcessPlaces(c: Config, s: State, b: nat, s': State)
    requires Running(c, s) && Step(c, s, Process(b), s')
    ensures Placed(c, s')
  {
    hide Derived, Committed;
    forall n: nat
      ensures s'.stored[n] + s'.queued[n] + (if n in s'.pending then 1 else 0)
              == if c.start <= n < s'.next && c.matches(n) then 1 else 0
    {
      assert s.stored[n] + s.queued[n] + (if n in s.pending then 1 else 0)
             == if c.start <= n < s.next && c.matches(n) then 1 else 0;
    }
  }

  lemma ProcessDerives(c: Config, s: State, b: nat, s': State)
    requires Running(c, s) && Step(c, s, Process(b), s')
    ensures Derived(c, s') && Committed(c, s')
  {
    hide Placed;
    forall n: nat
      ensures s'.kept[n] + (if n in s'.dirty then 1 else 0) + (if n in s'.flying then 1 else 0)
              == if c.derives && c.start <= n < s'.next && c.matches(n) then 1 else 0
    {
      assert s.kept[n] + (if n in s.dirty then 1 else 0) + (if n in s.flying then 1 else 0)
             == if c.derives && c.start <= n < s.next && c.matches(n) then 1 else 0;
    }
  }

  lemma ProcessKeeps(c: Config, s: State, b: nat, s': State)
    requires Inv(c, s) && Step(c, s, Process(b), s')
    ensures Inv(c, s')
  {
    ProcessPlaces(c, s, b, s');
    ProcessDerives(c, s, b, s');
    hide Placed, Derived, Committed;
  }

  lemma InsertKeeps(c: Config, s: State, b: nat, s': State)
    requires Inv(c, s) && Step(c, s, Insert(b), s')
    ensures Inv(c, s')
  {
    hide Derived, Committed;
    DerivedOnly(c, s, s');
  }

  /** Derived state is untouched when its own fields and the cursor are. */
  lemma DerivedOnly(c: Config, s: State, s': State)
    requires s'.kept == s.kept && s'.dirty == s.dirty && s'.flying == s.flying && s'.next == s.next
    requires s'.flight == s.flight && s'.horizon == s.horizon
    ensures Derived(c, s) ==> Derived(c, s')
    ensures Committed(c, s) ==> Committed(c, s')
  {
  }

  lemma PlacedOnly(c: Config, s: State, s': State)
    requires s'.stored == s.stored && s'.queued == s.queued && s'.pending == s.pending && s'.next == s.next
    ensures Placed(c, s) ==> Placed(c, s')
  {
  }

  lemma DrainMoves(s: State, rows: multiset<nat>, s': State)
    requires rows <= s.queued && s'.stored == s.stored + rows && s'.queued == s.queued - rows
    ensures forall n: nat :: s'.stored[n] + s'.queued[n] == s.stored[n] + s.queued[n] && s'.stored[n] >= s.stored[n]
  {
    forall n: nat ensures s'.stored[n] + s'.queued[n] == s.stored[n] + s.queued[n] && s'.stored[n] >= s.stored[n] {
      assert rows[n] <= s.queued[n];
    }
  }

  lemma DrainPlaces(c: Config, s: State, s': State)
    requires Placed(c, s) && s'.pending == s.pending && s'.next == s.next
    requires forall n: nat :: s'.stored[n] + s'.queued[n] == s.stored[n] + s.queued[n]
    ensures Placed(c, s')
  {
  }

  lemma DrainKeeps(c: Config, s: State, rows: multiset<nat>, s': State)
    requires Inv(c, s) && Step(c, s, Drain(rows), s')
    ensures Inv(c, s')
  {
    if s.up {
      DerivedOnly(c, s, s');
      DrainMoves(s, rows, s');
      DrainPlaces(c, s, s');
      DrainCovers(c, s, s');
      hide Placed, Derived, Committed, Covered;
    } else {
      assert rows == multiset{} && s' == s;
    }
  }

  /** A covered block was stored already, and is in one place only. */
  lemma DrainCovers(c: Config, s: State, s': State)
    requires Covered(c, s) && Placed(c, s) && (forall m :: m in s.sync ==> m < s.next) && s'.sync == s.sync
    requires forall n: nat :: s'.stored[n] + s'.queued[n] == s.stored[n] + s.queued[n] && s'.stored[n] >= s.stored[n]
    requires s'.kept == s.kept
    ensures Covered(c, s')
  {
    forall m, n | m in s'.sync && c.start <= n <= m && c.matches(n) ensures s'.stored[n] == 1 {
      assert s.stored[n] == 1 && s.stored[n] + s.queued[n] <= 1;
    }
  }

  lemma StartCommitKeeps(c: Config, s: State, s': State)
    requires Inv(c, s) && Step(c, s, StartCommit, s')
    ensures Inv(c, s')
  {
    PlacedOnly(c, s, s');
    hide Placed;
    forall n: nat
      ensures s'.kept[n] + (if n in s'.dirty then 1 else 0) + (if n in s'.flying then 1 else 0)
              == if c.derives && c.start <= n < s'.next && c.matches(n) then 1 else 0
    {
      assert s.kept[n] + (if n in s.dirty then 1 else 0) + (if n in s.flying then 1 else 0)
             == if c.derives && c.start <= n < s.next && c.matches(n) then 1 else 0;
    }
  }

  /** What lands leaves the commit under way and is stored, once. */
  lemma LandDerives(c: Config, s: State, rows: set<nat>, s': State)
    requires Running(c, s) && Covered(c, s) && Step(c, s, Land(rows), s')
    ensures Derived(c, s') && Committed(c, s') && Covered(c, s')
  {
    hide Placed;
    forall n: nat
      ensures s'.kept[n] + (if n in s'.dirty then 1 else 0) + (if n in s'.flying then 1 else 0)
              == if c.derives && c.start <= n < s'.next && c.matches(n) then 1 else 0
      ensures s.kept[n] == 1 ==> s'.kept[n] == 1
    {
      assert s.kept[n] + (if n in s.dirty then 1 else 0) + (if n in s.flying then 1 else 0)
             == if c.derives && c.start <= n < s.next && c.matches(n) then 1 else 0;
      assert multiset(rows)[n] == if n in rows then 1 else 0;
    }
  }

  lemma LandKeeps(c: Config, s: State, rows: set<nat>, s': State)
    requires Inv(c, s) && Step(c, s, Land(rows), s')
    ensures Inv(c, s')
  {
    LandDerives(c, s, rows, s');
    PlacedOnly(c, s, s');
    hide Placed, Derived, Committed, Covered;
  }

  lemma AcknowledgeKeeps(c: Config, s: State, s': State)
    requires Inv(c, s) && Step(c, s, Acknowledge, s')
    ensures Inv(c, s')
  {
    PlacedOnly(c, s, s');
    hide Placed;
    forall n: nat | c.derives && c.start <= n <= s'.horizon && c.matches(n) ensures s'.kept[n] == 1 {
      assert s.kept[n] + (if n in s.dirty then 1 else 0) + (if n in s.flying then 1 else 0)
             == if c.derives && c.start <= n < s.next && c.matches(n) then 1 else 0;
    }
  }

  lemma FlushDerives(c: Config, s: State, s': State)
    requires Running(c, s) && Covered(c, s) && Step(c, s, Flush, s')
    ensures Derived(c, s') && Committed(c, s') && Covered(c, s')
  {
    hide Placed;
    forall n: nat
      ensures s'.kept[n] == if c.derives && c.start <= n < s.next && c.matches(n) then 1 else 0
      ensures s.kept[n] == 1 ==> s'.kept[n] == 1
    {
      assert s.kept[n] + (if n in s.dirty then 1 else 0) + (if n in s.flying then 1 else 0)
             == if c.derives && c.start <= n < s.next && c.matches(n) then 1 else 0;
      assert multiset(s.flying)[n] == if n in s.flying then 1 else 0;
      assert multiset(s.dirty)[n] == if n in s.dirty then 1 else 0;
    }
  }

  lemma FlushKeeps(c: Config, s: State, s': State)
    requires Inv(c, s) && Step(c, s, Flush, s')
    ensures Inv(c, s')
  {
    FlushDerives(c, s, s');
    PlacedOnly(c, s, s');
    hide Placed, Derived, Committed, Covered;
  }

  /** The flushed queue leaves every row behind the cursor stored, and the gate leaves no derived
      state behind the checkpoint uncommitted. */
  lemma CheckpointCovers(c: Config, s: State, finalized: Option<nat>, s': State)
    requires (c.derives ==> c.reports) && Running(c, s) && Covered(c, s) && Step(c, s, Checkpoint(finalized), s')
            && s' != s
    ensures Covered(c, s') && Placed(c, s')
    ensures forall n: nat :: c.start <= n <= s'.durable && c.matches(n) ==>
            s'.stored[n] == 1 && (c.derives ==> s'.kept[n] == 1)
  {
    hide Derived;
    forall n: nat ensures s'.stored[n] == if c.start <= n < s.next && c.matches(n) then 1 else 0 {
      assert s.stored[n] + s.queued[n] + (if n in s.pending then 1 else 0)
             == if c.start <= n < s.next && c.matches(n) then 1 else 0;
    }
  }

  lemma CheckpointKeeps(c: Config, s: State, finalized: Option<nat>, s': State)
    requires (c.derives ==> c.reports) && Inv(c, s) && Step(c, s, Checkpoint(finalized), s')
    ensures Inv(c, s')
  {
    if s' != s {
      CheckpointCovers(c, s, finalized, s');
      DerivedOnly(c, s, s');
      hide Placed, Derived, Committed, Covered;
    }
  }

  lemma TruncateSyncKeeps(c: Config, s: State, s': State)
    requires Inv(c, s) && Step(c, s, TruncateSync, s')
    ensures Inv(c, s')
  {
    PlacedOnly(c, s, s');
    DerivedOnly(c, s, s');
    hide Placed, Derived, Committed;
  }

  lemma CrashKeeps(c: Config, s: State, landed: multiset<nat>, saved: set<nat>, s': State)
    requires Sheltered(c) && Inv(c, s) && Step(c, s, Crash(landed, saved), s')
    ensures Inv(c, s')
  {
    forall n: nat
      ensures s.stored[n] <= s'.stored[n] <= if c.start <= n && c.matches(n) then 1 else 0
      ensures s.kept[n] <= s'.kept[n] <= if c.derives && c.start <= n && c.matches(n) then 1 else 0
    {
      assert landed[n] <= s.queued[n] && multiset(saved)[n] == if n in saved then 1 else 0;
      assert s.stored[n] + s.queued[n] + (if n in s.pending then 1 else 0)
             == if c.start <= n < s.next && c.matches(n) then 1 else 0;
      assert s.kept[n] + (if n in s.dirty then 1 else 0) + (if n in s.flying then 1 else 0)
             == if c.derives && c.start <= n < s.next && c.matches(n) then 1 else 0;
    }
    hide Placed, Derived, Committed;
    forall m, n | m in s.sync && c.start <= n <= m && c.matches(n)
      ensures s'.stored[n] == 1 && (c.derives ==> s'.kept[n] == 1)
    {
      assert s.stored[n] == 1 && (c.derives ==> s.kept[n] == 1);
    }
  }

  /** Truncating rows that storage held at most once, with everything up to the checkpoint among
      them, leaves exactly the blocks behind the new cursor. */
  lemma TruncateRestores(c: Config, s: State, last: Option<nat>, used: bool, rows: multiset<nat>,
                         rows': multiset<nat>, next: nat)
    requires c.start > 0 && !c.ledger && LastBlock(c, s, last) && AtMostOnce(c, rows, used)
    requires forall m, n :: m in s.sync && c.start <= n <= m && c.matches(n) && used ==> rows[n] == 1
    requires Floor(c, last).Some? && Truncated(rows, Floor(c, last).value, rows')
    requires next == if last.Some? && last.value >= c.start then last.value + 1 else c.start
    ensures forall n: nat :: rows'[n] == if used && c.start <= n < next && c.matches(n) then 1 else 0
  {
    forall n: nat ensures rows'[n] == if used && c.start <= n < next && c.matches(n) then 1 else 0 {
      assert rows[n] <= if used && c.start <= n && c.matches(n) then 1 else 0;
    }
  }

  lemma ResumeKeeps(c: Config, s: State, last: Option<nat>, s': State)
    requires Sheltered(c) && Inv(c, s) && Step(c, s, Resume(last), s')
    ensures Inv(c, s')
  {
    TruncateRestores(c, s, last, true, s.stored, s'.stored, s'.next);
    TruncateRestores(c, s, last, c.derives, s.kept, s'.kept, s'.next);
    hide AtMostOnce, Truncated;
  }

  lemma StepKeeps(c: Config, s: State, a: Action, s': State)
    requires Sheltered(c) && Inv(c, s) && Step(c, s, a, s')
    ensures Inv(c, s')
  {
    hide Inv, Step;
    match a
    case Process(b) => ProcessKeeps(c, s, b, s');
    case Insert(b) => InsertKeeps(c, s, b, s');
    case LedgerLands(b) => LedgerIsOff(c, s, b, s');
    case Drain(rows) => DrainKeeps(c, s, rows, s');
    case StartCommit => StartCommitKeeps(c, s, s');
    case Land(rows) => LandKeeps(c, s, rows, s');
    case Acknowledge => AcknowledgeKeeps(c, s, s');
    case Flush => FlushKeeps(c, s, s');
    case Checkpoint(finalized) => CheckpointKeeps(c, s, finalized, s');
    case TruncateSync => TruncateSyncKeeps(c, s, s');
    case Crash(landed, saved) => CrashKeeps(c, s, landed, saved, s');
    case Resume(last) => ResumeKeeps(c, s, last, s');
  }

  lemma LedgerIsOff(c: Config, s: State, b: nat, s': State)
    requires !c.ledger
    ensures !Step(c, s, LedgerLands(b), s')
  {
  }

  // ----- whole runs -----

  function Fresh(c: Config): State {
    State(multiset{}, multiset{}, {}, {}, false, 0, {}, 0, multiset{}, {}, {}, None, 0)
  }

  ghost function Steps(c: Config): (State, Action, State) -> bool {
    (s, a, s') => Step(c, s, a, s')
  }

  ghost predicate Run(c: Config, states: seq<State>, actions: seq<Action>) {
    Traces(Steps(c), Fresh(c), states, actions)
  }

  lemma {:induction false} RunKeeps(c: Config, states: seq<State>, actions: seq<Action>, n: nat)
    requires Sheltered(c) && Run(c, states, actions) && n <= |actions|
    ensures Inv(c, states[n])
  {
    if n > 0 {
      hide Step, Inv;
      RunKeeps(c, states, actions, n - 1);
      StepKeeps(c, states[n - 1], actions[n - 1], states[n]);
    }
  }

  /** The least of what was processed, the committed horizon where one is reported, and the
      finalized head where one is known. */
  predicate Due(c: Config, s: State, finalized: Option<nat>, cp: nat) {
    && cp < s.next && (c.reports ==> cp <= s.horizon) && (finalized.Some? ==> cp <= finalized.value)
    && (cp + 1 == s.next || (c.reports && cp == s.horizon) || finalized == Some(cp))
  }

  /** A checkpoint goes exactly as far as it may: above the durable one it is saved, with every
      queued row flushed first; otherwise nothing happens. */
  lemma CheckpointsReach(c: Config, s: State, finalized: Option<nat>, s': State) returns (cp: nat)
    requires Step(c, s, Checkpoint(finalized), s')
    ensures Due(c, s, finalized, cp)
    ensures s' == if cp > s.durable
                  then s.(durable := cp, sync := s.sync + {cp}, stored := s.stored + s.queued, queued := multiset{})
                  else s
  {
    cp := Gate(c, s, finalized);
  }

  /** A checkpoint never leads the finalized head, the committed horizon of a processor that
      reports one, the stored rows, or the stored derived state. */
  lemma CheckpointsNeverLead(c: Config, s: State, finalized: Option<nat>, s': State)
    requires (c.derives ==> c.reports) && Inv(c, s) && Step(c, s, Checkpoint(finalized), s')
    ensures forall cp :: cp in s'.sync - s.sync ==>
              && (c.reports ==> cp <= s.horizon) && (finalized.Some? ==> cp <= finalized.value)
              && s.durable < cp < s.next
              && forall n :: c.start <= n <= cp && c.matches(n) ==>
                   s'.stored[n] == 1 && (c.derives ==> s'.kept[n] == 1)
  {
    if s' != s {
      CheckpointCovers(c, s, finalized, s');
      hide Inv;
    }
  }

  ghost predicate AlwaysSafe(c: Config) {
    forall states, actions :: Run(c, states, actions) ==> Safe(c, states[|actions|])
  }

  ghost predicate Reachable(c: Config, s: State) {
    Reached(Steps(c), Fresh(c), s)
  }

  lemma Reaches(c: Config, s: State, a: Action, s': State)
    requires Reachable(c, s) && Step(c, s, a, s')
    ensures Reachable(c, s')
  {
    StepIsReached(Steps(c), Fresh(c), s, a, s');
  }

  lemma FreshIsReachable(c: Config)
    ensures Reachable(c, Fresh(c))
  {
    StartIsReached(Steps(c), Fresh(c));
  }

  lemma UnsafeIsReachable(c: Config, s: State)
    requires Reachable(c, s) && !Safe(c, s)
    ensures !AlwaysSafe(c)
  {
    var states, actions: seq<Action> :| Traces(Steps(c), Fresh(c), states, actions) && states[|actions|] == s;
    assert Run(c, states, actions);
  }

  /** The first block with rows. */
  ghost predicate First(c: Config, b: nat) {
    c.start <= b && c.matches(b) && forall n :: c.start <= n < b ==> !c.matches(n)
  }

  /** What is derived from one block. */
  ghost function DerivedFrom(c: Config, b: nat): set<nat> {
    if c.derives && c.matches(b) then {b} else {}
  }

  /** A process that has just started at block `next`. */
  ghost function Resumed(s: State, next: nat): State {
    s.(up := true, next := next, pending := {}, durable := 0, dirty := {}, flying := {}, flight := None, horizon := 0)
  }

  ghost function TakenIn(c: Config, s: State, b: nat): State {
    s.(pending := s.pending + {b}, dirty := s.dirty + DerivedFrom(c, b), next := b + 1)
  }

  ghost function Sent(s: State, b: nat): State {
    s.(pending := s.pending - {b}, queued := s.queued + multiset{b})
  }

  /** Taking in the first block and inserting its rows. */
  lemma FirstIsSent(c: Config, s: State, b: nat)
    requires First(c, b) && Reachable(c, s) && s.up && s.next == c.start && s.pending == {}
    ensures Reachable(c, Sent(TakenIn(c, s, b), b))
  {
    var taken := TakenIn(c, s, b);
    assert Step(c, s, Process(b), taken) by {
      assert s.dirty + {} == s.dirty;
    }
    assert Step(c, taken, Insert(b), Sent(taken, b));
    hide *;
    Reaches(c, s, Process(b), taken);
    Reaches(c, taken, Insert(b), Sent(taken, b));
  }

  lemma StartIsReachable(c: Config)
    ensures Reachable(c, Resumed(Fresh(c), c.start))
  {
    FreshIsReachable(c);
    assert Step(c, Fresh(c), Resume(None), Resumed(Fresh(c), c.start));
    Reaches(c, Fresh(c), Resume(None), Resumed(Fresh(c), c.start));
  }

  /** A crash in which nothing lands. */
  ghost function Killed(c: Config, s: State): State {
    if c.settles then Died(s, {}).(queued := multiset{}) else Died(s, {})
  }

  lemma KillIsReachable(c: Config, s: State)
    requires Reachable(c, s) && s.up
    ensures Reachable(c, Killed(c, s))
  {
    assert s.stored + multiset{} == s.stored && s.kept + multiset({}) == s.kept;
    assert Step(c, s, Crash(multiset{}, {}), Killed(c, s));
    Reaches(c, s, Crash(multiset{}, {}), Killed(c, s));
  }

  ghost function Drained(s: State): State {
    s.(stored := s.stored + s.queued, queued := multiset{})
  }

  lemma DrainIsReachable(c: Config, s: State)
    requires Reachable(c, s)
    ensures Reachable(c, Drained(s))
  {
    assert s.queued - s.queued == multiset{};
    assert Step(c, s, Drain(s.queued), Drained(s));
    Reaches(c, s, Drain(s.queued), Drained(s));
  }

  /** Starting at block 0 there is nothing to truncate from, so orphaned rows stay and are doubled. */
  lemma StartAtZeroDoubles(c: Config, b: nat)
    requires First(c, b) && c.start == 0
    ensures !AlwaysSafe(c)
  {
    var s1 := Resumed(Fresh(c), 0);
    var s3 := Sent(TakenIn(c, s1, b), b);
    var s5 := Killed(c, Drained(s3));
    var s6 := Resumed(s5, 0);
    var s8 := Drained(Sent(TakenIn(c, s6, b), b));
    assert s8.stored[b] == 2;
    assert Step(c, s5, Resume(None), s6);
    assert !Safe(c, s8);
    hide Step, Safe;
    StartIsReachable(c);
    FirstIsSent(c, s1, b);
    DrainIsReachable(c, s3);
    KillIsReachable(c, Drained(s3));
    Reaches(c, s5, Resume(None), s6);
    FirstIsSent(c, s6, b);
    DrainIsReachable(c, Sent(TakenIn(c, s6, b), b));
    UnsafeIsReachable(c, s8);
  }

  /** Rows still queued when the next process truncates land after it, and are doubled. */
  lemma LingeringQueueDoubles(c: Config, b: nat)
    requires First(c, b) && c.start > 0 && !c.settles
    ensures !AlwaysSafe(c)
  {
    var s1 := Resumed(Fresh(c), c.start);
    var s3 := Sent(TakenIn(c, s1, b), b);
    var s5 := Killed(c, s3);
    var s6 := Resumed(s5, c.start);
    var s8 := Drained(Sent(TakenIn(c, s6, b), b));
    assert s8.stored[b] == 2;
    assert Step(c, s5, Resume(None), s6);
    assert !Safe(c, s8);
    hide Step, Safe;
    StartIsReachable(c);
    FirstIsSent(c, s1, b);
    KillIsReachable(c, s3);
    Reaches(c, s5, Resume(None), s6);
    FirstIsSent(c, s6, b);
    DrainIsReachable(c, Sent(TakenIn(c, s6, b), b));
    UnsafeIsReachable(c, s8);
  }

  /** Without a reported horizon the checkpoint passes derived state that only memory holds. */
  lemma UnreportedStateIsLost(c: Config, b: nat)
    requires First(c, b) && c.start > 0 && c.derives && !c.reports
    ensures !AlwaysSafe(c)
  {
    var s3 := Sent(TakenIn(c, Resumed(Fresh(c), c.start), b), b);
    var s4 := Drained(s3).(sync := {b}, durable := b);
    var s5 := Killed(c, s4);
    var s6 := Resumed(s5, b + 1);
    assert Step(c, s3, Checkpoint(None), s4);
    assert Greatest({b}, b);
    assert Step(c, s5, Resume(Some(b)), s6);
    assert b in s6.sync && s6.kept[b] == 0;
    assert !Safe(c, s6);
    hide Step, Safe;
    StartIsReachable(c);
    FirstIsSent(c, Resumed(Fresh(c), c.start), b);
    Reaches(c, s3, Checkpoint(None), s4);
    KillIsReachable(c, s4);
    Reaches(c, s5, Resume(Some(b)), s6);
    UnsafeIsReachable(c, s6);
  }

  /** The rows of one block, if it has any. */
  ghost function RowsOf(c: Config, b: nat): multiset<nat> { if c.matches(b) then multiset{b} else multiset{} }

  /** A block without rows is not inserted: the queue takes nothing from it. */
  ghost function InsertIfAny(c: Config, b: nat): Action {
    if c.matches(b) then Insert(b) else Drain(multiset{})
  }

  /** The next block, with or without rows, taken in and inserted. */
  ghost function Next(c: Config, s: State, b: nat): State {
    s.(queued := s.queued + RowsOf(c, b), dirty := DerivedFrom(c, b), next := b + 1)
  }

  lemma NextIsReachable(c: Config, s: State, b: nat)
    requires Reachable(c, s) && s.up && s.next == b && s.pending == {} && s.dirty == {}
    ensures Reachable(c, Next(c, s, b))
  {
    var taken := s.(pending := if c.matches(b) then {b} else {}, dirty := DerivedFrom(c, b), next := b + 1);
    assert Step(c, s, Process(b), taken);
    assert Step(c, taken, InsertIfAny(c, b), Next(c, s, b)) by {
      assert s.stored + multiset{} == s.stored;
    }
    hide *;
    Reaches(c, s, Process(b), taken);
    Reaches(c, taken, InsertIfAny(c, b), Next(c, s, b));
  }

  /** A final commit, and the checkpoint of everything taken in so far. */
  ghost function Saved(s: State): State
    requires s.next > 0
  {
    s.(kept := s.kept + multiset(s.dirty), dirty := {}, horizon := s.next - 1,
       stored := s.stored + s.queued, queued := multiset{}, sync := s.sync + {s.next - 1}, durable := s.next - 1)
  }

  lemma SaveIsReachable(c: Config, s: State)
    requires Reachable(c, s) && s.up && s.pending == {} && s.flying == {} && s.flight == None
    requires s.next > 1 && s.durable == 0
    ensures Reachable(c, Saved(s))
  {
    var flushed := s.(kept := s.kept + multiset(s.dirty), dirty := {}, horizon := s.next - 1);
    assert s.kept + multiset({}) == s.kept;
    assert Step(c, s, Flush, flushed);
    assert Step(c, flushed, Checkpoint(None), Saved(s));
    hide *;
    Reaches(c, s, Flush, flushed);
    Reaches(c, flushed, Checkpoint(None), Saved(s));
  }

  /** The run after the crash resumes behind the ledger's block and checkpoints the next one. */
  lemma LostRowsEnd(c: Config, b: nat, s: State)
    requires First(c, b) && s == Resumed(Fresh(c), b + 1).(blocks := {b}) && Reachable(c, s)
    ensures !AlwaysSafe(c)
  {
    NextIsReachable(c, s, b + 1);
    SaveIsReachable(c, Next(c, s, b + 1));
    var end := Saved(Next(c, s, b + 1));
    assert b + 1 in end.sync && end.stored[b] == 0;
    assert !Safe(c, end);
    UnsafeIsReachable(c, end);
  }

  /** A ledger row standing in for a checkpoint vouches for rows the crash lost. */
  lemma LedgerSkipsLostRows(c: Config, b: nat)
    requires First(c, b) && c.start > 0 && c.settles && c.ledger
    ensures !AlwaysSafe(c)
  {
    var s3 := Sent(TakenIn(c, Resumed(Fresh(c), c.start), b), b);
    var s4 := s3.(blocks := {b});
    var s5 := Killed(c, s4);
    var s6 := Resumed(s5, b + 1);
    assert Step(c, s3, LedgerLands(b), s4);
    assert Greatest({b}, b);
    assert Step(c, s5, Resume(Some(b)), s6);
    assert s6 == Resumed(Fresh(c), b + 1).(blocks := {b});
    hide Step;
    StartIsReachable(c);
    FirstIsSent(c, Resumed(Fresh(c), c.start), b);
    Reaches(c, s3, LedgerLands(b), s4);
    KillIsReachable(c, s4);
    Reaches(c, s5, Resume(Some(b)), s6);
    LostRowsEnd(c, b, s6);
  }

  lemma {:induction false} FirstExists(c: Config, b: nat) returns (first: nat)
    requires c.start <= b && c.matches(b)
    ensures First(c, first)
  {
    if n: nat :| c.start <= n < b && c.matches(n) {
      first := FirstExists(c, n);
    } else {
      first := b;
    }
  }

  /**
   Crash safety, exactly: as soon as any block carries rows, every run, with any crashes,
   stores nothing twice and everything up to its checkpoint once, rows and derived state, if and
   only if the start block is positive, a crashed process's queue settles before the next
   truncation, the block ledger is off, and a processor that derives state reports how far it is
   committed.
   */
  lemma CrashSafeIff(c: Config, b: nat)
    requires c.start <= b && c.matches(b)
    ensures AlwaysSafe(c) <==> Sheltered(c)
  {
    var first := FirstExists(c, b);
    if Sheltered(c) {
      forall states, actions | Run(c, states, actions) ensures Safe(c, states[|actions|]) {
        RunKeeps(c, states, actions, |actions|);
        InvIsSafe(c, states[|actions|]);
      }
    } else if c.start == 0 {
      StartAtZeroDoubles(c, first);
    } else if !c.settles {
      LingeringQueueDoubles(c, first);
    } else if c.ledger {
      LedgerSkipsLostRows(c, first);
    } else {
      UnreportedStateIsLost(c, first);
    }
  }
}
