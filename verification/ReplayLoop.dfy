/**
 The producer and consumer around the replay buffer (internal/ingestion/ingestion.go): the
 producer writes while few enough entries are unconsumed, the consumer takes the block its
 cursor names or jumps over a confirmed-empty gap.  When it has nothing left to do it may
 learn of a fork: it rolls back to a safe block and both start again behind it.

 A stream is dense, sparse throughout, or, with the parallel prefetcher, sparse up to the
 prefetcher's bound and dense before it was started and behind the bound.
 */
module ReplayLoop {
  import opened Rings
  import opened ReplayBuffer
  import opened Transitions

  const HEADROOM: nat := 100
  const TWO_64: nat := 0x1_0000_0000_0000_0000

  /** The back-pressure threshold, subtracted in 64 bits. */
  function Threshold(capacity: nat): nat {
    if capacity >= HEADROOM then capacity - HEADROOM else TWO_64 + capacity - HEADROOM
  }

  predicate Blocked(capacity: nat, unconsumed: nat) {
    unconsumed >= Threshold(capacity)
  }

  /** A write may follow the check, or one other write after the check. */
  predicate LetsThrough(capacity: nat, unconsumed: nat) {
    unconsumed <= Threshold(capacity)
  }

  datatype Config = Config(capacity: nat, start: nat, parallelSkips: bool, sequentialSkips: bool)

  // ----- one move of the consumer -----

  /** May a missing block at the cursor be a gap?  A bound of zero means that the prefetcher
      has not been started. */
  predicate Gate(parallelSkips: bool, sequentialSkips: bool, bound: nat, cur: nat) {
    (parallelSkips || sequentialSkips) && (!parallelSkips || (bound != 0 && cur <= bound))
  }

  datatype Move<P> = Take(entry: Entry<P>) | Jump(next: nat) | Wait

  /** The cursor's block if present; else, where gaps are possible, the next block present; else nothing. */
  ghost predicate Moves<P>(buffered: seq<Entry<P>>, latest: nat, cur: nat, open: bool, m: Move<P>) {
    match m
    case Take(e) => e in buffered && e.number == cur
    case Jump(next) =>
      && !Holds(buffered, cur) && open && cur <= latest
      && next >= cur && Holds(buffered, next)
      && forall i :: 0 <= i < |buffered| && buffered[i].number >= cur ==> next <= buffered[i].number
    case Wait =>
      && !Holds(buffered, cur)
      && (!open || cur > latest || forall i :: 0 <= i < |buffered| ==> buffered[i].number < cur)
  }

  method ConsumerMove<P(0)>(rb: ReplayBuffer<P>, parallelSkips: bool, sequentialSkips: bool, bound: nat, cur: nat)
    returns (m: Move<P>)
    requires rb.Valid()
    ensures Moves(rb.Contents(), rb.latestBlock, cur, Gate(parallelSkips, sequentialSkips, bound, cur), m)
  {
    var entry := rb.GetBlock(cur);
    if entry.Some? {
      return Take(entry.value);
    }
    if parallelSkips || sequentialSkips {
      if (!parallelSkips || (bound != 0 && cur <= bound)) && cur <= rb.latestBlock {
        var next, ok := rb.CeilBlock(cur);
        if ok {
          return Jump(next);
        }
      }
    }
    return Wait;
  }

  // ----- whole runs -----

  /**
   written: every entry written and not rolled back, `since` of them before the producer last
   started, at block `origin`.  The buffer holds the last `held` of them; `latest` is its
   high-water mark, and `owed` the writes less the entries consumed.  `published` says that the
   producer has set the bound since it last started.
   */
  datatype State<P> = State(
    written: seq<Entry<P>>, since: nat, origin: nat,
    held: nat, latest: nat, owed: nat,
    consumed: nat, cur: nat, processed: seq<Entry<P>>,
    bound: nat, published: bool)

  function Start<P>(c: Config): State<P> { State([], 0, c.start, 0, 0, 0, 0, c.start, [], 0, false) }

  function Buffered<P>(s: State<P>): seq<Entry<P>> { LastN(s.held, s.written) }

  /** The block asked for when entry i was written, or is asked for next. */
  function Expected<P>(s: State<P>, i: nat): nat
    requires i <= |s.written|
  {
    if i <= s.since then s.origin else s.written[i - 1].number + 1
  }

  predicate Open<P>(c: Config, s: State<P>, number: nat) {
    Gate(c.parallelSkips, c.sequentialSkips, s.bound, number)
  }

  datatype Action<P> =
    | Publish(bound: nat)         // the prefetcher is about to start
    | Write(entry: Entry<P>)      // after the back-pressure check
    | WriteLast(entry: Entry<P>)  // the page's last block, one write after the check that let it through
    | Consume(move: Move<P>)
    | Fork(safe: nat)             // the consumer, having nothing to do, learns of a fork

  function Wrote<P>(c: Config, s: State<P>, e: Entry<P>): State<P> {
    s.(written := s.written + [e], held := if s.held < c.capacity then s.held + 1 else c.capacity,
       latest := e.number, owed := s.owed + 1)
  }

  function Moved<P>(s: State<P>, m: Move<P>): State<P> {
    match m
    case Take(e) =>
      s.(consumed := s.consumed + 1, cur := e.number + 1, processed := s.processed + [e],
         owed := if s.owed > 0 then s.owed - 1 else 0)
    case Jump(next) => s.(cur := next)
    case Wait => s
  }

  /** Everything above the safe block goes, and both sides start again behind it.  The
      high-water mark and the counters stay as they are. */
  function RolledBack<P>(s: State<P>, safe: nat): State<P> {
    var k := UpTo(s.written, safe);
    var dropped := |s.written| - k;
    s.(written := s.written[..k], since := k, origin := safe + 1,
       held := if s.held > dropped then s.held - dropped else 0,
       consumed := k, cur := safe + 1, processed := if k < |s.processed| then s.processed[..k] else s.processed,
       published := false)
  }

  ghost predicate Step<P>(c: Config, s: State<P>, a: Action<P>, s': State<P>) {
    match a
    case Publish(bound) => !s.published && s' == s.(bound := bound, published := true)
    case Write(e) =>
      !Blocked(c.capacity, s.owed) && e.number >= Expected(s, |s.written|) && s' == Wrote(c, s, e)
    case WriteLast(e) =>
      LetsThrough(c.capacity, s.owed) && e.number >= Expected(s, |s.written|) && s' == Wrote(c, s, e)
    case Consume(m) => Moves(Buffered(s), s.latest, s.cur, Open(c, s, s.cur), m) && s' == Moved(s, m)
    case Fork(safe) =>
      Moves(Buffered(s), s.latest, s.cur, Open(c, s, s.cur), Wait) && safe < s.cur && s' == RolledBack(s, safe)
  }

  /** The cursor is right behind the last block consumed, or has jumped to the next one. */
  ghost predicate CursorFollows<P>(s: State<P>)
    requires s.consumed <= |s.written|
  {
    || s.cur == Expected(s, s.consumed)
    || (s.consumed < |s.written| && s.cur == s.written[s.consumed].number)
  }

  /** How much is buffered, and how much the producer takes to be unconsumed. */
  ghost predicate Counted<P>(c: Config, s: State<P>) {
    && |s.written| - s.consumed <= s.owed <= c.capacity
    && |s.written| - s.consumed <= s.held <= c.capacity && s.held <= |s.written|
  }

  /** What was written since the last start lies behind it, the high-water mark last. */
  ghost predicate Anchored<P>(s: State<P>) {
    && s.since <= |s.written|
    && (s.since > 0 ==> s.written[s.since - 1].number < s.origin)
    && (s.since < |s.written| ==>
          s.origin <= s.written[s.since].number && s.latest == s.written[|s.written| - 1].number)
  }

  ghost predicate Inv<P>(c: Config, s: State<P>) {
    && Ascending(s.written)
    && s.since <= s.consumed <= |s.written| && s.processed == s.written[..s.consumed]
    && Counted(c, s) && Anchored(s) && CursorFollows(s)
  }

  /** The ring, which appends to what it still holds, is the last entries of everything written. */
  lemma RingHoldsTheLast<P>(c: Config, s: State<P>, e: Entry<P>)
    requires c.capacity > 0 && s.held <= |s.written| && s.held <= c.capacity && Ascending(s.written + [e])
    ensures Ascending(Buffered(s) + [e])
    ensures LastN(c.capacity, Buffered(s) + [e]) == Buffered(Wrote(c, s, e))
  {
    var n := |s.written| - s.held;
    assert Buffered(s) == s.written[n..];
    assert (s.written + [e])[n..] == s.written[n..] + [e];
    if s.held == c.capacity {
      assert (s.written[n..] + [e])[1..] == (s.written + [e])[n + 1..];
    }
  }

  lemma TailOfPrefix<T>(a: seq<T>, n: nat, k: nat)
    requires n <= |a| && k <= |a|
    ensures LastN(if k > n then k - n else 0, a[..k]) == a[n..][..if k > n then k - n else 0]
  {
  }

  /** Pruning the ring behind the safe block leaves the last of what was not rolled back. */
  lemma PruneHoldsTheLast<P>(s: State<P>, safe: nat)
    requires Ascending(s.written) && s.held <= |s.written|
    ensures Buffered(RolledBack(s, safe)) == Buffered(s)[..UpTo(Buffered(s), safe)]
  {
    var n: nat, k := |s.written| - s.held, UpTo(s.written, safe);
    assert Buffered(s) == s.written[n..];
    UpToOfTail(s.written, safe, n);
    TailOfPrefix(s.written, n, k);
    hide UpTo, Ascending, LastN;
  }

  lemma UpToOfTail<P>(entries: seq<Entry<P>>, safe: nat, n: nat)
    requires Ascending(entries) && n <= |entries|
    ensures var k := UpTo(entries, safe); UpTo(entries[n..], safe) == if k > n then k - n else 0
  {
    var k := UpTo(entries, safe);
    UpToIs(entries[n..], safe, if k > n then k - n else 0);
  }

  /** What is buffered includes everything not yet consumed. */
  lemma UnconsumedIsBuffered<P>(c: Config, s: State<P>, i: nat)
    requires Inv(c, s) && s.consumed <= i < |s.written|
    ensures s.written[i] in Buffered(s)
  {
    var n := |s.written| - s.held;
    assert s.written[n..][i - n] == s.written[i];
  }

  /** The cursor has passed what is consumed, and nothing else. */
  lemma BehindTheCursor<P>(c: Config, s: State<P>)
    requires Inv(c, s)
    ensures s.consumed > 0 ==> s.written[s.consumed - 1].number < s.cur
    ensures s.consumed < |s.written| ==> s.cur <= s.written[s.consumed].number
  {
  }

  lemma FirstBehind<P>(written: seq<Entry<P>>, n: nat, held: nat, cur: nat, e: Entry<P>)
    requires Ascending(written) && n <= |written| && (n > 0 ==> written[n - 1].number < cur)
    requires e in LastN(held, written) && e.number >= cur
    ensures n < |written| && written[n].number <= e.number
    ensures e.number == written[n].number ==> e == written[n]
  {
    var k :| 0 <= k < |written| && written[k] == e;
    assert k >= n;
  }

  /** The only buffered entry at the cursor, or the first behind it, is the next one to consume. */
  lemma NextIsFirst<P>(c: Config, s: State<P>, e: Entry<P>)
    requires Inv(c, s) && e in Buffered(s) && e.number >= s.cur
    ensures s.consumed < |s.written| && s.written[s.consumed].number <= e.number
    ensures e.number == s.written[s.consumed].number ==> e == s.written[s.consumed]
  {
    BehindTheCursor(c, s);
    hide CursorFollows, LastN, Ascending;
    FirstBehind(s.written, s.consumed, s.held, s.cur, e);
  }

  lemma WriteAscends<P>(s: State<P>, e: Entry<P>)
    requires Ascending(s.written) && Anchored(s) && e.number >= Expected(s, |s.written|)
    ensures Ascending(s.written + [e])
  {
    if s.written != [] {
      assert s.written[|s.written| - 1].number < e.number;
    }
  }

  lemma WriteKeeps<P>(c: Config, s: State<P>, e: Entry<P>)
    requires c.capacity >= HEADROOM && Inv(c, s) && e.number >= Expected(s, |s.written|)
    requires LetsThrough(c.capacity, s.owed)
    ensures Inv(c, Wrote(c, s, e))
  {
    WriteAscends(s, e);
    WriteAnchors(c, s, e);
    hide Ascending, CursorFollows, Anchored;
    assert (s.written + [e])[..s.consumed] == s.written[..s.consumed];
    WriteFollows(c, s, e);
  }

  lemma WriteAnchors<P>(c: Config, s: State<P>, e: Entry<P>)
    requires Anchored(s) && e.number >= Expected(s, |s.written|)
    ensures Anchored(Wrote(c, s, e))
  {
  }

  lemma WriteFollows<P>(c: Config, s: State<P>, e: Entry<P>)
    requires s.consumed <= |s.written| && CursorFollows(s)
    ensures CursorFollows(Wrote(c, s, e))
  {
  }

  lemma TakesNext<P>(c: Config, s: State<P>, e: Entry<P>)
    requires Inv(c, s) && e in Buffered(s) && e.number == s.cur
    ensures s.consumed < |s.written| && e == s.written[s.consumed]
  {
    NextIsFirst(c, s, e);
    BehindTheCursor(c, s);
    hide Inv, LastN;
  }

  lemma TakeKeeps<P>(c: Config, s: State<P>, e: Entry<P>)
    requires Inv(c, s) && s.consumed < |s.written| && e == s.written[s.consumed]
    ensures Inv(c, Moved(s, Take(e)))
  {
    hide Ascending, CursorFollows;
    assert s.written[..s.consumed + 1] == s.written[..s.consumed] + [e];
    TakeFollows(s, e);
  }

  lemma TakeFollows<P>(s: State<P>, e: Entry<P>)
    requires s.since <= s.consumed < |s.written| && s.written[s.consumed] == e
    ensures CursorFollows(Moved(s, Take(e)))
  {
  }

  lemma JumpsToNext<P>(c: Config, s: State<P>, next: nat)
    requires Inv(c, s) && Moves(Buffered(s), s.latest, s.cur, Open(c, s, s.cur), Jump(next))
    ensures s.consumed < |s.written| && next == s.written[s.consumed].number
  {
    var buffered := Buffered(s);
    var i :| 0 <= i < |buffered| && buffered[i].number == next;
    NextIsFirst(c, s, buffered[i]);
    UnconsumedIsBuffered(c, s, s.consumed);
    BehindTheCursor(c, s);
    hide Inv, LastN;
    var k :| 0 <= k < |buffered| && buffered[k] == s.written[s.consumed];
  }

  lemma JumpKeeps<P>(c: Config, s: State<P>, next: nat)
    requires Inv(c, s) && Moves(Buffered(s), s.latest, s.cur, Open(c, s, s.cur), Jump(next))
    ensures Inv(c, Moved(s, Jump(next)))
  {
    JumpsToNext(c, s, next);
    hide Moves, LastN, Ascending;
  }

  lemma UpToAtMost<P>(entries: seq<Entry<P>>, n: nat, k: nat)
    requires k <= |entries| && (k < |entries| ==> entries[k].number > n)
    ensures UpTo(entries, n) <= k
  {
  }

  lemma SafeIsBehind<P>(c: Config, s: State<P>, safe: nat)
    requires Inv(c, s) && safe < s.cur
    ensures UpTo(s.written, safe) <= s.consumed
    ensures forall i :: 0 <= i < |s.written| ==> (s.written[i].number <= safe <==> i < UpTo(s.written, safe))
  {
    BehindTheCursor(c, s);
    UpToAtMost(s.written, safe, s.consumed);
    hide CursorFollows;
  }

  /** A rollback drops a tail of what was written, consumed entries of it from the processed
      ones, and leaves nothing unconsumed. */
  lemma ForkKeeps<P>(c: Config, s: State<P>, safe: nat)
    requires Inv(c, s) && safe < s.cur
    ensures var s' := RolledBack(s, safe);
            && Inv(c, s') && s'.consumed == |s'.written| <= s.consumed && s'.processed == s'.written <= s.written
            && s'.cur == Expected(s', |s'.written|) == safe + 1
            && forall i :: 0 <= i < |s.written| ==> (s.written[i].number <= safe <==> i < |s'.written|)
  {
    SafeIsBehind(c, s, safe);
    var k := UpTo(s.written, safe);
    assert s.written[..s.consumed][..k] == s.written[..k];
    hide CursorFollows, UpTo, LastN;
    var s' := RolledBack(s, safe);
    assert CursorFollows(s') by {
      RestartFollows(s');
    }
  }

  lemma RestartFollows<P>(s: State<P>)
    requires s.consumed == |s.written| == s.since && s.cur == s.origin
    ensures CursorFollows(s)
  {
  }

  lemma StepKeeps<P>(c: Config, s: State<P>, a: Action<P>, s': State<P>)
    requires c.capacity >= HEADROOM && Inv(c, s) && Step(c, s, a, s')
    ensures Inv(c, s')
  {
    match a
    case Publish(_) =>
    case Write(e) => WriteKeeps(c, s, e);
    case WriteLast(e) => WriteKeeps(c, s, e);
    case Consume(m) =>
      match m {
        case Take(e) =>
          TakesNext(c, s, e);
          TakeKeeps(c, s, e);
        case Jump(next) => JumpKeeps(c, s, next);
        case Wait =>
      }
    case Fork(safe) => ForkKeeps(c, s, safe);
  }

  ghost function Steps<P>(c: Config): (State<P>, Action<P>, State<P>) -> bool {
    (s, a, s') => Step(c, s, a, s')
  }

  ghost predicate Run<P(!new)>(c: Config, states: seq<State<P>>, actions: seq<Action<P>>) {
    Traces(Steps(c), Start(c), states, actions)
  }

  lemma {:induction false} RunKeeps<P(!new)>(c: Config, states: seq<State<P>>, actions: seq<Action<P>>, n: nat)
    requires c.capacity >= HEADROOM && Run(c, states, actions) && n <= |actions|
    ensures Inv(c, states[n])
  {
    hide Inv, Step;
    if n == 0 {
      StartHolds<P>(c);
    } else {
      RunKeeps(c, states, actions, n - 1);
      StepKeeps(c, states[n - 1], actions[n - 1], states[n]);
    }
  }

  lemma StartHolds<P>(c: Config)
    ensures Inv(c, Start<P>(c))
  {
  }

  /**
   After every run, forks included, the consumer has processed exactly the first entries of what
   was written and not rolled back, once each and in order, across gaps, and nothing it has yet
   to process has been overwritten.
   */
  lemma ProcessesWhatWasWritten<P(!new)>(c: Config, states: seq<State<P>>, actions: seq<Action<P>>)
    requires c.capacity >= HEADROOM && Run(c, states, actions)
    ensures var s := states[|actions|];
            && s.processed <= s.written && |s.processed| == s.consumed && Ascending(s.written)
            && forall i :: s.consumed <= i < |s.written| ==> s.written[i] in Buffered(s)
  {
    RunKeeps(c, states, actions, |actions|);
    var s := states[|actions|];
    forall i | s.consumed <= i < |s.written| ensures s.written[i] in Buffered(s) {
      UnconsumedIsBuffered(c, s, i);
    }
  }

  // ----- no stalls -----

  /**
   The consumer's move when something is unconsumed: take it, jump to it, or stall.  It stalls
   exactly when its cursor names a missing block and the mode has no gaps there: with the
   parallel prefetcher, above its bound or before it has one; without it, unless the
   sequential fetch leaves out empty blocks.
   */
  lemma StallsIff<P>(c: Config, s: State<P>, m: Move<P>, s': State<P>)
    requires Inv(c, s) && s.consumed < |s.written| && Step(c, s, Consume(m), s')
    ensures var next := s.written[s.consumed];
            var gaps := if c.parallelSkips then s.bound != 0 && s.cur <= s.bound else c.sequentialSkips;
            && (m == Take(next) <==> s.cur == next.number)
            && (m == Jump(next.number) <==> s.cur < next.number && gaps)
            && (m == Wait <==> s.cur < next.number && !gaps)
  {
    NextIsThere(c, s);
    match m
    case Take(e) => TakesNext(c, s, e);
    case Jump(n) => JumpsToNext(c, s, n);
    case Wait =>
    hide Inv, LastN;
  }

  /** The next entry is buffered at or behind the cursor, and nothing else is in between. */
  lemma NextIsThere<P>(c: Config, s: State<P>)
    requires Inv(c, s) && s.consumed < |s.written|
    ensures var next := s.written[s.consumed];
            && next in Buffered(s) && Holds(Buffered(s), next.number) && s.cur <= next.number <= s.latest
            && (s.cur < next.number ==> !Holds(Buffered(s), s.cur))
  {
    var buffered, next := Buffered(s), s.written[s.consumed];
    UnconsumedIsBuffered(c, s, s.consumed);
    BehindTheCursor(c, s);
    assert next.number <= s.written[|s.written| - 1].number;
    if i :| 0 <= i < |buffered| && buffered[i].number == s.cur {
      NextIsFirst(c, s, buffered[i]);
    }
    hide LastN, CursorFollows;
    var k :| 0 <= k < |buffered| && buffered[k] == next;
  }

  /** Where the stream may be sparse: with the parallel prefetcher only up to the bound published
      for it, which is never zero; else throughout, or nowhere. */
  predicate SparseAt<P>(c: Config, s: State<P>, number: nat) {
    if c.parallelSkips then s.published && s.bound != 0 && number <= s.bound else c.sequentialSkips
  }

  /** What the producer writes: the block asked for, or behind a gap where the stream is sparse. */
  ghost predicate Produced<P>(c: Config, s: State<P>, a: Action<P>) {
    a.Write? || a.WriteLast? ==>
      a.entry.number == Expected(s, |s.written|) || SparseAt(c, s, Expected(s, |s.written|))
  }

  /** Every gap before an unconsumed entry starts where the consumer may look for one; and a
      count of the entries owed is exact. */
  ghost predicate Sound<P>(c: Config, s: State<P>) {
    && s.since <= s.consumed <= |s.written| && s.owed == |s.written| - s.consumed
    && forall i :: s.consumed <= i < |s.written| && s.written[i].number != Expected(s, i) ==>
         SparseAt(c, s, Expected(s, i))
  }

  lemma WriteStaysSound<P>(c: Config, s: State<P>, e: Entry<P>)
    requires Sound(c, s) && (e.number == Expected(s, |s.written|) || SparseAt(c, s, Expected(s, |s.written|)))
    ensures Sound(c, Wrote(c, s, e))
  {
    var s' := Wrote(c, s, e);
    forall i | s'.consumed <= i < |s'.written| ensures Expected(s', i) == Expected(s, i) {
    }
  }

  lemma MoveStaysSound<P>(c: Config, s: State<P>, m: Move<P>)
    requires Inv(c, s) && Sound(c, s) && Moves(Buffered(s), s.latest, s.cur, Open(c, s, s.cur), m)
    ensures Sound(c, Moved(s, m))
  {
    if m.Take? {
      NextIsFirst(c, s, m.entry);
      var s' := Moved(s, m);
      assert forall i :: s'.consumed <= i < |s'.written| ==> Expected(s', i) == Expected(s, i);
    }
  }

  lemma StaysSound<P>(c: Config, s: State<P>, a: Action<P>, s': State<P>)
    requires Inv(c, s) && Sound(c, s) && Step(c, s, a, s') && Produced(c, s, a)
    ensures Sound(c, s')
  {
    match a
    case Publish(_) =>
      assert forall i :: s.consumed <= i < |s.written| ==> Expected(s', i) == Expected(s, i);
    case Write(e) => WriteStaysSound(c, s, e);
    case WriteLast(e) => WriteStaysSound(c, s, e);
    case Consume(m) => MoveStaysSound(c, s, m);
    case Fork(safe) =>
      NothingToDo(c, s, Wait);
      ForkKeeps(c, s, safe);
  }

  /** In a sound state the consumer never waits while something is unconsumed. */
  lemma NothingToDo<P>(c: Config, s: State<P>, m: Move<P>)
    requires Inv(c, s) && Sound(c, s) && Moves(Buffered(s), s.latest, s.cur, Open(c, s, s.cur), m)
    ensures s.consumed < |s.written| ==> m == Take(s.written[s.consumed]) || m == Jump(s.written[s.consumed].number)
    ensures m == Wait ==> s.consumed == |s.written|
  {
    if s.consumed < |s.written| {
      StallsIff(c, s, m, Moved(s, m));
      BehindTheCursor(c, s);
      hide Moves;
    }
  }

  lemma {:induction false} RunsAreSound<P(!new)>(c: Config, states: seq<State<P>>, actions: seq<Action<P>>, n: nat)
    requires c.capacity >= HEADROOM && Run(c, states, actions) && n <= |actions|
    requires forall i :: 0 <= i < n ==> Produced(c, states[i], actions[i])
    ensures Inv(c, states[n]) && Sound(c, states[n])
  {
    hide Inv, Step, Produced;
    RunKeeps(c, states, actions, n);
    if n > 0 {
      hide Sound;
      RunsAreSound(c, states, actions, n - 1);
      StaysSound(c, states[n - 1], actions[n - 1], states[n]);
    }
  }

  /**
   The consumer never waits while something is unconsumed, whether the stream is dense,
   sparse, or sparse up to the prefetcher's bound and dense elsewhere, and however many forks
   have restarted it.
   */
  lemma NeverStalls<P(!new)>(c: Config, states: seq<State<P>>, actions: seq<Action<P>>)
    requires c.capacity >= HEADROOM && Run(c, states, actions)
    requires forall i :: 0 <= i < |actions| ==> Produced(c, states[i], actions[i])
    ensures var s := states[|actions|];
            s.consumed < |s.written| ==>
              && MovesOn(c, s)
              && forall m, s' :: Step(c, s, Consume(m), s') ==>
                    m == Take(s.written[s.consumed]) || m == Jump(s.written[s.consumed].number)
  {
    RunsAreSound(c, states, actions, |actions|);
    var s := states[|actions|];
    if s.consumed < |s.written| {
      NextIsEnabled(c, s);
      hide Inv, Sound;
      forall m, s' | Step(c, s, Consume(m), s')
        ensures m == Take(s.written[s.consumed]) || m == Jump(s.written[s.consumed].number)
      {
        NothingToDo(c, s, m);
      }
    }
  }

  /** The consumer takes the next entry or jumps to it. */
  ghost predicate MovesOn<P(!new)>(c: Config, s: State<P>)
    requires s.consumed < |s.written|
  {
    var next := s.written[s.consumed];
    exists s' :: Step(c, s, Consume(Take(next)), s') || Step(c, s, Consume(Jump(next.number)), s')
  }

  lemma NextIsEnabled<P(!new)>(c: Config, s: State<P>)
    requires Inv(c, s) && Sound(c, s) && s.consumed < |s.written|
    ensures MovesOn(c, s)
  {
    var next := s.written[s.consumed];
    NextIsThere(c, s);
    if s.cur == next.number {
      assert Step(c, s, Consume(Take(next)), Moved(s, Take(next)));
    } else {
      BehindTheCursor(c, s);
      forall i | 0 <= i < |Buffered(s)| && Buffered(s)[i].number >= s.cur
        ensures next.number <= Buffered(s)[i].number
      {
        NextIsFirst(c, s, Buffered(s)[i]);
      }
      hide LastN, Ascending;
      assert Step(c, s, Consume(Jump(next.number)), Moved(s, Jump(next.number)));
    }
  }

  /**
   A fork finds everything consumed.  It takes back exactly the processed blocks above the safe
   one, of the buffer exactly the entries above it, and leaves the producer nothing to wait for.
   */
  lemma ForksRollBack<P(!new)>(c: Config, states: seq<State<P>>, actions: seq<Action<P>>, n: nat)
    requires c.capacity >= HEADROOM && Run(c, states, actions) && n < |actions| && actions[n].Fork?
    requires forall i :: 0 <= i < |actions| ==> Produced(c, states[i], actions[i])
    ensures var s, s', safe := states[n], states[n + 1], actions[n].safe;
            && s.consumed == |s.written| && s.processed == s.written
            && s'.processed == s.processed[..UpTo(s.processed, safe)] && s'.written == s'.processed
            && Buffered(s') == Buffered(s)[..UpTo(Buffered(s), safe)]
            && s'.owed == 0
  {
    RunsAreSound(c, states, actions, n);
    var s := states[n];
    assert Step(c, s, actions[n], states[n + 1]);
    NothingToDo(c, s, Wait);
    ForkKeeps(c, s, actions[n].safe);
    PruneHoldsTheLast(s, actions[n].safe);
  }

  // ----- the back-pressure check -----

  /**
   The back-pressure check protects unconsumed entries exactly when the capacity is at least
   the headroom: below it the 64-bit subtraction wraps and the check never blocks.
   */
  lemma GuardProtectsIff(capacity: nat)
    requires capacity < TWO_64
    ensures (forall unconsumed: nat :: LetsThrough(capacity, unconsumed) ==> unconsumed < capacity)
            <==> capacity >= HEADROOM
  {
    if capacity < HEADROOM {
      assert LetsThrough(capacity, capacity);
    }
  }

  /** From the headroom up, the check stops a write exactly when fewer than the headroom's
      slots would be left; below it, only beyond any count a buffer can reach. */
  lemma GuardBlocksIff(capacity: nat, unconsumed: nat)
    requires capacity < TWO_64
    ensures capacity >= 100 ==>
              && (Blocked(capacity, unconsumed) <==> unconsumed + 100 >= capacity)
              && (LetsThrough(capacity, unconsumed) <==> unconsumed + 100 <= capacity)
    ensures capacity < 100 ==>
              && (Blocked(capacity, unconsumed) <==> unconsumed + 100 >= 0x1_0000_0000_0000_0000 + capacity)
              && (LetsThrough(capacity, unconsumed) <==> unconsumed + 100 <= 0x1_0000_0000_0000_0000 + capacity)
  {
  }

  /** It leaves a drained producer free exactly when the capacity is not the headroom itself. */
  lemma GuardReleasesIff(capacity: nat)
    requires capacity < TWO_64
    ensures !Blocked(capacity, 0) <==> capacity != HEADROOM
  {
  }

  /** Nothing unconsumed has been overwritten. */
  ghost predicate NothingLost(s: State<int>) {
    forall i :: s.consumed <= i < |s.written| ==> s.written[i] in Buffered(s)
  }

  ghost predicate Reachable(c: Config, s: State<int>) {
    Reached(Steps(c), Start(c), s)
  }

  ghost function Filled(c: Config, n: nat): State<int> {
    Start<int>(c).(written := seq(n, i requires 0 <= i => Entry(c.start + i, 0)),
                   held := if n < c.capacity then n else c.capacity,
                   latest := if n > 0 then c.start + n - 1 else 0, owed := n)
  }

  /** With a wrapped threshold the producer runs ahead of an idle consumer. */
  lemma {:induction false} FilledIsReached(c: Config, n: nat)
    requires c.capacity < HEADROOM && n <= HEADROOM
    ensures Reachable(c, Filled(c, n))
  {
    if n == 0 {
      assert Filled(c, 0) == Start(c);
      StartIsReached(Steps<int>(c), Start(c));
    } else {
      FilledIsReached(c, n - 1);
      var e := Entry(c.start + n - 1, 0);
      assert Filled(c, n).written == Filled(c, n - 1).written + [e];
      assert Step(c, Filled(c, n - 1), Write(e), Filled(c, n));
      StepIsReached(Steps<int>(c), Start(c), Filled(c, n - 1), Write(e), Filled(c, n));
    }
  }

  /**
   No run overwrites a block it has yet to process, if and only if the buffer holds at least
   the headroom.
   */
  lemma NothingLostIff(c: Config)
    requires 0 < c.capacity < TWO_64
    ensures (forall s :: Reachable(c, s) ==> NothingLost(s)) <==> c.capacity >= HEADROOM
  {
    if c.capacity >= HEADROOM {
      forall s | Reachable(c, s) ensures NothingLost(s) {
        var states, actions: seq<Action<int>> :| Traces(Steps(c), Start(c), states, actions) && states[|actions|] == s;
        ProcessesWhatWasWritten(c, states, actions);
      }
    } else {
      var n := c.capacity + 1;
      var s := Filled(c, n);
      FilledIsReached(c, n);
      assert s.written[0] !in s.written[1..];
      assert Buffered(s) == s.written[1..];
      assert !NothingLost(s);
    }
  }

  /** Both capacities the ingester builds its buffer with, 8000 and without replay 1024, lose
      nothing and never block a drained producer. */
  lemma IngesterLosesNothing(noReplay: bool, start: nat, parallelSkips: bool, sequentialSkips: bool)
    ensures var c := Config(if noReplay then 1024 else 8000, start, parallelSkips, sequentialSkips);
            && !Blocked(c.capacity, 0)
            && forall s :: Reachable(c, s) ==> NothingLost(s)
  {
    var c := Config(if noReplay then 1024 else 8000, start, parallelSkips, sequentialSkips);
    NothingLostIff(c);
    GuardReleasesIff(c.capacity);
  }
}
