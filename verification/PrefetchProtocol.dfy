/**
 The prefetcher as a protocol: workers, portal and consumer interleaved arbitrarily.

 A state is the shared snapshot, one program counter per worker, and two histories: the
 chunks handed to the consumer and the number of portal answers taken.  Every action is
 one critical section of internal/ingestion/parallel_fetch.go, except that an answer to a
 beast-mode request is taken as one step.  The portal is any service that answers in
 ascending order, never below the requested block, and without leaving out a matching
 block below the last number it returns (`world` is the set of matching blocks).
 */
module PrefetchProtocol {
  import opened Tiling
  import opened Prefetcher
  import opened Transitions

  datatype Pc = Idle | Fetching(range: Range) | Leftover(range: Range) | Finishing | Exited {
    predicate Busy() { Fetching? || Leftover? || Finishing? }
    predicate Holding() { Fetching? || Leftover? }
  }

  datatype State = State(sh: Shared, pcs: seq<Pc>, emitted: seq<Chunk>, answered: nat)

  datatype Action =
    | ClaimWork(w: nat, windowSpan: nat, strideSpan: nat)
    | AnswerPinned(w: nat, raw: seq<nat>)
    | AnswerBeast(w: nat, raw: seq<nat>)
    | Requeue(w: nat, span: nat)
    | Release(w: nat)
    | Consume

  // ----- the portal -----

  ghost predicate Rising(raw: seq<nat>) {
    forall i, j :: 0 <= i < j < |raw| ==> raw[i] < raw[j]
  }

  ghost predicate Answers(world: set<nat>, raw: seq<nat>, from: nat, pin: nat) {
    && Rising(raw)
    && (forall n :: n in raw ==> from <= n)
    && (raw == [] ==> forall b :: b in world && from <= b ==> pin < b)
    && (raw != [] ==> forall b :: b in world && from <= b <= raw[|raw| - 1] ==> b in raw)
  }

  /** A chunk holds only blocks of its own range, in order, and every matching one. */
  ghost predicate Faithful(world: set<nat>, c: Chunk) {
    && c.from <= c.coveredTo
    && Rising(c.raw)
    && (forall n :: n in c.raw ==> c.from <= n <= c.coveredTo)
    && (forall b :: b in world && c.from <= b <= c.coveredTo ==> b in c.raw)
  }

  lemma {:induction false} TrimKeepsBelow(raw: seq<nat>, maxBlock: nat)
    requires Rising(raw)
    ensures Trim(raw, maxBlock) <= raw
    ensures forall n :: n in Trim(raw, maxBlock) <==> n in raw && n <= maxBlock
  {
    if raw != [] {
      assert raw == [raw[0]] + raw[1..];
      if raw[0] <= maxBlock {
        TrimKeepsBelow(raw[1..], maxBlock);
      } else {
        assert forall i :: 0 <= i < |raw| ==> raw[0] <= raw[i];
      }
    }
  }

  lemma ChunkIsFaithful(cfg: Config, world: set<nat>, r: Range, raw: seq<nat>, beast: bool)
    requires cfg.Holds(r) && Answers(world, raw, r.from, if beast then cfg.end else r.to)
    ensures Faithful(world, ChunkFor(cfg, r, raw, beast))
  {
    var c := ChunkFor(cfg, r, raw, beast);
    TrimKeepsBelow(raw, c.coveredTo);
    if raw != [] {
      var last := raw[|raw| - 1];
      assert last in raw;
      forall n | n in raw ensures n <= last {
        var i :| 0 <= i < |raw| && raw[i] == n;
      }
    }
  }

  // ----- steps -----

  /** What a worker may see of the span estimate.  In pinned mode other workers keep
      moving it, so a reading may be anything the clamp allows. */
  ghost predicate Readable(s: Shared, span: nat) {
    GAP_MIN <= span <= GAP_MAX && (s.beast ==> span == ClampSpan(s.gapSpan))
  }

  ghost predicate Step(cfg: Config, world: set<nat>, s: State, a: Action, s': State) {
    match a
    case ClaimWork(w, windowSpan, strideSpan) =>
      && w < |s.pcs| && s.pcs[w].Idle?
      && Readable(s.sh, windowSpan) && Readable(s.sh, strideSpan)
      && var (sh, work) := Claim(cfg, s.sh, windowSpan, strideSpan);
      && !work.Wait?
      && s' == s.(sh := sh, pcs := s.pcs[w := if work.Unit? then Fetching(work.range) else Exited])
    case AnswerPinned(w, raw) =>
      && w < |s.pcs| && s.pcs[w].Fetching? && !s.sh.beast
      && var r := s.pcs[w].range;
      && cfg.Holds(r) && Answers(world, raw, r.from, r.to)
      && var c := ChunkFor(cfg, r, raw, false);
      && s' == s.(sh := RespondPinned(cfg, s.sh, r, raw),
                  pcs := s.pcs[w := if c.coveredTo < r.to then Leftover(Range(c.coveredTo + 1, r.to)) else Finishing],
                  answered := s.answered + 1)
    case AnswerBeast(w, raw) =>
      && w < |s.pcs| && s.pcs[w].Fetching? && s.sh.beast
      && var r := s.pcs[w].range;
      && cfg.Holds(r) && Answers(world, raw, r.from, cfg.end)
      && s' == s.(sh := RespondBeast(cfg, s.sh, r, raw), pcs := s.pcs[w := Finishing], answered := s.answered + 1)
    case Requeue(w, span) =>
      && w < |s.pcs| && s.pcs[w].Leftover? && Readable(s.sh, span)
      && s' == s.(sh := Enqueue(s.sh, s.pcs[w].range.from, s.pcs[w].range.to, span), pcs := s.pcs[w := Finishing])
    case Release(w) =>
      && w < |s.pcs| && s.pcs[w].Finishing? && s.sh.active > 0
      && s' == s.(sh := Finish(s.sh), pcs := s.pcs[w := Idle])
    case Consume =>
      var (sh, e) := Next(s.sh, AllExited(s.pcs));
      && e.Emitted?
      && s' == s.(sh := sh, emitted := s.emitted + [e.chunk])
  }

  predicate AllExited(pcs: seq<Pc>) {
    forall w :: 0 <= w < |pcs| ==> pcs[w].Exited?
  }

  ghost function Start(cfg: Config): State {
    State(Initial(cfg), seq(cfg.workers, i => Idle), [], 0)
  }

  ghost function Steps(cfg: Config, world: set<nat>): (State, Action, State) -> bool {
    (s, a, s') => Step(cfg, world, s, a, s')
  }

  ghost predicate Run(cfg: Config, world: set<nat>, states: seq<State>, acts: seq<Action>) {
    cfg.Ok() && Traces(Steps(cfg, world), Start(cfg), states, acts)
  }

  ghost predicate Reachable(cfg: Config, world: set<nat>, s: State) {
    cfg.Ok() && Reached(Steps(cfg, world), Start(cfg), s)
  }

  lemma Reaches(cfg: Config, world: set<nat>, s: State, a: Action, s': State)
    requires Reachable(cfg, world, s) && Step(cfg, world, s, a, s')
    ensures Reachable(cfg, world, s')
  {
    StepIsReached(Steps(cfg, world), Start(cfg), s, a, s');
  }

  /** A beast answer that jumps past its unit is harmless when the unit ended at the
      cursor; FarJumpIsSafeIff shows that otherwise it never is. */
  ghost predicate EndsAtCursor(cfg: Config, s: State, a: Action) {
    a.AnswerBeast? && a.w < |s.pcs| && s.pcs[a.w].Fetching? && cfg.Holds(s.pcs[a.w].range) ==>
      var r := s.pcs[a.w].range;
      CoveredTo(cfg, r, a.raw, true) <= r.to || r.to + 1 == s.sh.nextBlock
  }

  // ----- the partition -----

  ghost function BufferedPieces(ready: map<nat, Chunk>): set<Piece> {
    set k | k in ready :: Buffered(Range(ready[k].from, ready[k].coveredTo))
  }

  ghost function QueuedPieces(gaps: seq<Range>): set<Piece> {
    set g | g in gaps :: Queued(g)
  }

  ghost function ClaimedPieces(pcs: seq<Pc>): set<Piece> {
    set w: nat | w < |pcs| && pcs[w].Holding() :: Claimed(w, pcs[w].range)
  }

  ghost function Pieces(s: State): set<Piece> {
    BufferedPieces(s.sh.ready) + QueuedPieces(s.sh.gaps) + ClaimedPieces(s.pcs)
  }

  ghost predicate Partitioned(s: State) {
    Tiles(Pieces(s), s.sh.nextEmit, s.sh.nextBlock)
  }

  ghost predicate Ascending(gaps: seq<Range>) {
    forall i, j :: 0 <= i < j < |gaps| ==> gaps[i].from < gaps[j].from
  }

  ghost function BusyWorkers(pcs: seq<Pc>): set<nat> {
    set w: nat | w < |pcs| && pcs[w].Busy()
  }

  function Limit(cfg: Config): nat { Max(cfg.start, cfg.end + 1) }

  /** The chunks run on from lo to hi without hole or overlap. */
  ghost predicate Contiguous(cs: seq<Chunk>, lo: nat, hi: nat) {
    && (cs == [] ==> lo == hi)
    && (cs != [] ==> cs[0].from == lo && cs[|cs| - 1].coveredTo + 1 == hi)
    && (forall i :: 0 <= i < |cs| ==> cs[i].from <= cs[i].coveredTo)
    && (forall i :: 0 < i < |cs| ==> cs[i].from == cs[i - 1].coveredTo + 1)
  }

  function Span(cfg: Config): nat { if cfg.start <= cfg.end then cfg.end + 1 - cfg.start else 0 }

  ghost predicate Wellformed(cfg: Config, s: State) {
    && cfg.Ok() && |s.pcs| == cfg.workers
    && GAP_MIN <= s.sh.gapSpan <= GAP_MAX
    && cfg.start <= s.sh.nextEmit && s.sh.nextBlock <= Limit(cfg)
    && Ascending(s.sh.gaps)
    && s.sh.active == |BusyWorkers(s.pcs)|
    && (s.sh.beast ==> s.sh.active <= 1)
    && (s.sh.stopClaim ==> s.sh.nextBlock > cfg.end && s.sh.gaps == [] && s.sh.active == 0)
    && (forall w :: 0 <= w < |s.pcs| && s.pcs[w].Exited? ==> s.sh.stopClaim)
  }

  ghost predicate Sound(cfg: Config, world: set<nat>, s: State) {
    && (forall k :: k in s.sh.ready ==> s.sh.ready[k].from == k && Faithful(world, s.sh.ready[k]))
    && Contiguous(s.emitted, cfg.start, s.sh.nextEmit)
    && (forall i :: 0 <= i < |s.emitted| ==> Faithful(world, s.emitted[i]))
  }

  ghost predicate Inv(cfg: Config, world: set<nat>, s: State) {
    Wellformed(cfg, s) && Partitioned(s) && Sound(cfg, world, s)
  }
}
