/**
 * Which blocks are generated together, and the guard that keeps two generation jobs off the same blocks. A job owns
 * the cube of blocks around its start ("central blocks"); the chunk set is read and written under the environment
 * lock, so its operations are atomic.
 */
module Chunks {
  import opened MachineIntegers
  import opened Options
  import opened Sequences
  import opened Vectors

  type BlockPos = p: V3 | -0x8000 <= p.x < 0x8000 && -0x8000 <= p.y < 0x8000 && -0x8000 <= p.z < 0x8000
    witness V3(0, 0, 0)

  type ChunkSize = c: s16 | 0 < c witness 1

  // ----- one coordinate -----

  /** The program's division truncates toward zero; negative numerators are shifted first. */
  function GetContainerPos(p: s16, d: ChunkSize): int {
    if p >= 0 then p / d else -((d - 1 - p) / d)
  }

  lemma DivisionBounds(n: nat, d: nat)
    requires d > 0
    ensures (n / d) * d <= n < (n / d) * d + d
  {
    assert n == (n / d) * d + n % d;
  }

  lemma MulOrder(a: int, b: int, d: nat)
    requires a <= b
    ensures a * d <= b * d
  {}

  /** Floor division: the container starts at or before the point and ends behind it. */
  lemma ContainerHolds(p: s16, d: ChunkSize)
    ensures var q := GetContainerPos(p, d); q * d <= p < q * d + d && -0x8000 <= q < 0x8000
  {
    if p >= 0 {
      DivisionBounds(p, d);
    } else {
      DivisionBounds(d - 1 - p, d);
      Product(GetContainerPos(p, d), d, p);
    }
    QuotientFits(GetContainerPos(p, d), d, p);
  }

  lemma Product(q: int, d: int, p: int)
    requires d > 0 && (-q) * d <= d - 1 - p < (-q) * d + d
    ensures q * d <= p < q * d + d
  {
    assert (-q) * d == -(q * d);
  }

  lemma QuotientFits(q: int, d: int, p: s16)
    requires d > 0 && q * d <= p < q * d + d
    ensures -0x8000 <= q < 0x8000
  {
    MulOrder(1, d, if q >= 0 then q else -(q + 1));
    assert q < 0 ==> (q + 1) * d == -(-(q + 1) * d);
  }

  /** Where a chunk starts on one axis, as the program computes it: every intermediate result is 16 bits wide. */
  function ChunkStart(p: s16, c: ChunkSize): s16 {
    var quotient := GetContainerPos(ToS16(p + c / 2), c);
    ToS16(ToS16(quotient * c) - c / 2)
  }

  /** A start of the partition: half a chunk below a multiple of the chunk size. */
  predicate IsAligned(m: int, c: ChunkSize) {
    (m + c / 2) % c == 0
  }

  lemma MultipleIsAligned(q: int, c: ChunkSize)
    ensures IsAligned(q * c - c / 2, c)
  {
    MultipleMod(q, c);
  }

  lemma {:induction false} MultipleMod(q: int, c: ChunkSize)
    ensures (q * c) % c == 0
  {
    var r := (q * c) % c;
    var k := q - (q * c) / c;
    assert r == k * c;
    MulOrder(if k >= 1 then 1 else k, if k >= 1 then k else 0, c);
  }

  /** Two different starts are at least a chunk apart. */
  lemma AlignedApart(a: int, b: int, c: ChunkSize)
    requires IsAligned(a, c) && IsAligned(b, c) && a < b
    ensures a + c <= b
  {
    var i, j := (a + c / 2) / c, (b + c / 2) / c;
    assert a + c / 2 == i * c && b + c / 2 == j * c;
    MulOrder(if j <= i then j else i + 1, if j <= i then i else j, c);
  }

  /** The largest limit the program accepts, in blocks. */
  function LimitInBlocks(mapgenLimit: s16): nat {
    (if mapgenLimit < 0 then 0 else if mapgenLimit > MAX_MAP_GENERATION_LIMIT then MAX_MAP_GENERATION_LIMIT
        else mapgenLimit) / MAP_BLOCKSIZE
  }

  predicate OverLimit1(p: s16, limit: s16) {
    var n: int := LimitInBlocks(limit);
    p < -n || p > n
  }

  /** Neither end of a chunk, with its border of one block, lies over the limit; the ends are computed in 16 bits. */
  predicate Inside1(m: s16, c: ChunkSize, limit: s16) {
    !OverLimit1(ToS16(m - 1), limit) && !OverLimit1(ToS16(ToS16(m + (c - 1)) + 1), limit)
  }

  /** The chunk a coordinate belongs to, in unbounded integers. */
  function TrueStart(p: int, c: ChunkSize): int {
    (p + c / 2) / c * c - c / 2
  }

  /** The start is aligned, the chunk holds the coordinate, and its last coordinate is a 16-bit number. */
  predicate HoldsExactly(m: s16, c: ChunkSize, p: int) {
    IsAligned(m, c) && m <= p < m + c && ToS16(m + (c - 1)) == m + (c - 1)
  }

  /**
   * Both ends of the true chunk are 16-bit numbers, and so is the number that is divided, unless the chunk size is a
   * power of two.
   */
  predicate FitsWidth(p: s16, c: ChunkSize) {
    && -0x8000 <= TrueStart(p, c) && TrueStart(p, c) + c - 1 < 0x8000
    && (p + c / 2 < 0x8000 || 0x1_0000 % c == 0)
  }

  /** The chunk computed for a coordinate, for every positive chunk size, holds it exactly when it fits the width. */
  lemma ChunkStartExact(p: s16, c: ChunkSize)
    ensures HoldsExactly(ChunkStart(p, c), c, p) <==> FitsWidth(p, c)
    ensures FitsWidth(p, c) ==> ChunkStart(p, c) == TrueStart(p, c)
  {
    var x := ToS16(p + c / 2);
    var start := GetContainerPos(x, c) * c;
    ContainerHolds(x, c);
    DivisionFloor(p + c / 2, c);
    MultipleIsAligned((p + c / 2) / c, c);
    if p + c / 2 < 0x8000 {
      MultipleBetween((p + c / 2) / c, GetContainerPos(x, c), c, x);
      StraightStart(p, c, start);
    } else {
      AddMultiple(GetContainerPos(x, c), c, 0x1_0000);
      if 0x1_0000 % c == 0 {
        MultipleBetween((p + c / 2) / c, GetContainerPos(x, c) + 0x1_0000 / c, c, p + c / 2);
      }
      WrappedStart(p, c, x, start);
    }
  }

  lemma DivisionFloor(x: int, c: ChunkSize)
    ensures x / c * c <= x < x / c * c + c
  {}

  /** Two multiples of the chunk size that are at most a chunk below the same number are the same. */
  lemma MultipleBetween(i: int, j: int, c: ChunkSize, x: int)
    requires i * c <= x < i * c + c && j * c <= x < j * c + c
    ensures i * c == j * c
  {
    if i < j { MulOrder(i + 1, j, c); }
    if j < i { MulOrder(j + 1, i, c); }
  }

  lemma AddMultiple(q: int, c: ChunkSize, y: nat)
    ensures (q * c + y) % c == y % c
    ensures y % c == 0 ==> (q + y / c) * c == q * c + y
  {
    var z := q * c + y;
    DivisionFloor(z, c);
    DivisionFloor(y, c);
    MultipleBetween(z / c, q + y / c, c, z);
  }

  lemma StraightStart(p: s16, c: ChunkSize, start: int)
    requires p + c / 2 < 0x8000 && start <= p + c / 2 < start + c && start % c == 0
    ensures var m := ToS16(ToS16(start) - c / 2);
            && (HoldsExactly(m, c, p) <==> -0x8000 <= start - c / 2 && start - c / 2 + c - 1 < 0x8000)
            && (HoldsExactly(m, c, p) ==> m == start - c / 2)
  {}

  lemma WrappedStart(p: s16, c: ChunkSize, x: s16, start: int)
    requires p + c / 2 >= 0x8000 && x == p + c / 2 - 0x1_0000 && start <= x < start + c
    requires (start + 0x1_0000) % c == 0 <==> 0x1_0000 % c == 0
    ensures var m := ToS16(ToS16(start) - c / 2);
            && (HoldsExactly(m, c, p) <==> 0x1_0000 % c == 0 && start - c / 2 + 0x1_0000 + c - 1 < 0x8000)
            && (HoldsExactly(m, c, p) ==> m == start - c / 2 + 0x1_0000)
  {}

  /** A chunk's length away from the ends of the 16-bit range nothing can go wrong. */
  lemma WellInside(p: s16, c: ChunkSize)
    requires -0x8000 + c <= p <= 0x7FFF - c
    ensures HoldsExactly(ChunkStart(p, c), c, p)
  {
    ChunkStartExact(p, c);
    DivisionFloor(p + c / 2, c);
  }

  /** Near the end of the range, a chunk of ten blocks is misplaced though it would fit. */
  lemma StartWraps()
    ensures TrueStart(32763, 10) == 32755 && ChunkStart(32763, 10) == 32761
  {}

  /**
   * Where no 16-bit result wraps, a chunk passes if it and its border lie inside the limit, which is at most 31000
   * nodes.
   */
  lemma InsideMeaning(m: s16, c: ChunkSize, limit: s16)
    requires -0x8000 < m && m + c < 0x8000
    ensures var n := (if limit < 0 then 0 else if limit > 31000 then 31000 else limit) / 16;
            Inside1(m, c, limit) <==> -n <= m - 1 && m + c <= n
  {}

  /** A chunk that passes the limit check was computed exactly, whatever the limit. */
  lemma InsideIsExact(p: s16, c: ChunkSize, limit: s16)
    requires Inside1(ChunkStart(p, c), c, limit)
    ensures HoldsExactly(ChunkStart(p, c), c, p)
  {
    var x := ToS16(p + c / 2);
    var q := GetContainerPos(x, c);
    ContainerHolds(x, c);
    NoWrap(p, c, limit, x, q * c);
    MultipleIsAligned(q, c);
  }

  lemma NoWrap(p: s16, c: ChunkSize, limit: s16, x: s16, start: int)
    requires x == ToS16(p + c / 2) && start <= x < start + c
    requires var m := ToS16(ToS16(start) - c / 2); Inside1(m, c, limit)
    ensures ToS16(ToS16(start) - c / 2) == start - c / 2 && x == p + c / 2
    ensures ToS16(start - c / 2 + (c - 1)) == start - c / 2 + (c - 1)
  {}

  // ----- boxes of blocks -----

  predicate InBox(p: V3, min: V3, c: ChunkSize) {
    min.x <= p.x < min.x + c && min.y <= p.y < min.y + c && min.z <= p.z < min.z + c
  }

  predicate Aligned(m: V3, c: ChunkSize) {
    IsAligned(m.x, c) && IsAligned(m.y, c) && IsAligned(m.z, c)
  }

  /** Boxes at aligned starts are the same or share no block. */
  lemma BoxesDisjoint(a: V3, b: V3, c: ChunkSize, p: V3)
    requires Aligned(a, c) && Aligned(b, c) && InBox(p, a, c) && InBox(p, b, c)
    ensures a == b
  {
    Same(a.x, b.x, c, p.x);
    Same(a.y, b.y, c, p.y);
    Same(a.z, b.z, c, p.z);
  }

  lemma Same(a: int, b: int, c: ChunkSize, p: int)
    requires IsAligned(a, c) && IsAligned(b, c) && a <= p < a + c && b <= p < b + c
    ensures a == b
  {
    if a < b { AlignedApart(a, b, c); }
    if b < a { AlignedApart(b, a, c); }
  }

  function GetContainingChunk(p: BlockPos, c: ChunkSize): BlockPos {
    V3(ChunkStart(p.x, c), ChunkStart(p.y, c), ChunkStart(p.z, c))
  }

  function ChunkEnd(m: BlockPos, c: ChunkSize): BlockPos {
    V3(ToS16(m.x + (c - 1)), ToS16(m.y + (c - 1)), ToS16(m.z + (c - 1)))
  }

  predicate OverMapgenLimit(p: BlockPos, limit: s16) {
    OverLimit1(p.x, limit) || OverLimit1(p.y, limit) || OverLimit1(p.z, limit)
  }

  /** A position moved by `d` on every axis. */
  function Shift(p: BlockPos, d: int): BlockPos {
    V3(ToS16(p.x + d), ToS16(p.y + d), ToS16(p.z + d))
  }

  predicate Inside(m: BlockPos, c: ChunkSize, limit: s16) {
    !OverMapgenLimit(Shift(m, -1), limit) && !OverMapgenLimit(Shift(ChunkEnd(m, c), 1), limit)
  }

  /** A chunk that passes the limit check holds its block, for every block and every positive chunk size. */
  lemma ChunkHoldsBlock(p: BlockPos, c: ChunkSize, limit: s16)
    requires Inside(GetContainingChunk(p, c), c, limit)
    ensures var m := GetContainingChunk(p, c);
            && Aligned(m, c) && InBox(p, m, c)
            && ChunkEnd(m, c) == V3(m.x + c - 1, m.y + c - 1, m.z + c - 1)
  {
    InsideAxes(GetContainingChunk(p, c), c, limit);
    InsideIsExact(p.x, c, limit);
    InsideIsExact(p.y, c, limit);
    InsideIsExact(p.z, c, limit);
    ExactAxes(GetContainingChunk(p, c), c, p);
  }

  /** The chunk computed for a block is its true box exactly when no axis leaves the 16-bit range. */
  lemma ContainingChunkExact(p: BlockPos, c: ChunkSize)
    ensures var m := GetContainingChunk(p, c);
            Aligned(m, c) && InBox(p, m, c) && ChunkEnd(m, c) == V3(m.x + c - 1, m.y + c - 1, m.z + c - 1) <==>
            FitsWidth(p.x, c) && FitsWidth(p.y, c) && FitsWidth(p.z, c)
  {
    ChunkStartExact(p.x, c);
    ChunkStartExact(p.y, c);
    ChunkStartExact(p.z, c);
  }

  lemma InsideAxes(m: BlockPos, c: ChunkSize, limit: s16)
    requires Inside(m, c, limit)
    ensures Inside1(m.x, c, limit) && Inside1(m.y, c, limit) && Inside1(m.z, c, limit)
  {}

  lemma ExactAxes(m: BlockPos, c: ChunkSize, p: V3)
    requires HoldsExactly(m.x, c, p.x) && HoldsExactly(m.y, c, p.y) && HoldsExactly(m.z, c, p.z)
    ensures Aligned(m, c) && InBox(p, m, c) && ChunkEnd(m, c) == V3(m.x + c - 1, m.y + c - 1, m.z + c - 1)
  {}

  // ----- jobs -----

  datatype Job = Job(min: BlockPos, max: BlockPos)

  /** `live` is not in the program: the jobs that were started and not yet finished. */
  datatype State = State(inProgress: set<BlockPos>, live: seq<Job>)

  datatype Config = Config(chunksize: ChunkSize, limit: s16)

  predicate IsLive(s: State, m: BlockPos) {
    exists i :: 0 <= i < |s.live| && s.live[i].min == m
  }

  ghost predicate Inv(s: State, cfg: Config) {
    && (forall i :: 0 <= i < |s.live| ==> s.live[i].min in s.inProgress && Proper(s.live[i], cfg))
    && (forall i, j :: 0 <= i < j < |s.live| ==> s.live[i].min != s.live[j].min)
    && (forall m :: m in s.inProgress ==> IsLive(s, m) || !Inside(m, cfg.chunksize, cfg.limit))
  }

  ghost predicate Proper(j: Job, cfg: Config) {
    && Aligned(j.min, cfg.chunksize) && Inside(j.min, cfg.chunksize, cfg.limit)
    && j.max == V3(j.min.x + cfg.chunksize - 1, j.min.y + cfg.chunksize - 1, j.min.z + cfg.chunksize - 1)
  }

  /** The blocks a job generates. */
  predicate Owns(j: Job, p: V3) {
    j.min.x <= p.x <= j.max.x && j.min.y <= p.y <= j.max.y && j.min.z <= p.z <= j.max.z
  }

  /** A chunk over the limit is refused only after it has entered the set, and stays there. */
  function StartJob(s: State, cfg: Config, p: BlockPos): (State, Option<Job>) {
    var m := GetContainingChunk(p, cfg.chunksize);
    if m in s.inProgress then (s, None)
    else
      var t := s.(inProgress := s.inProgress + {m});
      if !Inside(m, cfg.chunksize, cfg.limit) then (t, None)
      else
        var job := Job(m, ChunkEnd(m, cfg.chunksize));
        (t.(live := t.live + [job]), Some(job))
  }

  function EndJob(s: State, i: nat): State
    requires i < |s.live|
  {
    s.(inProgress := s.inProgress - {s.live[i].min}, live := Without(s.live, i))
  }

  lemma InitKeeps(s: State, cfg: Config, p: BlockPos)
    requires Inv(s, cfg)
    ensures Inv(StartJob(s, cfg, p).0, cfg)
  {
    var m := GetContainingChunk(p, cfg.chunksize);
    if m !in s.inProgress {
      if Inside(m, cfg.chunksize, cfg.limit) {
        ChunkHoldsBlock(p, cfg.chunksize, cfg.limit);
        AddKeeps(s, cfg, Job(m, ChunkEnd(m, cfg.chunksize)));
      } else {
        LeakKeeps(s, cfg, m);
      }
    }
  }

  lemma AddKeeps(s: State, cfg: Config, job: Job)
    requires Inv(s, cfg) && job.min !in s.inProgress && Proper(job, cfg)
    ensures Inv(State(s.inProgress + {job.min}, s.live + [job]), cfg)
  {
    var t := State(s.inProgress + {job.min}, s.live + [job]);
    hide Proper, Inside;
    assert t.live[|s.live|] == job;
    forall m | m in t.inProgress ensures IsLive(t, m) || !Inside(m, cfg.chunksize, cfg.limit) {
      if m != job.min && IsLive(s, m) {
        var i :| 0 <= i < |s.live| && s.live[i].min == m;
        assert t.live[i].min == m;
      }
    }
  }

  lemma LeakKeeps(s: State, cfg: Config, m: BlockPos)
    requires Inv(s, cfg) && !Inside(m, cfg.chunksize, cfg.limit)
    ensures Inv(s.(inProgress := s.inProgress + {m}), cfg)
  {
    var t := s.(inProgress := s.inProgress + {m});
    assert forall n :: IsLive(s, n) <==> IsLive(t, n);
  }

  lemma FinishKeeps(s: State, cfg: Config, i: nat)
    requires Inv(s, cfg) && i < |s.live|
    ensures Inv(EndJob(s, i), cfg)
  {
    var t := EndJob(s, i);
    FinishJobs(s, cfg, i);
    forall m | m in t.inProgress ensures IsLive(t, m) || !Inside(m, cfg.chunksize, cfg.limit) {
      if IsLive(s, m) { StillLive(s, i, m); }
    }
  }

  /** The jobs that remain, and where they were. */
  lemma FinishJobs(s: State, cfg: Config, i: nat)
    requires Inv(s, cfg) && i < |s.live|
    ensures var t := EndJob(s, i);
            && (forall k :: 0 <= k < |t.live| ==> t.live[k].min in t.inProgress && Proper(t.live[k], cfg))
            && (forall k, j :: 0 <= k < j < |t.live| ==> t.live[k].min != t.live[j].min)
  {
    var t := EndJob(s, i);
    forall k | 0 <= k < |t.live| ensures t.live[k].min in t.inProgress && Proper(t.live[k], cfg) {
      WithoutAt(s.live, i, k);
    }
    forall k, j | 0 <= k < j < |t.live| ensures t.live[k].min != t.live[j].min {
      WithoutAt(s.live, i, k);
      WithoutAt(s.live, i, j);
    }
  }

  lemma StillLive(s: State, i: nat, m: BlockPos)
    requires i < |s.live| && IsLive(s, m) && m != s.live[i].min
    ensures IsLive(EndJob(s, i), m)
  {
    var k :| 0 <= k < |s.live| && s.live[k].min == m;
    assert EndJob(s, i).live[if k < i then k else k - 1].min == m;
  }

  // ----- whole runs -----

  datatype Op = Init(pos: BlockPos) | Finish(job: nat)

  function Step(s: State, cfg: Config, op: Op): State {
    match op
    case Init(p) => StartJob(s, cfg, p).0
    case Finish(i) => if i < |s.live| then EndJob(s, i) else s
  }

  /** The state after a run: jobs start and finish in any order. */
  function Run(cfg: Config, ops: seq<Op>): State {
    if ops == [] then State({}, []) else Step(Run(cfg, ops[..|ops| - 1]), cfg, ops[|ops| - 1])
  }

  lemma {:induction false} RunKeeps(cfg: Config, ops: seq<Op>)
    ensures Inv(Run(cfg, ops), cfg)
  {
    if ops != [] {
      var s := Run(cfg, ops[..|ops| - 1]);
      RunKeeps(cfg, ops[..|ops| - 1]);
      match ops[|ops| - 1] {
        case Init(p) => InitKeeps(s, cfg, p);
        case Finish(i) => if i < |s.live| { FinishKeeps(s, cfg, i); }
      }
    }
  }

  /** In every reachable state no block belongs to two live jobs. */
  lemma LiveJobsDisjoint(cfg: Config, ops: seq<Op>, i: nat, j: nat, p: V3)
    requires i < j < |Run(cfg, ops).live|
    ensures !(Owns(Run(cfg, ops).live[i], p) && Owns(Run(cfg, ops).live[j], p))
  {
    var s := Run(cfg, ops);
    RunKeeps(cfg, ops);
    if Owns(s.live[i], p) && Owns(s.live[j], p) {
      BoxesDisjoint(s.live[i].min, s.live[j].min, cfg.chunksize, p);
    }
  }

  /**
   * In every reachable state a job for a block starts exactly when the block's chunk is inside the limit and no live
   * job owns the block; the chunks left behind by refused requests never stop a job. The new job owns the block.
   */
  lemma StartsWhenFree(cfg: Config, ops: seq<Op>, p: BlockPos)
    ensures var s := Run(cfg, ops);
            var job := StartJob(s, cfg, p).1;
            && (job.Some? <==>
                  Inside(GetContainingChunk(p, cfg.chunksize), cfg.chunksize, cfg.limit) &&
                  forall i :: 0 <= i < |s.live| ==> !Owns(s.live[i], p))
            && (job.Some? ==> Owns(job.value, p))
  {
    var s := Run(cfg, ops);
    RunKeeps(cfg, ops);
    var m := GetContainingChunk(p, cfg.chunksize);
    if Inside(m, cfg.chunksize, cfg.limit) {
      ChunkHoldsBlock(p, cfg.chunksize, cfg.limit);
      FreeMeansAbsent(s, cfg, p, m);
    }
  }

  lemma FreeMeansAbsent(s: State, cfg: Config, p: V3, m: BlockPos)
    requires Inv(s, cfg) && Inside(m, cfg.chunksize, cfg.limit) && Aligned(m, cfg.chunksize)
        && InBox(p, m, cfg.chunksize)
    ensures m in s.inProgress <==> exists i :: 0 <= i < |s.live| && Owns(s.live[i], p)
  {
    if m in s.inProgress {
      var i :| 0 <= i < |s.live| && s.live[i].min == m;
      assert Owns(s.live[i], p);
    }
    forall i | 0 <= i < |s.live| && Owns(s.live[i], p) ensures m in s.inProgress {
      BoxesDisjoint(s.live[i].min, m, cfg.chunksize, p);
    }
  }

  /** A chunk over the limit that is in the set stays there, whatever happens next. */
  lemma {:induction false} RefusedStays(cfg: Config, ops: seq<Op>, more: seq<Op>, m: BlockPos)
    requires m in Run(cfg, ops).inProgress && !Inside(m, cfg.chunksize, cfg.limit)
    ensures m in Run(cfg, ops + more).inProgress
    decreases |more|
  {
    if more == [] {
      assert ops + more == ops;
    } else {
      var before := ops + more[..|more| - 1];
      RefusedStays(cfg, ops, more[..|more| - 1], m);
      assert (ops + more)[..|ops + more| - 1] == before && (ops + more)[|ops + more| - 1] == more[|more| - 1];
      RunKeeps(cfg, before);
      hide Step, Inside, Inv;
      StepKeepsRefused(Run(cfg, before), cfg, more[|more| - 1], m);
    }
  }

  lemma StepKeepsRefused(s: State, cfg: Config, op: Op, m: BlockPos)
    requires Inv(s, cfg) && m in s.inProgress && !Inside(m, cfg.chunksize, cfg.limit)
    ensures m in Step(s, cfg, op).inProgress
  {
    hide Inside, GetContainingChunk, ChunkEnd;
  }

  /** Every request for a block of such a chunk is refused and leaves the chunk in the set for ever. */
  lemma RefusedForEver(cfg: Config, ops: seq<Op>, p: BlockPos, more: seq<Op>)
    requires !Inside(GetContainingChunk(p, cfg.chunksize), cfg.chunksize, cfg.limit)
    ensures StartJob(Run(cfg, ops), cfg, p).1 == None
    ensures GetContainingChunk(p, cfg.chunksize) in Run(cfg, ops + [Init(p)] + more).inProgress
  {
    assert (ops + [Init(p)])[..|ops|] == ops;
    RefusedStays(cfg, ops + [Init(p)], more, GetContainingChunk(p, cfg.chunksize));
  }

  // ----- the program -----

  class ServerMap {
    const cfg: Config
    var chunksInProgress: set<BlockPos>
    ghost var live: seq<Job>

    ghost function AsState(): State
      reads this
    {
      State(chunksInProgress, live)
    }

    ghost predicate Valid()
      reads this
    {
      Inv(AsState(), cfg)
    }

    constructor (cfg: Config)
      ensures Valid() && this.cfg == cfg && AsState() == Run(cfg, [])
    {
      this.cfg := cfg;
      chunksInProgress, live := {}, [];
    }

    method InitBlockMake(blockpos: BlockPos) returns (data: Option<Job>)
      requires Valid()
      modifies this
      ensures Valid() && (AsState(), data) == StartJob(old(AsState()), cfg, blockpos)
    {
      InitKeeps(AsState(), cfg, blockpos);
      var bpmin := GetContainingChunk(blockpos, cfg.chunksize);
      var bpmax := ChunkEnd(bpmin, cfg.chunksize);
      if bpmin in chunksInProgress { return None; }
      chunksInProgress := chunksInProgress + {bpmin};
      // the chunk's border counts, too
      if OverMapgenLimit(Shift(bpmin, -1), cfg.limit) || OverMapgenLimit(Shift(bpmax, 1), cfg.limit) { return None; }
      live := live + [Job(bpmin, bpmax)];
      data := Some(Job(bpmin, bpmax));
    }

    /** `i` says which live job the data belongs to. */
    method FinishBlockMake(data: Job, ghost i: nat)
      requires Valid() && i < |live| && live[i] == data
      modifies this
      ensures Valid() && AsState() == EndJob(old(AsState()), i)
    {
      FinishKeeps(AsState(), cfg, i);
      chunksInProgress := chunksInProgress - {data.min};
      live := Without(live, i);
    }
  }
}
