/**
 * The emerge queue as a state machine: blocks waiting to be loaded or generated, one queue per worker thread,
 * and a count per requesting peer. Every step runs under the queue mutex, so steps are atomic.
 */
module EmergeQueue {
  import opened Cardinality
  import opened MachineIntegers
  import opened Options
  import opened Vectors

  const PEER_ID_INEXISTENT: u16 := 0
  const BLOCK_EMERGE_ALLOW_GEN: bv16 := 1
  const BLOCK_EMERGE_FORCE_QUEUE: bv16 := 2

  type Callback = nat

  datatype Request = Request(peer: u16, flags: bv16, callback: Option<Callback>)

  datatype BlockEmergeData = BlockEmergeData(peerRequested: u16, flags: bv16, callbacks: seq<Callback>)

  datatype Limits = Limits(total: u16, diskonly: u16, generate: u16)

  /** `history` is not in the program: the accepted requests for each queued block since its entry was created. */
  datatype State = State(
    blocks: map<V3, BlockEmergeData>,
    peerCount: map<u16, u16>,
    queues: seq<seq<V3>>,
    history: map<V3, seq<Request>>)

  // ----- what an entry should hold -----

  function AllFlags(requests: seq<Request>): bv16 {
    if requests == [] then 0 else AllFlags(requests[..|requests| - 1]) | requests[|requests| - 1].flags
  }

  function AllCallbacks(requests: seq<Request>): seq<Callback> {
    if requests == [] then [] else
      AllCallbacks(requests[..|requests| - 1]) + Callbacks(requests[|requests| - 1])
  }

  function Callbacks(r: Request): seq<Callback> {
    if r.callback.Some? then [r.callback.value] else []
  }

  /** The peer that asked first, every flag anyone asked with, every callback in order. */
  function Summary(requests: seq<Request>): BlockEmergeData
    requires requests != []
  {
    BlockEmergeData(requests[0].peer, AllFlags(requests), AllCallbacks(requests))
  }

  // ----- accounting -----

  function Count(s: State, peer: u16): u16 {
    if peer in s.peerCount then s.peerCount[peer] else 0
  }

  /** The queued blocks that a peer requested first. */
  function Requested(s: State, peer: u16): set<V3> {
    set p | p in s.blocks && s.blocks[p].peerRequested == peer
  }

  /** How often a block occurs in the thread queues together. */
  function Queued(queues: seq<seq<V3>>, p: V3): nat {
    if queues == [] then 0 else Queued(queues[..|queues| - 1], p) + multiset(queues[|queues| - 1])[p]
  }

  /** 16-bit counters agree with the queue modulo their width. */
  ghost predicate CountsAgree(s: State) {
    && (forall peer: u16 :: Count(s, peer) == |Requested(s, peer)| % 0x1_0000)
    && (forall p :: p in s.blocks ==> s.blocks[p].peerRequested in s.peerCount)
  }

  /** The thread queues together hold each entry exactly once. */
  ghost predicate QueuesAgree(s: State) {
    forall p :: Queued(s.queues, p) == if p in s.blocks then 1 else 0
  }

  /** Every entry carries what was asked for since it was created. */
  ghost predicate EntriesAgree(s: State) {
    && s.history.Keys == s.blocks.Keys
    && (forall p :: p in s.blocks ==> s.history[p] != [] && s.blocks[p] == Summary(s.history[p]))
  }

  ghost predicate Inv(s: State) {
    s.queues != [] && CountsAgree(s) && QueuesAgree(s) && EntriesAgree(s)
  }

  /** What the limits promise while nobody forces a request in. */
  ghost predicate WithinLimits(s: State, lim: Limits) {
    && |s.blocks| <= lim.total
    && (forall peer: u16 :: peer != PEER_ID_INEXISTENT ==>
          |Requested(s, peer)| <= if lim.generate > lim.diskonly then lim.generate else lim.diskonly)
    && 2 * |Requested(s, PEER_ID_INEXISTENT)| <= lim.total + 1
  }

  // ----- steps -----

  predicate IsForced(r: Request) {
    r.flags & BLOCK_EMERGE_FORCE_QUEUE != 0
  }

  /** The limit checks of `pushBlockEmergeData`. */
  predicate Admits(s: State, lim: Limits, r: Request) {
    IsForced(r) ||
      (|s.blocks| < lim.total &&
        if r.peer != PEER_ID_INEXISTENT
        then Count(s, r.peer) < (if r.flags & BLOCK_EMERGE_ALLOW_GEN != 0 then lim.generate else lim.diskonly)
        else Count(s, r.peer) * 2 < lim.total)
  }

  /** Looking up a peer's counter creates it. */
  function Touch(s: State, peer: u16): State {
    s.(peerCount := s.peerCount[peer := Count(s, peer)])
  }

  function Increment(n: u16): u16 {
    (n + 1) % 0x1_0000
  }

  function Decrement(n: u16): u16 {
    (n + 0xFFFF) % 0x1_0000
  }

  /** An admitted request joins the entry for the block, or creates it. */
  function Push(s: State, p: V3, r: Request): State
    requires p in s.blocks ==> p in s.history
  {
    if p in s.blocks then
      s.(blocks := s.blocks[p := s.blocks[p].(flags := s.blocks[p].flags | r.flags,
          callbacks := s.blocks[p].callbacks + Callbacks(r))],
         history := s.history[p := s.history[p] + [r]])
    else
      s.(blocks := s.blocks[p := BlockEmergeData(r.peer, r.flags, Callbacks(r))],
         peerCount := s.peerCount[r.peer := Increment(Count(s, r.peer))],
         history := s.history[p := [r]])
  }

  /** The thread with the shortest queue, the first of several. */
  function Optimal(queues: seq<seq<V3>>): (i: nat)
    requires queues != []
    ensures i < |queues|
  {
    if |queues| == 1 then 0 else
      var i := Optimal(queues[..|queues| - 1]);
      if |queues[|queues| - 1]| < |queues[i]| then |queues| - 1 else i
  }

  /** No queue is shorter, and those before it are longer. */
  lemma {:induction false} OptimalIsShortest(queues: seq<seq<V3>>, k: nat)
    requires k < |queues|
    ensures |queues[Optimal(queues)]| <= |queues[k]|
        && (k < Optimal(queues) ==> |queues[Optimal(queues)]| < |queues[k]|)
  {
    var n := |queues| - 1;
    if n > 0 {
      OptimalIsShortest(queues[..n], if k < n then k else 0);
      OptimalIsShortest(queues[..n], Optimal(queues[..n]));
      assert queues[..n][Optimal(queues[..n])] == queues[Optimal(queues[..n])];
    }
  }

  function Enqueue(s: State, lim: Limits, p: V3, r: Request): (State, bool)
    requires s.queues != [] && (p in s.blocks ==> p in s.history)
  {
    var t := Touch(s, r.peer);
    if !Admits(s, lim, r) then (t, false)
    else
      var u := Push(t, p, r);
      if p in s.blocks then (u, true)
      else var i := Optimal(u.queues); (u.(queues := u.queues[i := u.queues[i] + [p]]), true)
  }

  /** `popBlockEmergeData`: removes an entry and gives its peer's count back; fails if either is missing. */
  function PopData(s: State, p: V3): (State, Option<BlockEmergeData>) {
    if p !in s.blocks || s.blocks[p].peerRequested !in s.peerCount then (s, None)
    else
      var d := s.blocks[p];
      (s.(blocks := s.blocks - {p},
          peerCount := s.peerCount[d.peerRequested := Decrement(s.peerCount[d.peerRequested])],
              history := s.history - {p}), Some(d))
  }

  datatype Popped = Popped(pos: V3, data: Option<BlockEmergeData>)

  /** A worker takes the front of its own queue. */
  function PopFront(s: State, i: nat): (State, Popped)
    requires i < |s.queues| && s.queues[i] != []
  {
    var p := s.queues[i][0];
    var t := s.(queues := s.queues[i := s.queues[i][1..]]);
    (PopData(t, p).0, Popped(p, PopData(t, p).1))
  }

  /** A stopping worker empties its queue. */
  function CancelAll(s: State, i: nat): (State, seq<Popped>)
    requires i < |s.queues|
    decreases |s.queues[i]|
  {
    if s.queues[i] == [] then (s, []) else
      var step := PopFront(s, i);
      var rest := CancelAll(step.0, i);
      (rest.0, [step.1] + rest.1)
  }

  /** The rest of a cancellation, after some blocks have been completed. */
  function CancelFrom(s: State, i: nat, done: seq<Popped>): (State, seq<Popped>)
    requires i < |s.queues|
  {
    (CancelAll(s, i).0, done + CancelAll(s, i).1)
  }

  lemma CancelOne(s: State, i: nat, done: seq<Popped>)
    requires i < |s.queues| && s.queues[i] != []
    ensures var (t, out) := PopFront(s, i); CancelFrom(t, i, done + [out]) == CancelFrom(s, i, done)
  {
    var (t, out) := PopFront(s, i);
    var rest := CancelAll(t, i).1;
    assert done + ([out] + rest) == (done + [out]) + rest;
  }

  // ----- counting lemmas -----

  lemma {:induction false} QueuedUpdate(queues: seq<seq<V3>>, i: nat, q: seq<V3>, p: V3)
    requires i < |queues|
    ensures Queued(queues[i := q], p) + multiset(queues[i])[p] == Queued(queues, p) + multiset(q)[p]
    ensures multiset(queues[i])[p] <= Queued(queues, p)
  {
    var n := |queues| - 1;
    if i == n {
      assert queues[i := q][..n] == queues[..n];
    } else {
      QueuedUpdate(queues[..n], i, q, p);
      assert queues[i := q][..n] == queues[..n][i := q];
    }
  }

  /** One more or one less entry, and the same change in one queue, keep the two in step. */
  lemma QueuesStep(s: State, t: State, i: nat, q: seq<V3>)
    requires QueuesAgree(s) && i < |s.queues| && t.queues == s.queues[i := q]
    requires forall p ::
        (if p in t.blocks then 1 else 0) + multiset(s.queues[i])[p] == (if p in s.blocks then 1 else 0) + multiset(q)[p]
    ensures QueuesAgree(t)
  {
    forall p ensures Queued(t.queues, p) == if p in t.blocks then 1 else 0 { QueuedUpdate(s.queues, i, q, p); }
  }

  lemma RequestedAtMost(s: State, peer: u16)
    ensures |Requested(s, peer)| <= |s.blocks|
  {
    SubsetSize(Requested(s, peer), s.blocks.Keys);
  }

  // ----- every step keeps the invariant -----

  lemma TouchKeeps(s: State, peer: u16)
    requires Inv(s)
    ensures Inv(Touch(s, peer)) && (forall q: u16 ::
        Requested(Touch(s, peer), q) == Requested(s, q) && Count(Touch(s, peer), q) == Count(s, q))
  {
    var t := Touch(s, peer);
    assert forall q: u16 :: Requested(t, q) == Requested(s, q);
  }

  lemma SummaryMore(requests: seq<Request>, r: Request)
    requires requests != []
    ensures var d := Summary(requests);
            Summary(requests + [r]) == d.(flags := d.flags | r.flags, callbacks := d.callbacks + Callbacks(r))
  {
    assert (requests + [r])[..|requests|] == requests;
  }

  lemma SummaryOne(r: Request)
    ensures Summary([r]) == BlockEmergeData(r.peer, r.flags, Callbacks(r))
  {
    FlagsOne(r);
    CallbacksOne(r);
  }

  lemma NoFlags(flags: bv16)
    ensures 0 | flags == flags
  {}

  lemma FlagsOne(r: Request)
    ensures AllFlags([r]) == r.flags
  {
    assert [r][..0] == [];
    NoFlags(r.flags);
  }

  lemma CallbacksOne(r: Request)
    ensures AllCallbacks([r]) == Callbacks(r)
  {
    assert [r][..0] == [];
    assert AllCallbacks([]) + Callbacks(r) == Callbacks(r);
  }

  /** Joining an existing entry changes no count. */
  lemma JoinKeeps(s: State, p: V3, r: Request)
    requires Inv(s) && p in s.blocks
    ensures Inv(Push(s, p, r)) && forall q: u16 :: Requested(Push(s, p, r), q) == Requested(s, q)
  {
    JoinCounts(s, p, r);
    JoinEntries(s, p, r);
    var t := Push(s, p, r);
    assert t.queues == s.queues && forall b :: b in t.blocks <==> b in s.blocks;
  }

  lemma JoinEntries(s: State, p: V3, r: Request)
    requires EntriesAgree(s) && p in s.blocks
    ensures EntriesAgree(Push(s, p, r))
  {
    SummaryMore(s.history[p], r);
  }

  lemma JoinCounts(s: State, p: V3, r: Request)
    requires CountsAgree(s) && p in s.blocks && p in s.history
    ensures CountsAgree(Push(s, p, r)) && forall q: u16 :: Requested(Push(s, p, r), q) == Requested(s, q)
  {
    var t := Push(s, p, r);
    assert forall b :: b in t.blocks <==> b in s.blocks;
    assert forall b :: b in s.blocks ==> t.blocks[b].peerRequested == s.blocks[b].peerRequested;
    forall q: u16 ensures Requested(t, q) == Requested(s, q) {}
  }

  /** A new entry counts for its peer, modulo the counter's width. */
  lemma CreateCounts(s: State, p: V3, r: Request)
    requires CountsAgree(s) && p !in s.blocks
    ensures CountsAgree(Push(s, p, r))
    ensures forall q: u16 :: Requested(Push(s, p, r), q) == Requested(s, q) + if q == r.peer then {p} else {}
  {
    var t := Push(s, p, r);
    forall q: u16
      ensures Requested(t, q) == Requested(s, q) + if q == r.peer then {p} else {}
      ensures Count(t, q) == |Requested(t, q)| % 0x1_0000
    {
      RequestedCreate(s, p, r, q);
      CreateCount(s, p, r, q);
    }
  }

  lemma CreateCount(s: State, p: V3, r: Request, q: u16)
    requires p !in s.blocks && Count(s, q) == |Requested(s, q)| % 0x1_0000
    ensures Count(Push(s, p, r), q) == |Requested(Push(s, p, r), q)| % 0x1_0000
  {
    RequestedCreate(s, p, r, q);
    assert p !in Requested(s, q);
    hide Requested;
    OneMore(|Requested(s, q)|);
  }

  lemma OneMore(n: nat)
    ensures Increment(n % 0x1_0000) == (n + 1) % 0x1_0000
  {}

  lemma RequestedCreate(s: State, p: V3, r: Request, q: u16)
    requires p !in s.blocks
    ensures Requested(Push(s, p, r), q) == Requested(s, q) + if q == r.peer then {p} else {}
  {}

  lemma CreateKeeps(s: State, p: V3, r: Request, i: nat)
    requires Inv(s) && p !in s.blocks && i < |s.queues|
    ensures var u := Push(s, p, r); Inv(u.(queues := u.queues[i := u.queues[i] + [p]]))
  {
    var u := Push(s, p, r);
    var v := u.(queues := u.queues[i := u.queues[i] + [p]]);
    CreateCounts(s, p, r);
    SameCounts(u, v);
    CreateEntries(s, p, r);
    QueuesStep(s, v, i, s.queues[i] + [p]);
  }

  lemma CreateEntries(s: State, p: V3, r: Request)
    requires EntriesAgree(s) && p !in s.blocks
    ensures EntriesAgree(Push(s, p, r))
  {
    SummaryOne(r);
  }

  /** Counting looks at the entries and counters only. */
  lemma SameCounts(s: State, t: State)
    requires CountsAgree(s) && t.blocks == s.blocks && t.peerCount == s.peerCount
    ensures CountsAgree(t)
  {
    assert forall q: u16 :: Requested(t, q) == Requested(s, q);
  }

  lemma EnqueueKeeps(s: State, lim: Limits, p: V3, r: Request)
    requires Inv(s)
    ensures Inv(Enqueue(s, lim, p, r).0)
  {
    TouchKeeps(s, r.peer);
    var t := Touch(s, r.peer);
    if Admits(s, lim, r) {
      if p in s.blocks { JoinKeeps(t, p, r); } else { CreateKeeps(t, p, r, Optimal(t.queues)); }
    }
  }

  /** Removing an entry gives back exactly one count. */
  lemma RemoveCounts(s: State, p: V3)
    requires CountsAgree(s) && p in s.blocks
    ensures PopData(s, p).1 == Some(s.blocks[p]) && CountsAgree(PopData(s, p).0)
    ensures forall q: u16 :: Requested(PopData(s, p).0, q) == Requested(s, q) - {p}
  {
    var t := PopData(s, p).0;
    var peer := s.blocks[p].peerRequested;
    assert p in Requested(s, peer);
    forall q: u16
      ensures Requested(t, q) == Requested(s, q) - {p}
      ensures Count(t, q) == |Requested(t, q)| % 0x1_0000
    {
      assert Requested(t, q) == Requested(s, q) - {p};
    }
  }

  /** A worker's pop always finds the entry, returns everything asked for, and keeps the invariant. */
  lemma PopFrontKeeps(s: State, i: nat)
    requires Inv(s) && i < |s.queues| && s.queues[i] != []
    ensures var (t, out) := PopFront(s, i);
            && out.pos == s.queues[i][0] && IsAnswered(s, out) && Inv(t)
            && t.blocks == s.blocks - {out.pos} && t.history == s.history - {out.pos}
                  && t.queues == s.queues[i := s.queues[i][1..]]
  {
    var p := s.queues[i][0];
    var s1 := s.(queues := s.queues[i := s.queues[i][1..]]);
    FrontIsQueued(s, i);
    SameCounts(s, s1);
    RemoveCounts(s1, p);
    assert s.queues[i] == [p] + s.queues[i][1..];
    QueuesStep(s, PopFront(s, i).0, i, s.queues[i][1..]);
  }

  lemma FrontIsQueued(s: State, i: nat)
    requires QueuesAgree(s) && i < |s.queues| && s.queues[i] != []
    ensures s.queues[i][0] in s.blocks
  {
    var p := s.queues[i][0];
    QueuedUpdate(s.queues, i, [], p);
    assert p in multiset(s.queues[i]);
  }

  /** The worker gets the block's entry, with everything asked for since it was created. */
  ghost predicate IsAnswered(s: State, out: Popped) {
    out.pos in s.blocks && out.pos in s.history && s.history[out.pos] != []
        && out.data == Some(Summary(s.history[out.pos]))
  }

  /** Cancelling empties one queue, completes each of its blocks once and in order, and leaves the others alone. */
  lemma {:induction false} CancelAllKeeps(s: State, i: nat)
    requires Inv(s) && i < |s.queues|
    ensures var (t, out) := CancelAll(s, i);
            && Inv(t) && t.queues == s.queues[i := []]
            && |out| == |s.queues[i]|
            && (forall k :: 0 <= k < |out| ==> out[k].pos == s.queues[i][k] && IsAnswered(s, out[k]))
    decreases |s.queues[i]|
  {
    if s.queues[i] == [] {
      assert s.queues[i := []] == s.queues;
    } else {
      PopFrontKeeps(s, i);
      CancelAllKeeps(PopFront(s, i).0, i);
    }
  }

  // ----- limits -----

  /** Within the limits no 16-bit counter wraps: each peer's count is the number of blocks it requested first. */
  lemma CountsExact(s: State, lim: Limits)
    requires Inv(s) && WithinLimits(s, lim)
    ensures forall peer: u16 :: Count(s, peer) == |Requested(s, peer)|
  {
    forall peer: u16 ensures Count(s, peer) == |Requested(s, peer)| { CountExact(s, peer); }
  }

  lemma CountExact(s: State, peer: u16)
    requires CountsAgree(s) && |s.blocks| < 0x1_0000
    ensures Count(s, peer) == |Requested(s, peer)|
  {
    RequestedAtMost(s, peer);
  }

  /** The counter a worker is about to decrement is not zero, unless it has wrapped. */
  lemma CountIsPositive(s: State, p: V3)
    requires Inv(s) && p in s.blocks
    ensures Count(s, s.blocks[p].peerRequested) == 0 <==> |Requested(s, s.blocks[p].peerRequested)| % 0x1_0000 == 0
    ensures |s.blocks| < 0x1_0000 ==> Count(s, s.blocks[p].peerRequested) != 0
  {
    var peer := s.blocks[p].peerRequested;
    assert p in Requested(s, peer);
    RequestedAtMost(s, peer);
  }

  /** An unforced request never pushes the queue over a limit. */
  lemma EnqueueWithin(s: State, lim: Limits, p: V3, r: Request)
    requires Inv(s) && WithinLimits(s, lim) && !IsForced(r)
    ensures WithinLimits(Enqueue(s, lim, p, r).0, lim)
  {
    CountsExact(s, lim);
    TouchKeeps(s, r.peer);
    var t := Touch(s, r.peer);
    if Admits(s, lim, r) {
      if p in s.blocks {
        JoinCounts(t, p, r);
        WithinAlike(s, Push(t, p, r), lim);
      } else {
        CreateCounts(t, p, r);
        var u := Push(t, p, r);
        CreateWithin(s, u, lim, p, r);
        WithinAlike(u, Enqueue(s, lim, p, r).0, lim);
      }
    } else {
      WithinAlike(s, t, lim);
    }
  }

  lemma WithinAlike(s: State, t: State, lim: Limits)
    requires WithinLimits(s, lim) && |t.blocks| <= |s.blocks|
    requires forall q: u16 :: |Requested(t, q)| <= |Requested(s, q)|
    ensures WithinLimits(t, lim)
  {}

  lemma CreateWithin(s: State, t: State, lim: Limits, p: V3, r: Request)
    requires WithinLimits(s, lim) && Admits(s, lim, r) && !IsForced(r) && p !in s.blocks
    requires forall q: u16 :: Count(s, q) == |Requested(s, q)|
    requires |t.blocks| == |s.blocks| + 1
    requires forall q: u16 :: Requested(t, q) == Requested(s, q) + if q == r.peer then {p} else {}
    ensures WithinLimits(t, lim)
  {
    forall q: u16 ensures |Requested(t, q)| == |Requested(s, q)| + if q == r.peer then 1 else 0 {
      assert p !in Requested(s, q);
    }
  }

  lemma PopWithin(s: State, lim: Limits, i: nat)
    requires Inv(s) && WithinLimits(s, lim) && i < |s.queues| && s.queues[i] != []
    ensures WithinLimits(PopFront(s, i).0, lim)
  {
    var p := s.queues[i][0];
    var s1 := s.(queues := s.queues[i := s.queues[i][1..]]);
    FrontIsQueued(s, i);
    SameCounts(s, s1);
    RemoveCounts(s1, p);
    var t := PopFront(s, i).0;
    SubsetSize(t.blocks.Keys, s.blocks.Keys);
    forall q: u16 ensures |Requested(t, q)| <= |Requested(s, q)| {
      assert Requested(s1, q) == Requested(s, q);
      SubsetSize(Requested(t, q), Requested(s, q));
    }
    WithinAlike(s, t, lim);
  }

  lemma {:induction false} CancelWithin(s: State, lim: Limits, i: nat)
    requires Inv(s) && WithinLimits(s, lim) && i < |s.queues|
    ensures WithinLimits(CancelAll(s, i).0, lim)
    decreases |s.queues[i]|
  {
    if s.queues[i] != [] {
      PopWithin(s, lim, i);
      PopFrontKeeps(s, i);
      CancelWithin(PopFront(s, i).0, lim, i);
    }
  }

  /** Flag 2 forces a request in; flag 1 allows the block to be generated. */
  predicate HasFlag(r: Request, flag: bv16) {
    r.flags & flag == flag
  }

  /**
   * Which limit applies: while the queue is not full, a peer may have as many blocks queued as its kind of request
   * allows, and the server itself, peer 0, half of the total.
   */
  ghost predicate HasRoom(s: State, lim: Limits, r: Request) {
    && |s.blocks| < lim.total
    && if r.peer == 0 then 2 * |Requested(s, 0)| < lim.total
       else |Requested(s, r.peer)| < if HasFlag(r, 1) then lim.generate else lim.diskonly
  }

  /**
   * A forced request is always accepted, any other exactly when there is room; blocks are what counts, not counters.
   */
  lemma EnqueueAccepts(s: State, lim: Limits, p: V3, r: Request)
    requires Inv(s) && Count(s, r.peer) == |Requested(s, r.peer)|
    ensures Enqueue(s, lim, p, r).1 <==> HasFlag(r, 2) || HasRoom(s, lim, r)
  {
    OneBit(r.flags);
  }

  lemma EnqueueAcceptsNow(s: State, lim: Limits, p: V3, r: Request)
    requires Inv(s)
    ensures |s.blocks| < 0x1_0000 ==> (Enqueue(s, lim, p, r).1 <==> HasFlag(r, 2) || HasRoom(s, lim, r))
  {
    if |s.blocks| < 0x1_0000 {
      CountExact(s, r.peer);
      EnqueueAccepts(s, lim, p, r);
    }
  }

  lemma OneBit(flags: bv16)
    ensures flags & 1 == 0 || flags & 1 == 1
    ensures flags & 2 == 0 || flags & 2 == 2
  {}

  /** Queue `i` is the shortest, and the first of several. */
  ghost predicate IsFirstShortest(queues: seq<seq<V3>>, i: nat) {
    i < |queues| && forall k ::
        0 <= k < |queues| ==> |queues[i]| <= |queues[k]| && (k < i ==> |queues[i]| < |queues[k]|)
  }

  /**
   * A refused request changes neither entries nor queues. An accepted one joins the entry there is, or makes an entry
   * of its own and puts the block at the end of the shortest queue.
   */
  lemma EnqueueEffect(s: State, lim: Limits, p: V3, r: Request)
    requires Inv(s)
    ensures var (t, ok) := Enqueue(s, lim, p, r);
            && (!ok ==> t.blocks == s.blocks && t.queues == s.queues)
            && (ok && p in s.blocks ==>
                  && t.queues == s.queues
                  && t.blocks == s.blocks[p := Summary(s.history[p] + [r])])
            && (ok && p !in s.blocks ==>
                  && t.blocks == s.blocks[p := Summary([r])]
                  && exists i: nat :: IsFirstShortest(s.queues, i) && t.queues == s.queues[i := s.queues[i] + [p]])
  {
    hide Admits, CountsAgree, QueuesAgree, Summary, Callbacks, IsFirstShortest, Count, Optimal;
    OptimalIsFirst(s.queues);
    if p in s.blocks {
      EntryAt(s, p);
      SummaryMore(s.history[p], r);
      PushJoins(Touch(s, r.peer), p, r, Summary(s.history[p] + [r]));
    } else {
      PushCreates(Touch(s, r.peer), p, r);
    }
    hide Push, Touch;
  }

  lemma PushJoins(s: State, p: V3, r: Request, d: BlockEmergeData)
    requires p in s.blocks && p in s.history
    requires d == s.blocks[p].(flags := s.blocks[p].flags | r.flags, callbacks := s.blocks[p].callbacks + Callbacks(r))
    ensures Push(s, p, r).queues == s.queues && Push(s, p, r).blocks == s.blocks[p := d]
  {}

  lemma EntryAt(s: State, p: V3)
    requires EntriesAgree(s) && p in s.blocks
    ensures p in s.history && s.history[p] != [] && s.blocks[p] == Summary(s.history[p])
  {}

  lemma PushCreates(s: State, p: V3, r: Request)
    requires p !in s.blocks
    ensures Push(s, p, r).queues == s.queues && Push(s, p, r).blocks == s.blocks[p := Summary([r])]
  {
    SummaryOne(r);
  }

  lemma OptimalIsFirst(queues: seq<seq<V3>>)
    requires queues != []
    ensures IsFirstShortest(queues, Optimal(queues))
  {
    forall k | 0 <= k < |queues|
      ensures |queues[Optimal(queues)]| <= |queues[k]|
          && (k < Optimal(queues) ==> |queues[Optimal(queues)]| < |queues[k]|)
    {
      OptimalIsShortest(queues, k);
    }
  }

  // ----- whole runs -----

  datatype Op = EnqueueOp(pos: V3, request: Request) | PopOp(thread: nat) | CancelOp(thread: nat)

  function Step(s: State, lim: Limits, op: Op): State
    requires Inv(s)
  {
    match op
    case EnqueueOp(p, r) => Enqueue(s, lim, p, r).0
    case PopOp(i) => if i < |s.queues| && s.queues[i] != [] then PopFront(s, i).0 else s
    case CancelOp(i) => if i < |s.queues| then CancelAll(s, i).0 else s
  }

  lemma StepKeeps(s: State, lim: Limits, op: Op)
    requires Inv(s)
    ensures Inv(Step(s, lim, op))
  {
    match op {
      case EnqueueOp(p, r) => EnqueueKeeps(s, lim, p, r);
      case PopOp(i) => if i < |s.queues| && s.queues[i] != [] { PopFrontKeeps(s, i); }
      case CancelOp(i) => if i < |s.queues| { CancelAllKeeps(s, i); }
    }
  }

  function Initial(threads: nat): State {
    State(map[], map[], seq(threads, i => []), map[])
  }

  lemma {:induction false} NothingQueued(queues: seq<seq<V3>>, p: V3)
    requires forall i :: 0 <= i < |queues| ==> queues[i] == []
    ensures Queued(queues, p) == 0
  {
    if queues != [] { NothingQueued(queues[..|queues| - 1], p); }
  }

  lemma InitialInv(threads: nat, lim: Limits)
    requires threads > 0
    ensures Inv(Initial(threads)) && WithinLimits(Initial(threads), lim)
  {
    var s := Initial(threads);
    forall p ensures Queued(s.queues, p) == 0 { NothingQueued(s.queues, p); }
    assert forall peer: u16 :: Requested(s, peer) == {};
  }

  /** The state after a run of atomic steps, in any interleaving of the server and the workers. */
  function Run(threads: nat, lim: Limits, ops: seq<Op>): (s: State)
    requires threads > 0
    ensures Inv(s)
  {
    if ops == [] then InitialInv(threads, lim); Initial(threads)
    else
      var before := Run(threads, lim, ops[..|ops| - 1]);
      StepKeeps(before, lim, ops[|ops| - 1]);
      Step(before, lim, ops[|ops| - 1])
  }

  /** With no forced request, every reachable state respects the limits, and every count is exact. */
  lemma {:induction false} UnforcedRunWithinLimits(threads: nat, lim: Limits, ops: seq<Op>)
    requires threads > 0 && forall k :: 0 <= k < |ops| && ops[k].EnqueueOp? ==> !IsForced(ops[k].request)
    ensures WithinLimits(Run(threads, lim, ops), lim)
    ensures forall peer: u16 :: Count(Run(threads, lim, ops), peer) == |Requested(Run(threads, lim, ops), peer)|
  {
    if ops == [] {
      InitialInv(threads, lim);
    } else {
      UnforcedRunWithinLimits(threads, lim, ops[..|ops| - 1]);
      StepWithin(Run(threads, lim, ops[..|ops| - 1]), lim, ops[|ops| - 1]);
    }
    CountsExact(Run(threads, lim, ops), lim);
  }

  /** So after a run without forced requests, the next one is accepted exactly when it is forced or there is room. */
  lemma UnforcedRunAccepts(threads: nat, lim: Limits, ops: seq<Op>, p: V3, r: Request)
    requires threads > 0 && forall k :: 0 <= k < |ops| && ops[k].EnqueueOp? ==> !IsForced(ops[k].request)
    ensures var s := Run(threads, lim, ops); Enqueue(s, lim, p, r).1 <==> HasFlag(r, 2) || HasRoom(s, lim, r)
  {
    UnforcedRunWithinLimits(threads, lim, ops);
    EnqueueAccepts(Run(threads, lim, ops), lim, p, r);
  }

  lemma StepWithin(s: State, lim: Limits, op: Op)
    requires Inv(s) && WithinLimits(s, lim) && (op.EnqueueOp? ==> !IsForced(op.request))
    ensures WithinLimits(Step(s, lim, op), lim)
  {
    match op {
      case EnqueueOp(p, r) => EnqueueWithin(s, lim, p, r);
      case PopOp(i) => if i < |s.queues| && s.queues[i] != [] { PopWithin(s, lim, i); }
      case CancelOp(i) => if i < |s.queues| { CancelWithin(s, lim, i); }
    }
  }

  /** The requests for a block that a run accepted since the block was last taken out of the queue. */
  function Since(threads: nat, lim: Limits, ops: seq<Op>, p: V3): seq<Request>
    requires threads > 0
  {
    if ops == [] then [] else
      var before, after := Run(threads, lim, ops[..|ops| - 1]), Run(threads, lim, ops);
      var earlier := Since(threads, lim, ops[..|ops| - 1], p);
      var op := ops[|ops| - 1];
      if op.EnqueueOp? && op.pos == p && Enqueue(before, lim, p, op.request).1 then earlier + [op.request]
      else if p in before.blocks && p !in after.blocks then []
      else earlier
  }

  function HistoryOf(s: State, p: V3): seq<Request> {
    if p in s.history then s.history[p] else []
  }

  /** In every reachable state a queued block's entry holds the flags and callbacks of exactly those requests. */
  lemma {:induction false} EntryCarriesRequests(threads: nat, lim: Limits, ops: seq<Op>, p: V3)
    requires threads > 0
    ensures var s, since := Run(threads, lim, ops), Since(threads, lim, ops, p);
            && (p in s.blocks <==> since != [])
            && (p in s.blocks ==> s.blocks[p] == Summary(since))
            && since == HistoryOf(s, p)
  {
    if ops != [] {
      var before := Run(threads, lim, ops[..|ops| - 1]);
      EntryCarriesRequests(threads, lim, ops[..|ops| - 1], p);
      HistoryStep(before, lim, ops[|ops| - 1], p);
    }
  }

  lemma HistoryStep(s: State, lim: Limits, op: Op, p: V3)
    requires Inv(s)
    ensures var t := Step(s, lim, op);
            HistoryOf(t, p) ==
              if op.EnqueueOp? && op.pos == p && Enqueue(s, lim, p, op.request).1 then HistoryOf(s, p) + [op.request]
              else if p in s.blocks && p !in t.blocks then []
              else HistoryOf(s, p)
  {
    StepKeeps(s, lim, op);
    hide Summary, Admits, CountsAgree, QueuesAgree, Optimal;
    match op {
      case EnqueueOp(q, r) => assert HistoryOf(s, q) == [] ==> [] + [r] == [r];
      case PopOp(i) => if i < |s.queues| && s.queues[i] != [] { PopFrontKeeps(s, i); }
      case CancelOp(i) => if i < |s.queues| { CancelHistory(s, i, p); }
    }
  }

  lemma {:induction false} CancelHistory(s: State, i: nat, p: V3)
    requires Inv(s) && i < |s.queues|
    ensures var t := CancelAll(s, i).0;
            && (p in t.history ==> p in s.history && t.history[p] == s.history[p])
            && (p in t.blocks ==> p in s.blocks) && Inv(t)
    decreases |s.queues[i]|
  {
    if s.queues[i] != [] {
      PopFrontKeeps(s, i);
      CancelHistory(PopFront(s, i).0, i, p);
    }
  }

  // ----- the program -----

  class EmergeManager {
    const lim: Limits
    var blocksEnqueued: map<V3, BlockEmergeData>
    var peerQueueCount: map<u16, u16>
    /** The block queue of each worker thread. */
    var blockQueues: seq<seq<V3>>
    ghost var history: map<V3, seq<Request>>

    ghost function AsState(): State
      reads this
    {
      State(blocksEnqueued, peerQueueCount, blockQueues, history)
    }

    ghost predicate Valid()
      reads this
    {
      Inv(AsState())
    }

    constructor (threads: nat, lim: Limits)
      requires threads > 0
      ensures this.lim == lim && AsState() == Initial(threads) && Valid()
    {
      this.lim := lim;
      blocksEnqueued, peerQueueCount, blockQueues, history := map[], map[], seq(threads, i => []), map[];
      new;
      InitialInv(threads, lim);
    }

    /** The limit checks, on the requesting peer's own counter. */
    method CheckLimits(countPeer: u16, r: Request) returns (admitted: bool)
      requires countPeer == Count(AsState(), r.peer)
      ensures admitted == Admits(AsState(), lim, r)
    {
      if r.flags & BLOCK_EMERGE_FORCE_QUEUE == 0 {
        if |blocksEnqueued| >= lim.total { return false; }
        if r.peer != PEER_ID_INEXISTENT {
          var qlimitPeer := if r.flags & BLOCK_EMERGE_ALLOW_GEN != 0 then lim.generate else lim.diskonly;
          if countPeer >= qlimitPeer { return false; }
        } else {
          // active blocks may take up no more than half the queue
          if countPeer * 2 >= lim.total { return false; }
        }
      }
      admitted := true;
    }

    /** Creates the entry or joins the one that is there; only a creation counts for the peer. */
    method InsertOrJoin(pos: V3, r: Request) returns (entryAlreadyExists: bool)
      requires pos in blocksEnqueued ==> pos in history
      requires r.peer in peerQueueCount
      modifies this
      ensures entryAlreadyExists == (pos in old(blocksEnqueued)) && AsState() == Push(old(AsState()), pos, r)
    {
      entryAlreadyExists := pos in blocksEnqueued;
      if entryAlreadyExists {
        var d := blocksEnqueued[pos];
        blocksEnqueued := blocksEnqueued[pos := d.(flags := d.flags | r.flags,
            callbacks := d.callbacks + Callbacks(r))];
        history := history[pos := history[pos] + [r]];
      } else {
        blocksEnqueued := blocksEnqueued[pos := BlockEmergeData(r.peer, r.flags, Callbacks(r))];
        peerQueueCount := peerQueueCount[r.peer := Increment(peerQueueCount[r.peer])];
        history := history[pos := [r]];
      }
    }

    method PushBlockEmergeData(pos: V3, r: Request) returns (ok: bool, entryAlreadyExists: bool)
      requires Valid()
      modifies this
      ensures ok == Admits(old(AsState()), lim, r) && entryAlreadyExists == (ok && pos in old(blocksEnqueued))
      ensures AsState() == if ok then Push(Touch(old(AsState()), r.peer), pos, r) else Touch(old(AsState()), r.peer)
    {
      ghost var s := AsState();
      var countPeer: u16 := if r.peer in peerQueueCount then peerQueueCount[r.peer] else 0;
      ok := CheckLimits(countPeer, r);
      peerQueueCount := peerQueueCount[r.peer := countPeer];
      assert AsState() == Touch(s, r.peer);
      entryAlreadyExists := false;
      if ok { entryAlreadyExists := InsertOrJoin(pos, r); }
    }

    method GetOptimalThread() returns (index: nat)
      requires blockQueues != []
      ensures index == Optimal(blockQueues) && index < |blockQueues|
    {
      index := 0;
      var nitemsLowest := |blockQueues[0]|;
      for i := 1 to |blockQueues|
        invariant index < i && index == Optimal(blockQueues[..i]) && nitemsLowest == |blockQueues[index]|
      {
        assert blockQueues[..i + 1][..i] == blockQueues[..i];
        var nitems := |blockQueues[i]|;
        if nitems < nitemsLowest { index, nitemsLowest := i, nitems; }
      }
      assert blockQueues[..|blockQueues|] == blockQueues;
    }

    method EnqueueBlockEmergeEx(pos: V3, r: Request) returns (ok: bool)
      requires Valid()
      modifies this
      ensures Valid() && (AsState(), ok) == Enqueue(old(AsState()), lim, pos, r)
      ensures |old(blocksEnqueued)| < 0x1_0000 ==> (ok <==> HasFlag(r, 2) || HasRoom(old(AsState()), lim, r))
    {
      EnqueueKeeps(AsState(), lim, pos, r);
      EnqueueAcceptsNow(AsState(), lim, pos, r);
      hide Inv, HasRoom, HasFlag, Admits, Push, Count;
      var exists_;
      ok, exists_ := PushBlockEmergeData(pos, r);
      if !ok || exists_ { return; }
      var i := GetOptimalThread();
      blockQueues := blockQueues[i := blockQueues[i] + [pos]];
    }

    method PopBlockEmergeData(pos: V3) returns (d: Option<BlockEmergeData>)
      modifies this
      ensures (AsState(), d) == PopData(old(AsState()), pos)
    {
      if pos !in blocksEnqueued { return None; }
      var bedata := blocksEnqueued[pos];
      if bedata.peerRequested !in peerQueueCount { return None; }
      peerQueueCount := peerQueueCount[bedata.peerRequested := Decrement(peerQueueCount[bedata.peerRequested])];
      blocksEnqueued := blocksEnqueued - {pos};
      history := history - {pos};
      d := Some(bedata);
    }

    /** A worker takes its next block; the entry is always there, with everything that was asked for. */
    method PopBlockEmerge(thread: nat) returns (r: Option<Popped>)
      requires Valid() && thread < |blockQueues|
      modifies this
      ensures Valid()
      ensures if old(blockQueues[thread]) == [] then r == None && AsState() == old(AsState())
              else (AsState(), r) == (PopFront(old(AsState()), thread).0, Some(PopFront(old(AsState()), thread).1))
                   && IsAnswered(old(AsState()), r.value)
    {
      if blockQueues[thread] == [] { return None; }
      PopFrontKeeps(AsState(), thread);
      var pos := blockQueues[thread][0];
      blockQueues := blockQueues[thread := blockQueues[thread][1..]];
      var d := PopBlockEmergeData(pos);
      r := Some(Popped(pos, d));
    }

    /** A stopping worker completes every block in its queue as cancelled. */
    method CancelPendingItems(thread: nat) returns (cancelled: seq<Popped>)
      requires Valid() && thread < |blockQueues|
      modifies this
      ensures Valid() && (AsState(), cancelled) == CancelAll(old(AsState()), thread)
    {
      cancelled := [];
      ghost var start := AsState();
      assert cancelled + CancelAll(start, thread).1 == CancelAll(start, thread).1;
      while blockQueues[thread] != []
        invariant Valid() && thread < |blockQueues|
        invariant CancelFrom(AsState(), thread, cancelled) == CancelAll(start, thread)
        decreases |blockQueues[thread]|
      {
        ghost var before := AsState();
        PopFrontKeeps(before, thread);
        CancelOne(before, thread, cancelled);
        var r := PopBlockEmerge(thread);
        cancelled := cancelled + [r.value];
      }
      assert cancelled + [] == cancelled;
    }
  }
}
