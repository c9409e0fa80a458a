/**
 * A player's request to move items from one slot to another, as the server carries it out: ask the callbacks, limit
 * the count, then move or swap.
 */
module MoveActions {
  import opened InventoryListClass
  import opened InventoryLists
  import opened InventoryMoves
  import opened ItemStacks
  import opened MachineIntegers
  import opened OfferWalk
  import opened Options

  /**
   * What the "allow" callbacks answer during one request: to a move inside an inventory and to the opposite move of a
   * swap; to a put and a take between inventories and to those of a swap. An answer is a number of items.
   */
  datatype Answers = Answers(move: nat, moveBack: nat, put: nat, take: nat, putBack: nat, takeBack: nat)

  /** The items asked for: all of the stack when `count` is 0 or more than there are. */
  function Asked(src: ItemStack, count: u16): ItemStack {
    if 0 < count < src.count then src.(count := count) else src
  }

  /** What the request comes to before anything is moved. */
  datatype Plan =
    | NoSource
    | DoesNotFit
    | Refused
    | Go(count: u16, allowSwap: bool)

  /** Nothing fits, so that only a swap would help. */
  predicate WantsSwap(src: ItemStack, dst: ItemStack, count: u16, caused: bool, max: StackMax) {
    var (fits, rest) := ItemFits(dst, Asked(src, count), max);
    !fits && rest.count == Asked(src, count).count && !caused
  }

  /** How many items the request could move if it did not swap. */
  function Fitting(src: ItemStack, dst: ItemStack, count: u16, max: StackMax): int {
    Asked(src, count).count - ItemFits(dst, Asked(src, count), max).1.count
  }

  /** The limits on both ends, and whether a wanted swap is allowed; a refused swap moves nothing. */
  function Limits(srcCount: u16, dstCount: u16, wantsSwap: bool, sameInventory: bool, ans: Answers): (nat, nat, bool) {
    if sameInventory then
      var swap := wantsSwap && ans.move >= srcCount;
      var dstCan := if swap then ans.moveBack else ans.move;
      var allowed := swap && dstCan >= dstCount;
      if wantsSwap != allowed then (0, 0, allowed) else (ans.move, dstCan, allowed)
    else
      var swap := wantsSwap && ans.take >= srcCount && ans.put >= srcCount;
      var allowed := swap && ans.putBack >= dstCount && ans.takeBack >= dstCount;
      if wantsSwap != allowed then (0, 0, allowed) else (ans.take, ans.put, allowed)
  }

  function MakePlan(src: ItemStack, dst: ItemStack, count: u16, caused: bool, sameInventory: bool, ans: Answers,
                    max: StackMax): Plan {
    var item := Asked(src, count);
    if IsEmpty(item) then NoSource
    else if caused && Fitting(src, dst, count, max) == 0 then DoesNotFit
    else
      var wants := WantsSwap(src, dst, count, caused, max);
      // a swap is of the stack as a whole, even if part of it was asked for
      var n := if wants then src.count else item.count;
      var (srcCan, dstCan, allowSwap) := Limits(n, dst.count, wants, sameInventory, ans);
      var limited := Min(Min(Min(n, srcCan), dstCan), src.count);
      if limited == 0 then Refused else Go(limited, allowSwap)
  }

  // ----- what a plan promises -----

  /** A swap goes ahead only if nothing fitted and every callback allows the whole stack of its direction. */
  predicate SwapAllowed(src: ItemStack, dst: ItemStack, sameInventory: bool, ans: Answers) {
    if sameInventory then ans.move >= src.count && ans.moveBack >= dst.count
    else ans.take >= src.count && ans.put >= src.count && ans.putBack >= dst.count && ans.takeBack >= dst.count
  }

  /** What both callbacks allow for a move that is not a swap. */
  function Allowed(sameInventory: bool, ans: Answers): nat {
    if sameInventory then ans.move else Min(ans.take, ans.put)
  }

  lemma PlanMeaning(src: ItemStack, dst: ItemStack, count: u16, caused: bool, sameInventory: bool, ans: Answers,
                    max: StackMax)
    requires !IsEmpty(src)
    ensures var plan := MakePlan(src, dst, count, caused, sameInventory, ans, max);
            var wants := Room(dst, KindOf(src), max) == 0 && !caused;
            if caused && Room(dst, KindOf(src), max) == 0 then plan == DoesNotFit
            else if wants then
              plan == if SwapAllowed(src, dst, sameInventory, ans) then Go(SwapCount(src, sameInventory, ans), true)
                  else Refused
            else
              var n := Min(AskedFor(src, count), Allowed(sameInventory, ans));
              plan == if n == 0 then Refused else Go(n, false)
  {
    AddLeftover(dst, Asked(src, count), max);
    FitsPredictsAdd(dst, Asked(src, count), max);
  }

  /** The count passed on with a swap; inside one inventory the answer to the opposite move limits it, too. */
  function SwapCount(src: ItemStack, sameInventory: bool, ans: Answers): nat {
    if sameInventory then Min(src.count, ans.moveBack) else src.count
  }

  /** The request names two slots, and the callbacks allow none of what it could move. */
  ghost predicate IsRefused(w: World, b: nat, fromI: nat, r: Request, sameInventory: bool, ans: Answers,
                            max: StackMax) {
    && b < |w| && HasSlot(w, fromI) && 0 <= ToU16(r.toI) < |w[b]|
    && MakePlan(w[0][fromI], w[b][ToU16(r.toI)], r.count, r.caused, sameInventory, ans, max).Refused?
  }

  // ----- what is moved -----

  function ApplySlots(src: ItemStack, dst: ItemStack, plan: Plan, max: StackMax): SlotMove {
    if plan.Go? then MoveSlots(src, dst, plan.count, plan.allowSwap, max) else SlotMove(src, dst, 0, false, 0)
  }

  /** A swap exchanges the stacks whole, and happens exactly when it was wanted and allowed. */
  lemma SwapMeaning(src: ItemStack, dst: ItemStack, count: u16, caused: bool, sameInventory: bool, ans: Answers,
                    max: StackMax)
    requires !IsEmpty(src) && IsOk(src, max)
    ensures var plan := MakePlan(src, dst, count, caused, sameInventory, ans, max);
            var m := ApplySlots(src, dst, plan, max);
            && (m.didSwap <==> Room(dst, KindOf(src), max) == 0 && !caused && SwapAllowed(src, dst, sameInventory, ans))
            && (m.didSwap ==>
                  && m.src == dst && m.dst == src
                  && m.count == ToU32(SwapCount(src, sameInventory, ans) - src.count))
            && (plan.Go? ==> plan.allowSwap == m.didSwap)
  {
    PlanMeaning(src, dst, count, caused, sameInventory, ans, max);
    var plan := MakePlan(src, dst, count, caused, sameInventory, ans, max);
    if plan.Go? { SlotsMeaning(src, dst, plan.count, plan.allowSwap, max); }
  }

  /** Without a swap, exactly as much is moved as was asked for, is allowed and fits. */
  lemma MoveMeaning(src: ItemStack, dst: ItemStack, count: u16, caused: bool, sameInventory: bool, ans: Answers,
                    max: StackMax)
    requires !IsEmpty(src) && IsOk(src, max)
    ensures var plan := MakePlan(src, dst, count, caused, sameInventory, ans, max);
            var m := ApplySlots(src, dst, plan, max);
            !m.didSwap ==>
              && m.count == Min(Min(AskedFor(src, count), Allowed(sameInventory, ans)), Room(dst, KindOf(src), max))
              && IsMoved(src, dst, m)
  {
    PlanMeaning(src, dst, count, caused, sameInventory, ans, max);
    var plan := MakePlan(src, dst, count, caused, sameInventory, ans, max);
    SwapMeaning(src, dst, count, caused, sameInventory, ans, max);
    if plan.Go? { SlotsMeaning(src, dst, plan.count, plan.allowSwap, max); }
  }

  /** `m.count` items went from one slot to the other; the stacks are otherwise as they were. */
  predicate IsMoved(src: ItemStack, dst: ItemStack, m: SlotMove) {
    && m.count <= src.count && (!IsEmpty(dst) ==> dst.count + m.count < 0x1_0000)
    && m.src == Shrunk(src, m.count) && m.dst == Grown(dst, src, m.count)
    && (m.count > 0 && !IsEmpty(dst) ==> KindOf(dst) == KindOf(src))
  }

  // ----- the request as a whole -----

  /** The fields a request changes while it runs. */
  datatype Request = Request(count: u16, toI: int, moveCount: nat, caused: bool)

  /** List 0 is the source; the destination's place is `b`. A destination index just past the end is asserted away. */
  predicate IsCallable(w: World, b: nat, fromI: nat, r: Request) {
    && 0 < |w| && b < |w| && fromI < |w[0]| && -0x8000 <= r.toI < 0x8000
    && ToU16(r.toI) != |w[b]|
  }

  function RequestPlain(w: World, b: nat, fromI: nat, r: Request, sameInventory: bool, ans: Answers,
                        max: StackMax): (World, Request)
    requires IsCallable(w, b, fromI, r)
  {
    if ToU16(r.toI) > |w[b]| then (w, r)
    else
      var j := ToU16(r.toI);
      match MakePlan(w[0][fromI], w[b][j], r.count, r.caused, sameInventory, ans, max)
      case NoSource => (w, r)
      case DoesNotFit => (w, r.(moveCount := 0))
      case Refused =>
          (w, r.(count := 0, moveCount := if r.caused then 0 else Fitting(w[0][fromI], w[b][j], r.count, max)))
      case Go(n, swap) =>
        var m := MoveItem(w, 0, fromI, b, j, n, swap, max);
        (m.world, r.(count := if r.caused then r.count else n, moveCount := m.count))
  }

  /** Whether carrying out the plan exchanges two stacks. */
  predicate Swaps(w: World, b: nat, fromI: nat, r: Request, sameInventory: bool, ans: Answers, max: StackMax)
    requires IsCallable(w, b, fromI, r) && ToU16(r.toI) < |w[b]|
  {
    var j := ToU16(r.toI);
    var plan := MakePlan(w[0][fromI], w[b][j], r.count, r.caused, sameInventory, ans, max);
    plan.Go? && MoveItem(w, 0, fromI, b, j, plan.count, plan.allowSwap, max).didSwap
  }

  /** A plain request between two different slots does to them what the plan says, and to no other slot anything. */
  lemma PlainIsSlots(w: World, b: nat, fromI: nat, r: Request, sameInventory: bool, ans: Answers, max: StackMax)
    requires IsCallable(w, b, fromI, r) && 0 <= r.toI && AreSlots(w, 0, fromI, b, r.toI)
    ensures var src, dst := w[0][fromI], w[b][r.toI];
            var m := ApplySlots(src, dst, MakePlan(src, dst, r.count, r.caused, sameInventory, ans, max), max);
            && RequestPlain(w, b, fromI, r, sameInventory, ans, max).0 == Two(w, 0, fromI, b, r.toI, m.src, m.dst)
            && Swaps(w, b, fromI, r, sameInventory, ans, max) == m.didSwap
  {
    var plan := MakePlan(w[0][fromI], w[b][r.toI], r.count, r.caused, sameInventory, ans, max);
    hide MakePlan, MoveItem, MoveSlots, Two, Fitting;
    TwoSlots(w, 0, fromI, b, r.toI, w[0][fromI], w[b][r.toI]);
    if plan.Go? { MoveIsSlots(w, 0, fromI, b, r.toI, plan.count, plan.allowSwap, max); }
  }

  /**
   * What a plain request reports that names an existing slot: how many items it moved, and in `count` how many it set
   * out to move. It reports nothing new if there was nothing to move.
   */
  lemma PlainReports(w: World, b: nat, fromI: nat, r: Request, sameInventory: bool, ans: Answers, max: StackMax)
    requires IsCallable(w, b, fromI, r) && 0 <= r.toI && AreSlots(w, 0, fromI, b, r.toI) && !r.caused
        && IsOk(w[0][fromI], max)
    ensures var src, dst := w[0][fromI], w[b][r.toI];
            var (v, r') := RequestPlain(w, b, fromI, r, sameInventory, ans, max);
            var room := Room(dst, KindOf(src), max);
            var n := Min(AskedFor(src, r.count), Allowed(sameInventory, ans));
            if IsEmpty(src) then r' == r
            else if room == 0 then
              if SwapAllowed(src, dst, sameInventory, ans) then r'.count == SwapCount(src, sameInventory, ans)
              else r' == r.(count := 0, moveCount := 0)
            else r' == r.(count := n, moveCount := Min(if n == 0 then AskedFor(src, r.count) else n, room))
  {
    var src, dst := w[0][fromI], w[b][r.toI];
    if !IsEmpty(src) {
      PlanMeaning(src, dst, r.count, r.caused, sameInventory, ans, max);
      AddLeftover(dst, Asked(src, r.count), max);
      FitsPredictsAdd(dst, Asked(src, r.count), max);
      var plan := MakePlan(src, dst, r.count, r.caused, sameInventory, ans, max);
      hide MakePlan, MoveItem, MoveSlots;
      if plan.Go? {
        MoveIsSlots(w, 0, fromI, b, r.toI, plan.count, plan.allowSwap, max);
        SlotsMeaning(src, dst, plan.count, plan.allowSwap, max);
      }
    }
  }

  /** The plan is carried out, and it then turns out that a swap was meant but not made, or made but not meant. */
  predicate SwapAssertionFails(w: World, b: nat, fromI: nat, r: Request, sameInventory: bool, ans: Answers,
                               max: StackMax)
    requires IsCallable(w, b, fromI, r) && 0 <= r.toI < |w[b]|
  {
    var plan := MakePlan(w[0][fromI], w[b][r.toI], r.count, r.caused, sameInventory, ans, max);
    plan.Go? && Swaps(w, b, fromI, r, sameInventory, ans, max) != plan.allowSwap
  }

  /**
   * The program asserts at the end that it swapped exactly when it meant to. That fails exactly when a full stack is
   * moved onto itself by a plain request and the callbacks allow the swap.
   */
  lemma SwapAssertion(w: World, b: nat, fromI: nat, r: Request, sameInventory: bool, ans: Answers, max: StackMax)
    requires IsCallable(w, b, fromI, r) && 0 <= r.toI < |w[b]|
    ensures var src := w[0][fromI];
            SwapAssertionFails(w, b, fromI, r, sameInventory, ans, max) <==>
              && b == 0 && fromI == r.toI && !r.caused
              && !IsEmpty(src) && FreeSpace(src, max) == 0 && SwapAllowed(src, src, sameInventory, ans)
  {
    var src, dst := w[0][fromI], w[b][r.toI];
    if !IsEmpty(src) {
      PlanMeaning(src, dst, r.count, r.caused, sameInventory, ans, max);
      var plan := MakePlan(src, dst, r.count, r.caused, sameInventory, ans, max);
      if plan.Go? && !(b == 0 && fromI == r.toI) {
        MoveIsSlots(w, 0, fromI, b, r.toI, plan.count, plan.allowSwap, max);
        AddLeftover(dst, Take(src, plan.count).1, max);
      }
    }
  }

  const STONES := ItemStack("stone", 99, 0, map[])
  const WILLING := Answers(0xFFFF, 0xFFFF, 0xFFFF, 0xFFFF, 0xFFFF, 0xFFFF)

  /** A full stack of 99 stone moved onto itself: a swap is meant, and none is made. */
  lemma FullStackOntoItself(max: StackMax)
    requires max("stone") == 99
    ensures MakePlan(STONES, STONES, 99, false, true, WILLING, max) == Go(99, true)
    ensures SwapAssertionFails([[STONES]], 0, 0, Request(99, 0, 0, false), true, WILLING, max)
  {
    SwapAssertion([[STONES]], 0, 0, Request(99, 0, 0, false), true, WILLING, max);
  }

  /** A request conserves every kind, whatever the callbacks answer. */
  lemma PlainConserves(w: World, b: nat, fromI: nat, r: Request, sameInventory: bool, ans: Answers, max: StackMax,
                       k: Kind)
    requires IsCallable(w, b, fromI, r) && IsOk(w[0][fromI], max)
    ensures Total(RequestPlain(w, b, fromI, r, sameInventory, ans, max).0, k) == Total(w, k)
  {
    if ToU16(r.toI) < |w[b]| {
      var j := ToU16(r.toI);
      var plan := MakePlan(w[0][fromI], w[b][j], r.count, r.caused, sameInventory, ans, max);
      hide MakePlan, MoveItem, Total, Fitting;
      if plan.Go? { MoveConserves(w, 0, fromI, b, j, plan.count, plan.allowSwap, max, k); }
    }
  }

  // ----- moving somewhere -----

  /** Each turn of the loops has its own answers: for the pass over slots in use or empty slots, and the slot. */
  type AnswersAt = (bool, nat) -> Answers

  /** The last list is the destination; it is the source itself when there is only one. */
  predicate HasSlot(w: World, fromI: nat) {
    1 <= |w| <= 2 && fromI < |w[0]| && |w[|w| - 1]| < 0x8000
  }

  /** One loop of "move somewhere" from slot `j` on; also adds up what its requests moved. */
  function Fill(w: World, fromI: nat, r: Request, j: nat, intoEmpty: bool, sameInventory: bool, ans: AnswersAt,
                max: StackMax): (World, Request, nat)
    requires HasSlot(w, fromI)
    decreases |w[|w| - 1]| - j
  {
    var b := |w| - 1;
    if j >= |w[b]| || r.count == 0 then (w, r, 0)
    else if IsEmpty(w[b][j]) != intoEmpty then Fill(w, fromI, r, j + 1, intoEmpty, sameInventory, ans, max)
    else
      var (w1, r1) := RequestPlain(w, b, fromI, r.(toI := j), sameInventory, ans(intoEmpty, j), max);
      PlainShape(w, b, fromI, r.(toI := j), sameInventory, ans(intoEmpty, j), max);
      var (w2, r2, total) := Fill(w1, fromI, Deducted(r1), j + 1, intoEmpty, sameInventory, ans, max);
      (w2, r2, MovedBy(w, fromI, j, r1) + total)
  }

  /** After each of its requests a loop takes what was moved off the count, in 16 bits. */
  function Deducted(r: Request): Request {
    r.(count := ToU16(r.count - r.moveCount))
  }

  /**
   * What one of the requests moved to another slot. From an empty slot that is nothing, though `moveCount` is then left
   * as the request before set it; onto the source slot itself it is nothing, though `moveCount` then says otherwise.
   */
  function MovedBy(w: World, fromI: nat, j: nat, r1: Request): nat
    requires HasSlot(w, fromI)
  {
    if IsEmpty(w[0][fromI]) || (|w| == 1 && j == fromI) then 0 else r1.moveCount
  }

  /** No request changes the number of lists or slots. */
  lemma PlainShape(w: World, b: nat, fromI: nat, r: Request, sameInventory: bool, ans: Answers, max: StackMax)
    requires IsCallable(w, b, fromI, r) && 0 <= r.toI < |w[b]|
    ensures var v := RequestPlain(w, b, fromI, r, sameInventory, ans, max).0;
            |v| == |w| && forall a :: 0 <= a < |w| ==> |v[a]| == |w[a]|
  {
    if AreSlots(w, 0, fromI, b, r.toI) {
      hide RequestPlain;
      PlainIsSlots(w, b, fromI, r, sameInventory, ans, max);
    }
  }

  /** The loops' state; the source stack is within its maximum. */
  predicate IsFilling(w: World, fromI: nat, r: Request, max: StackMax) {
    HasSlot(w, fromI) && r.caused && IsOk(w[0][fromI], max)
  }

  /** From `w` to `v`, the source slot lost `n` items to the destination's other slots; no list lost or gained any. */
  predicate HasMoved(w: World, v: World, fromI: nat, n: nat, k: Kind)
    requires HasSlot(w, fromI)
  {
    && |v| == |w| && |v[0]| == |w[0]| && |v[|w| - 1]| == |w[|w| - 1]|
    && v[0][fromI].count + n == w[0][fromI].count
    && (v[0][fromI].count > 0 ==> KindOf(v[0][fromI]) == KindOf(w[0][fromI]))
    && Total(v, k) == Total(w, k)
    && (|w| == 2 ==>
          && v[0] == w[0][fromI := v[0][fromI]]
          && Tally(v[1], k) == Tally(w[1], k) + if k == KindOf(w[0][fromI]) then n else 0)
  }

  /** One request of the loops moves no more than is left to move and no more than its callbacks allow. */
  lemma FillStep(w: World, fromI: nat, r: Request, j: nat, sameInventory: bool, ans: Answers, max: StackMax, k: Kind)
    requires IsFilling(w, fromI, r, max) && r.count > 0 && j < |w[|w| - 1]|
    ensures var (v, r1) := RequestPlain(w, |w| - 1, fromI, r.(toI := j), sameInventory, ans, max);
            && (if IsEmpty(w[0][fromI]) then (v, r1) == (w, r.(toI := j))
                else r1.moveCount <= r1.count <= r.count && r1.moveCount <= Allowed(sameInventory, ans))
            && HasMoved(w, v, fromI, MovedBy(w, fromI, j, r1), k)
            && IsFilling(v, fromI, Deducted(r1), max)
  {
    var b := |w| - 1;
    if IsEmpty(w[0][fromI]) {
      assert w[0][fromI := w[0][fromI]] == w[0];
    } else if |w| == 1 && j == fromI {
      StepOntoItself(w, fromI, r, sameInventory, ans, max, k);
    } else {
      hide MakePlan, Fitting, Tally, Total, ApplySlots, Two;
      PlainConserves(w, |w| - 1, fromI, r.(toI := j), sameInventory, ans, max, k);
      StepBetween(w, fromI, r, j, sameInventory, ans, max, k);
    }
  }

  lemma StepOntoItself(w: World, fromI: nat, r: Request, sameInventory: bool, ans: Answers, max: StackMax, k: Kind)
    requires IsFilling(w, fromI, r, max) && r.count > 0 && |w| == 1 && !IsEmpty(w[0][fromI])
    ensures var (v, r1) := RequestPlain(w, 0, fromI, r.(toI := fromI), sameInventory, ans, max);
            && r1.moveCount <= r1.count <= r.count && r1.moveCount <= Allowed(sameInventory, ans)
            && v == w && r1.caused
  {
    hide MakePlan, Fitting, Tally, Total;
    PlanMeaning(w[0][fromI], w[0][fromI], r.count, true, sameInventory, ans, max);
  }

  lemma StepBetween(w: World, fromI: nat, r: Request, j: nat, sameInventory: bool, ans: Answers, max: StackMax, k: Kind)
    requires IsFilling(w, fromI, r, max) && r.count > 0 && AreSlots(w, 0, fromI, |w| - 1, j) && !IsEmpty(w[0][fromI])
    ensures var src, dst := w[0][fromI], w[|w| - 1][j];
            var (v, r1) := RequestPlain(w, |w| - 1, fromI, r.(toI := j), sameInventory, ans, max);
            var plan := MakePlan(src, dst, r.count, true, sameInventory, ans, max);
            var m := ApplySlots(src, dst, plan, max);
            && v == Two(w, 0, fromI, |w| - 1, j, m.src, m.dst) && !m.didSwap && IsMoved(src, dst, m)
            && r1 == r.(toI := j, moveCount := m.count, count := if plan.Refused? then 0 else r.count)
            && m.count <= Min(r.count, Allowed(sameInventory, ans))
            && AreSlots(v, 0, fromI, |w| - 1, j) && v[0][fromI] == m.src && v[|w| - 1][j] == m.dst
            && (|w| == 2 ==>
                  && v[0] == w[0][fromI := m.src] && v[1] == w[1][j := m.dst]
                  && Tally(v[1], k) == Tally(w[1], k) + if k == KindOf(src) then m.count else 0)
  {
    var b := |w| - 1;
    var src, dst := w[0][fromI], w[b][j];
    var plan := MakePlan(src, dst, r.count, true, sameInventory, ans, max);
    var m := ApplySlots(src, dst, plan, max);
    PlainIsSlots(w, b, fromI, r.(toI := j), sameInventory, ans, max);
    SwapMeaning(src, dst, r.count, true, sameInventory, ans, max);
    MoveMeaning(src, dst, r.count, true, sameInventory, ans, max);
    PlanMeaning(src, dst, r.count, true, sameInventory, ans, max);
    if plan.Go? { MoveIsSlots(w, 0, fromI, b, j, plan.count, plan.allowSwap, max); }
    hide MakePlan, ApplySlots, MoveItem, Fitting;
    TwoSlots(w, 0, fromI, b, j, m.src, m.dst);
    if |w| == 2 { TallyUpdate(w[1], j, m.dst, k); }
  }

  lemma MovedTwice(w: World, v: World, u: World, fromI: nat, m: nat, n: nat, k: Kind)
    requires HasSlot(w, fromI) && HasMoved(w, v, fromI, m, k) && HasMoved(v, u, fromI, n, k)
    ensures HasMoved(w, u, fromI, m + n, k)
  {
    if |w| == 2 { assert w[0][fromI := v[0][fromI]][fromI := u[0][fromI]] == w[0][fromI := u[0][fromI]]; }
  }

  /**
   * One loop of "move somewhere" moves the sum of what its requests move, and no more than was left to move. As long as
   * no more is to move than the source has, that stays so.
   */
  lemma {:induction false} FillMeaning(w: World, fromI: nat, r: Request, j: nat, intoEmpty: bool, sameInventory: bool,
                                       ans: AnswersAt, max: StackMax, k: Kind)
    requires IsFilling(w, fromI, r, max)
    ensures var (v, r', total) := Fill(w, fromI, r, j, intoEmpty, sameInventory, ans, max);
            && HasMoved(w, v, fromI, total, k) && IsFilling(v, fromI, r', max) && total <= r.count
            && (r.count <= w[0][fromI].count ==> total + r'.count <= r.count && r'.count <= v[0][fromI].count)
    decreases |w[|w| - 1]| - j, 0
  {
    if j >= |w[|w| - 1]| || r.count == 0 {
      assert w[0][fromI := w[0][fromI]] == w[0];
    } else if IsEmpty(w[|w| - 1][j]) != intoEmpty {
      FillMeaning(w, fromI, r, j + 1, intoEmpty, sameInventory, ans, max, k);
    } else {
      FillMeaningHere(w, fromI, r, j, intoEmpty, sameInventory, ans, max, k);
    }
  }

  lemma {:induction false} FillMeaningHere(w: World, fromI: nat, r: Request, j: nat, intoEmpty: bool,
                                           sameInventory: bool, ans: AnswersAt, max: StackMax, k: Kind)
    requires IsFilling(w, fromI, r, max) && r.count > 0 && j < |w[|w| - 1]| && IsEmpty(w[|w| - 1][j]) == intoEmpty
    ensures var (v, r', total) := Fill(w, fromI, r, j, intoEmpty, sameInventory, ans, max);
            && HasMoved(w, v, fromI, total, k) && IsFilling(v, fromI, r', max) && total <= r.count
            && (r.count <= w[0][fromI].count ==> total + r'.count <= r.count && r'.count <= v[0][fromI].count)
    decreases |w[|w| - 1]| - j - 1, 1
  {
    hide RequestPlain, Tally, Total, Allowed;
    var a := ans(intoEmpty, j);
    var (w1, r1) := RequestPlain(w, |w| - 1, fromI, r.(toI := j), sameInventory, a, max);
    FillStep(w, fromI, r, j, sameInventory, a, max, k);
    FillMeaning(w1, fromI, Deducted(r1), j + 1, intoEmpty, sameInventory, ans, max, k);
    var (u, _, total) := Fill(w1, fromI, Deducted(r1), j + 1, intoEmpty, sameInventory, ans, max);
    MovedTwice(w, w1, u, fromI, MovedBy(w, fromI, j, r1), total, k);
  }

  lemma {:induction false} FillShape(w: World, fromI: nat, r: Request, j: nat, intoEmpty: bool, sameInventory: bool,
                                     ans: AnswersAt, max: StackMax)
    requires HasSlot(w, fromI)
    ensures var v := Fill(w, fromI, r, j, intoEmpty, sameInventory, ans, max).0;
            |v| == |w| && |v[0]| == |w[0]| && |v[|w| - 1]| == |w[|w| - 1]|
    decreases |w[|w| - 1]| - j
  {
    hide RequestPlain;
    var b := |w| - 1;
    if j < |w[b]| && r.count > 0 {
      if IsEmpty(w[b][j]) != intoEmpty {
        FillShape(w, fromI, r, j + 1, intoEmpty, sameInventory, ans, max);
      } else {
        var (w1, r1) := RequestPlain(w, b, fromI, r.(toI := j), sameInventory, ans(intoEmpty, j), max);
        PlainShape(w, b, fromI, r.(toI := j), sameInventory, ans(intoEmpty, j), max);
        FillShape(w1, fromI, Deducted(r1), j + 1, intoEmpty, sameInventory, ans, max);
      }
    }
  }

  /** Slots in use first, then the empty ones. */
  function FillBoth(w: World, fromI: nat, r: Request, sameInventory: bool, ans: AnswersAt,
                    max: StackMax): (World, Request, nat)
    requires HasSlot(w, fromI)
  {
    var (w1, r1, n1) := Fill(w, fromI, r, 0, false, sameInventory, ans, max);
    FillShape(w, fromI, r, 0, false, sameInventory, ans, max);
    var (w2, r2, n2) := Fill(w1, fromI, r1, 0, true, sameInventory, ans, max);
    (w2, r2, n1 + n2)
  }

  /** Both loops; the request's own fields are put back at the end. */
  function MoveSomewhere(w: World, fromI: nat, r: Request, sameInventory: bool, ans: AnswersAt,
                         max: StackMax): (World, Request, nat)
    requires HasSlot(w, fromI)
  {
    var (v, r', total) := FillBoth(w, fromI, r.(caused := true), sameInventory, ans, max);
    (v, r.(moveCount := r'.moveCount), total)
  }

  /**
   * "Move somewhere", within one list or between two: the source slot loses exactly the sum of what its requests moved,
   * which is no more than was asked for, the destination gains as much, and the request is as it was but for
   * `moveCount`.
   */
  lemma MoveSomewhereMeaning(w: World, fromI: nat, r: Request, sameInventory: bool, ans: AnswersAt, max: StackMax,
                             k: Kind)
    requires HasSlot(w, fromI) && IsOk(w[0][fromI], max)
    ensures var (v, r', total) := MoveSomewhere(w, fromI, r, sameInventory, ans, max);
            && HasMoved(w, v, fromI, total, k) && total <= r.count
            && r' == r.(moveCount := r'.moveCount)
  {
    hide Fill, HasMoved;
    var (w1, r1, n1) := Fill(w, fromI, r.(caused := true), 0, false, sameInventory, ans, max);
    FillMeaning(w, fromI, r.(caused := true), 0, false, sameInventory, ans, max, k);
    var (w2, r2, n2) := Fill(w1, fromI, r1, 0, true, sameInventory, ans, max);
    FillMeaning(w1, fromI, r1, 0, true, sameInventory, ans, max, k);
    MovedTwice(w, w1, w2, fromI, n1, n2, k);
    MovedAtMost(w, w2, fromI, n1 + n2, k);
  }

  lemma MovedAtMost(w: World, v: World, fromI: nat, n: nat, k: Kind)
    requires HasSlot(w, fromI) && HasMoved(w, v, fromI, n, k)
    ensures n <= w[0][fromI].count
  {}

  // ----- the count that is left -----

  /** At every turn of a loop, no more is taken off the count than is left of it. */
  predicate Within(w: World, fromI: nat, r: Request, j: nat, intoEmpty: bool, sameInventory: bool, ans: AnswersAt,
                   max: StackMax)
    requires HasSlot(w, fromI)
    decreases |w[|w| - 1]| - j
  {
    var b := |w| - 1;
    if j >= |w[b]| || r.count == 0 then true
    else if IsEmpty(w[b][j]) != intoEmpty then Within(w, fromI, r, j + 1, intoEmpty, sameInventory, ans, max)
    else
      var (w1, r1) := RequestPlain(w, b, fromI, r.(toI := j), sameInventory, ans(intoEmpty, j), max);
      PlainShape(w, b, fromI, r.(toI := j), sameInventory, ans(intoEmpty, j), max);
      r1.moveCount <= r1.count && Within(w1, fromI, Deducted(r1), j + 1, intoEmpty, sameInventory, ans, max)
  }

  /** In both loops; in the first one the program asserts it. */
  predicate AllWithin(w: World, fromI: nat, r: Request, sameInventory: bool, ans: AnswersAt, max: StackMax)
    requires HasSlot(w, fromI)
  {
    && Within(w, fromI, r.(caused := true), 0, false, sameInventory, ans, max)
    && var (w1, r1, _) := Fill(w, fromI, r.(caused := true), 0, false, sameInventory, ans, max);
       FillShape(w, fromI, r.(caused := true), 0, false, sameInventory, ans, max);
       Within(w1, fromI, r1, 0, true, sameInventory, ans, max)
  }

  lemma {:induction false} FillWithin(w: World, fromI: nat, r: Request, j: nat, intoEmpty: bool, sameInventory: bool,
                                      ans: AnswersAt, max: StackMax)
    requires IsFilling(w, fromI, r, max) && r.count <= w[0][fromI].count
    ensures Within(w, fromI, r, j, intoEmpty, sameInventory, ans, max)
    decreases |w[|w| - 1]| - j
  {
    hide RequestPlain, Tally, Total, Allowed;
    var b := |w| - 1;
    if j < |w[b]| && r.count > 0 {
      if IsEmpty(w[b][j]) != intoEmpty {
        FillWithin(w, fromI, r, j + 1, intoEmpty, sameInventory, ans, max);
      } else {
        var (w1, r1) := RequestPlain(w, b, fromI, r.(toI := j), sameInventory, ans(intoEmpty, j), max);
        FillStep(w, fromI, r, j, sameInventory, ans(intoEmpty, j), max, KindOf(EMPTY));
        FillWithin(w1, fromI, Deducted(r1), j + 1, intoEmpty, sameInventory, ans, max);
      }
    }
  }

  /** Asked for no more than the source has, within one list or between two, the count never runs short. */
  lemma SmallRequestWithin(w: World, fromI: nat, r: Request, sameInventory: bool, ans: AnswersAt, max: StackMax)
    requires HasSlot(w, fromI) && IsOk(w[0][fromI], max) && r.count <= w[0][fromI].count
    ensures AllWithin(w, fromI, r, sameInventory, ans, max)
  {
    var r0 := r.(caused := true);
    FillMeaning(w, fromI, r0, 0, false, sameInventory, ans, max, KindOf(EMPTY));
    FillWithin(w, fromI, r0, 0, false, sameInventory, ans, max);
    var (w1, r1, _) := Fill(w, fromI, r0, 0, false, sameInventory, ans, max);
    FillWithin(w1, fromI, r1, 0, true, sameInventory, ans, max);
  }

  // ----- the loops are a walk over what the slots offer -----

  /** What another slot offers: to take as much as it has room for and is allowed, or a refusal. */
  function OfferOf(slot: ItemStack, k: Kind, sameInventory: bool, ans: Answers, max: StackMax): Offer {
    if Room(slot, k, max) == 0 then Takes(0)
    else if Allowed(sameInventory, ans) == 0 then Refuses
    else Takes(Min(Allowed(sameInventory, ans), Room(slot, k, max)))
  }

  /** What the source slot offers when the loops come past it. */
  function OwnOffer(intoEmpty: bool, k: Kind, sameInventory: bool, ans: Answers, max: StackMax): Offer {
    if intoEmpty then IfEmptied else Itself(Allowed(sameInventory, ans), max(k.name))
  }

  /** The offers of one loop from slot `j` on; `own` is the source slot if it is in this list. */
  function Offers(items: seq<ItemStack>, own: Option<nat>, j: nat, intoEmpty: bool, k: Kind, sameInventory: bool,
                  ans: AnswersAt, max: StackMax): seq<Offer>
    decreases |items| - j
  {
    if j >= |items| then []
    else
      var rest := Offers(items, own, j + 1, intoEmpty, k, sameInventory, ans, max);
      if own == Some(j) then [OwnOffer(intoEmpty, k, sameInventory, ans(intoEmpty, j), max)] + rest
      else if IsEmpty(items[j]) != intoEmpty then rest
      else [OfferOf(items[j], k, sameInventory, ans(intoEmpty, j), max)] + rest
  }

  /** The source slot, if it is in the destination. */
  function Own(w: World, fromI: nat): Option<nat> {
    if |w| == 1 then Some(fromI) else None
  }

  /** The offers in the order of the two loops: the slots in use, then the empty ones. */
  function AllOffers(w: World, fromI: nat, sameInventory: bool, ans: AnswersAt, max: StackMax): seq<Offer>
    requires HasSlot(w, fromI)
  {
    var items, k := w[|w| - 1], KindOf(w[0][fromI]);
    Offers(items, Own(w, fromI), 0, false, k, sameInventory, ans, max)
    + Offers(items, Own(w, fromI), 0, true, k, sameInventory, ans, max)
  }

  /** The offers do not depend on the source slot nor on slots passed, nor those of empty slots on a slot in use. */
  lemma {:induction false} OffersElsewhere(items: seq<ItemStack>, own: Option<nat>, i: nat, s: ItemStack, j: nat,
                                           intoEmpty: bool, k: Kind, sameInventory: bool, ans: AnswersAt, max: StackMax)
    requires i < |items| && (i < j || own == Some(i) || (intoEmpty && !IsEmpty(items[i]) && !IsEmpty(s)))
    ensures Offers(items[i := s], own, j, intoEmpty, k, sameInventory, ans, max) ==
            Offers(items, own, j, intoEmpty, k, sameInventory, ans, max)
    decreases |items| - j
  {
    if j < |items| { OffersElsewhere(items, own, i, s, j + 1, intoEmpty, k, sameInventory, ans, max); }
  }

  function WalkerOf(w: World, fromI: nat, r: Request, ok: bool): Walker
    requires HasSlot(w, fromI)
  {
    Walker(w[0][fromI].count, r.count, r.moveCount, ok)
  }

  /** What slot `j` offers in the loop. */
  function OfferAt(w: World, fromI: nat, j: nat, intoEmpty: bool, k: Kind, sameInventory: bool, ans: Answers,
                   max: StackMax): Offer
    requires HasSlot(w, fromI) && j < |w[|w| - 1]|
  {
    if Own(w, fromI) == Some(j) then OwnOffer(intoEmpty, k, sameInventory, ans, max)
    else OfferOf(w[|w| - 1][j], k, sameInventory, ans, max)
  }

  /** Only the source slot and the destination slot change, and a slot in use stays in use. */
  predicate ChangesSlots(w: World, v: World, fromI: nat, j: nat)
    requires HasSlot(w, fromI) && j < |w[|w| - 1]|
  {
    && |v| == |w| && |v[0]| == |w[0]| && |v[|w| - 1]| == |w[|w| - 1]|
    && v[|w| - 1] == (if |w| == 1 then w[0][fromI := v[0][fromI]] else w[1])[j := v[|w| - 1][j]]
    && (Own(w, fromI) != Some(j) && !IsEmpty(w[|w| - 1][j]) ==> !IsEmpty(v[|w| - 1][j]))
  }

  lemma StepIsTurn(w: World, fromI: nat, r: Request, j: nat, intoEmpty: bool, sameInventory: bool, ans: Answers,
                   max: StackMax, k: Kind, ok: bool)
    requires IsFilling(w, fromI, r, max) && r.count > 0 && j < |w[|w| - 1]| && IsEmpty(w[|w| - 1][j]) == intoEmpty
    requires !IsEmpty(w[0][fromI]) ==> KindOf(w[0][fromI]) == k
    ensures var (v, r1) := RequestPlain(w, |w| - 1, fromI, r.(toI := j), sameInventory, ans, max);
            && IsFilling(v, fromI, Deducted(r1), max) && ChangesSlots(w, v, fromI, j)
            && WalkerOf(v, fromI, Deducted(r1), ok && r1.moveCount <= r1.count)
               == Turn(WalkerOf(w, fromI, r, ok), OfferAt(w, fromI, j, intoEmpty, k, sameInventory, ans, max))
            && (!IsEmpty(v[0][fromI]) ==> KindOf(v[0][fromI]) == k)
  {
    FillStep(w, fromI, r, j, sameInventory, ans, max, k);
    if IsEmpty(w[0][fromI]) {
      var items := w[|w| - 1];
      assert w[0][fromI := w[0][fromI]] == w[0] && items[j := items[j]] == items;
    } else if Own(w, fromI) == Some(j) {
      hide Tally, Total;
      PlanMeaning(w[0][j], w[0][j], r.count, true, sameInventory, ans, max);
      assert w[0][j := w[0][j]] == w[0];
    } else {
      StepElsewhere(w, fromI, r, j, sameInventory, ans, max, k, ok);
    }
  }

  lemma StepElsewhere(w: World, fromI: nat, r: Request, j: nat, sameInventory: bool, ans: Answers, max: StackMax,
                      k: Kind, ok: bool)
    requires IsFilling(w, fromI, r, max) && r.count > 0 && AreSlots(w, 0, fromI, |w| - 1, j)
    requires !IsEmpty(w[0][fromI]) && KindOf(w[0][fromI]) == k
    ensures var (v, r1) := RequestPlain(w, |w| - 1, fromI, r.(toI := j), sameInventory, ans, max);
            && IsFilling(v, fromI, Deducted(r1), max) && ChangesSlots(w, v, fromI, j)
            && WalkerOf(v, fromI, Deducted(r1), ok && r1.moveCount <= r1.count)
               == Turn(WalkerOf(w, fromI, r, ok), OfferOf(w[|w| - 1][j], k, sameInventory, ans, max))
            && (!IsEmpty(v[0][fromI]) ==> KindOf(v[0][fromI]) == k)
  {
    hide RequestPlain, MakePlan, ApplySlots, Tally, Total;
    FillStep(w, fromI, r, j, sameInventory, ans, max, k);
    StepBetween(w, fromI, r, j, sameInventory, ans, max, k);
    CausedMove(w[0][fromI], w[|w| - 1][j], r.count, sameInventory, ans, max);
  }

  /** A request of the loops moves as much as is asked for, is there, is allowed, and fits. */
  lemma CausedMove(src: ItemStack, dst: ItemStack, count: u16, sameInventory: bool, ans: Answers, max: StackMax)
    requires !IsEmpty(src) && IsOk(src, max) && count > 0
    ensures var plan, room := MakePlan(src, dst, count, true, sameInventory, ans, max), Room(dst, KindOf(src), max);
            && ApplySlots(src, dst, plan, max).count ==
                  Min(Min(Min(count, src.count), Allowed(sameInventory, ans)), room)
            && (plan.Refused? <==> room > 0 && Allowed(sameInventory, ans) == 0)
  {
    SwapMeaning(src, dst, count, true, sameInventory, ans, max);
    PlanMeaning(src, dst, count, true, sameInventory, ans, max);
    MoveMeaning(src, dst, count, true, sameInventory, ans, max);
  }

  /** The offers still to come do not change with a turn. */
  lemma StepKeepsOffers(w: World, v: World, fromI: nat, j: nat, intoEmpty: bool, k: Kind, sameInventory: bool,
                        ans: AnswersAt, max: StackMax)
    requires HasSlot(w, fromI) && j < |w[|w| - 1]| && ChangesSlots(w, v, fromI, j)
        && IsEmpty(w[|w| - 1][j]) == intoEmpty
    ensures var b, own := |w| - 1, Own(w, fromI);
            && Offers(v[b], own, j + 1, intoEmpty, k, sameInventory, ans, max) ==
               Offers(w[b], own, j + 1, intoEmpty, k, sameInventory, ans, max)
            && (!intoEmpty ==> Offers(v[b], own, 0, true, k, sameInventory, ans, max) ==
                               Offers(w[b], own, 0, true, k, sameInventory, ans, max))
  {
    var b, own := |w| - 1, Own(w, fromI);
    var mid := if |w| == 1 then w[0][fromI := v[0][fromI]] else w[1];
    if |w| == 1 {
      OffersElsewhere(w[0], own, fromI, v[0][fromI], j + 1, intoEmpty, k, sameInventory, ans, max);
      OffersElsewhere(w[0], own, fromI, v[0][fromI], 0, true, k, sameInventory, ans, max);
    }
    OffersElsewhere(mid, own, j, v[b][j], j + 1, intoEmpty, k, sameInventory, ans, max);
    if !intoEmpty { OffersElsewhere(mid, own, j, v[b][j], 0, true, k, sameInventory, ans, max); }
  }

  /** What a loop does with a slot that is not of its kind, in terms of the offers. */
  lemma SkipIsTurn(w: World, fromI: nat, r: Request, j: nat, intoEmpty: bool, k: Kind, sameInventory: bool,
                   ans: AnswersAt, max: StackMax, ok: bool)
    requires HasSlot(w, fromI) && j < |w[|w| - 1]| && IsEmpty(w[|w| - 1][j]) != intoEmpty
    ensures var s, items, own := WalkerOf(w, fromI, r, ok), w[|w| - 1], Own(w, fromI);
            Turns(s, Offers(items, own, j, intoEmpty, k, sameInventory, ans, max)) ==
            Turns(s, Offers(items, own, j + 1, intoEmpty, k, sameInventory, ans, max))
  {}

  /** A loop is a walk over its offers, and leaves the offers of the other loop as they were. */
  lemma {:induction false} FillIsTurns(w: World, fromI: nat, r: Request, j: nat, intoEmpty: bool, sameInventory: bool,
                                       ans: AnswersAt, max: StackMax, k: Kind, ok: bool)
    requires IsFilling(w, fromI, r, max)
    requires !IsEmpty(w[0][fromI]) ==> KindOf(w[0][fromI]) == k
    ensures var (v, r', _) := Fill(w, fromI, r, j, intoEmpty, sameInventory, ans, max);
            var b, own := |w| - 1, Own(w, fromI);
            && IsFilling(v, fromI, r', max) && |v| == |w|
            && WalkerOf(v, fromI, r', ok && Within(w, fromI, r, j, intoEmpty, sameInventory, ans, max))
               == Turns(WalkerOf(w, fromI, r, ok), Offers(w[b], own, j, intoEmpty, k, sameInventory, ans, max))
            && (!IsEmpty(v[0][fromI]) ==> KindOf(v[0][fromI]) == k)
            && (!intoEmpty ==> Offers(v[b], own, 0, true, k, sameInventory, ans, max) ==
                               Offers(w[b], own, 0, true, k, sameInventory, ans, max))
    decreases |w[|w| - 1]| - j
  {
    hide RequestPlain, Turn, OfferOf, OwnOffer, IsOk;
    var b := |w| - 1;
    if r.count == 0 {
      NoTurns(WalkerOf(w, fromI, r, ok), Offers(w[b], Own(w, fromI), j, intoEmpty, k, sameInventory, ans, max));
    } else if j < |w[b]| {
      if IsEmpty(w[b][j]) != intoEmpty {
        SkipIsTurn(w, fromI, r, j, intoEmpty, k, sameInventory, ans, max, ok);
        FillIsTurns(w, fromI, r, j + 1, intoEmpty, sameInventory, ans, max, k, ok);
      } else {
        var a := ans(intoEmpty, j);
        var (w1, r1) := RequestPlain(w, b, fromI, r.(toI := j), sameInventory, a, max);
        StepIsTurn(w, fromI, r, j, intoEmpty, sameInventory, a, max, k, ok);
        StepKeepsOffers(w, w1, fromI, j, intoEmpty, k, sameInventory, ans, max);
        hide ChangesSlots;
        var still := ok && r1.moveCount <= r1.count;
        FillIsTurns(w1, fromI, Deducted(r1), j + 1, intoEmpty, sameInventory, ans, max, k, still);
      }
    }
  }

  /** Both loops together are one walk over all offers. */
  lemma MoveSomewhereIsTurns(w: World, fromI: nat, r: Request, sameInventory: bool, ans: AnswersAt, max: StackMax)
    requires HasSlot(w, fromI) && IsOk(w[0][fromI], max)
    ensures var (v, r', total) := MoveSomewhere(w, fromI, r, sameInventory, ans, max);
            var end := Turns(WalkerOf(w, fromI, r, true), AllOffers(w, fromI, sameInventory, ans, max));
            && end.left + total == w[0][fromI].count && end.last == r'.moveCount
            && (end.within <==> AllWithin(w, fromI, r, sameInventory, ans, max))
  {
    hide Turns, Turn, Offers, Tally, Total;
    var k, b, own, r0 := KindOf(w[0][fromI]), |w| - 1, Own(w, fromI), r.(caused := true);
    MoveSomewhereMeaning(w, fromI, r, sameInventory, ans, max, k);
    TurnsAppend(WalkerOf(w, fromI, r, true), Offers(w[b], own, 0, false, k, sameInventory, ans, max),
                Offers(w[b], own, 0, true, k, sameInventory, ans, max));
    FillIsTurns(w, fromI, r0, 0, false, sameInventory, ans, max, k, true);
    var (w1, r1, _) := Fill(w, fromI, r0, 0, false, sameInventory, ans, max);
    FillIsTurns(w1, fromI, r1, 0, true, sameInventory, ans, max, k,
                Within(w, fromI, r0, 0, false, sameInventory, ans, max));
  }

  /**
   * In a fresh request the count runs short at some turn exactly when more is asked for than the source has, a slot
   * drains it, and the number that drained it neither divides what is then left to move nor goes into it once for
   * every turn that is still to come.
   */
  lemma CountRunsShort(w: World, fromI: nat, r: Request, sameInventory: bool, ans: AnswersAt, max: StackMax)
    requires HasSlot(w, fromI) && IsOk(w[0][fromI], max)
    requires IsEmpty(w[0][fromI]) ==> r.moveCount == 0
    ensures AllWithin(w, fromI, r, sameInventory, ans, max) <==>
            !ComesShort(w[0][fromI].count, r.count, AllOffers(w, fromI, sameInventory, ans, max))
  {
    var s, offers := WalkerOf(w, fromI, r, true), AllOffers(w, fromI, sameInventory, ans, max);
    MoveSomewhereIsTurns(w, fromI, r, sameInventory, ans, max);
    if s.left > 0 {
      TurnsWithin(s, offers);
    } else {
      StaleTurns(s, offers);
      NeverShort(s.left, s.count, offers);
    }
  }

  const STACK_OF_99: StackMax := name => 99

  /** Allows everything. */
  function Willingly(intoEmpty: bool, j: nat): Answers {
    WILLING
  }

  /** 150 asked of 99 stone, with two empty slots to go to: the second turn takes 99 off the 51 that are left. */
  lemma CountWraps()
    ensures var w, r := [[STONES], [EMPTY, EMPTY]], Request(150, 0, 0, true);
            var (v, r1, total) := Fill(w, 0, r, 0, true, true, Willingly, STACK_OF_99);
            && !AllWithin(w, 0, r, true, Willingly, STACK_OF_99)
            && r1.moveCount == 99 && r1.count == 65488 && total == 99
  {
    var w, r, max := [[STONES], [EMPTY, EMPTY]], Request(150, 0, 0, true), STACK_OF_99;
    FirstLoopIdle(w, r, Willingly, max);
    hide Fill, Within, Turn, Turns, RequestPlain;
    FillIsTurns(w, 0, r, 0, true, true, Willingly, max, KindOf(STONES), true);
    FillMeaning(w, 0, r, 0, true, true, Willingly, max, KindOf(STONES));
    TwoSlotsOffer(EMPTY, EMPTY, true, Willingly, max);
    hide Offers;
    WalkWraps();
  }

  /** With two empty slots to go to, the loop over the slots in use finds none. */
  lemma FirstLoopIdle(w: World, r: Request, ans: AnswersAt, max: StackMax)
    requires w == [[STONES], [EMPTY, EMPTY]]
    ensures Fill(w, 0, r, 0, false, true, ans, max) == (w, r, 0)
  {
    assert Fill(w, 0, r, 2, false, true, ans, max) == (w, r, 0);
    assert Fill(w, 0, r, 1, false, true, ans, max) == (w, r, 0);
  }

  /** What the slots of a list of 99 stone and two empty slots offer the stone. */
  lemma OwnListOffers()
    ensures var items, k := [STONES, EMPTY, EMPTY], KindOf(STONES);
            && Offers(items, Some(0), 0, false, k, true, Willingly, STACK_OF_99) == [Itself(0xFFFF, 99)]
            && Offers(items, Some(0), 0, true, k, true, Willingly, STACK_OF_99) ==
               [IfEmptied, Takes(0xFFFF), Takes(0xFFFF)]
  {
    var items, k, max := [STONES, EMPTY, EMPTY], KindOf(STONES), STACK_OF_99;
    assert Offers(items, Some(0), 1, false, k, true, Willingly, max) == [] by {
      assert Offers(items, Some(0), 2, false, k, true, Willingly, max) == [];
    }
    assert Offers(items, Some(0), 0, false, k, true, Willingly, max) == [Itself(0xFFFF, 99)];
    assert Offers(items, Some(0), 3, true, k, true, Willingly, max) == [];
    assert Offers(items, Some(0), 2, true, k, true, Willingly, max) == [Takes(0xFFFF)];
    assert Offers(items, Some(0), 1, true, k, true, Willingly, max) == [Takes(0xFFFF), Takes(0xFFFF)];
    assert Offers(items, Some(0), 0, true, k, true, Willingly, max) == [IfEmptied, Takes(0xFFFF), Takes(0xFFFF)];
  }

  /** The same request within one list of 99 stone and two empty slots. */
  lemma CountWrapsHere()
    ensures !AllWithin([[STONES, EMPTY, EMPTY]], 0, Request(150, 0, 0, false), true, Willingly, STACK_OF_99)
  {
    var items, max := [STONES, EMPTY, EMPTY], STACK_OF_99;
    OwnListOffers();
    hide Offers, AllWithin, ComesShort;
    CountRunsShort([items], 0, Request(150, 0, 0, false), true, Willingly, max);
    assert [Itself(0xFFFF, 99)] + [IfEmptied, Takes(0xFFFF), Takes(0xFFFF)]
        == [Itself(0xFFFF, 99), IfEmptied, Takes(0xFFFF), Takes(0xFFFF)];
    WalkRunsShort();
  }

  /** What two empty slots offer a stack of stone. */
  lemma TwoSlotsOffer(a: ItemStack, b: ItemStack, sameInventory: bool, ans: AnswersAt, max: StackMax)
    requires IsEmpty(a) && IsEmpty(b)
    ensures var items, k := [a, b], KindOf(STONES);
            && Offers(items, None, 0, false, k, sameInventory, ans, max) == []
            && Offers(items, None, 0, true, k, sameInventory, ans, max) ==
               [OfferOf(a, k, sameInventory, ans(true, 0), max), OfferOf(b, k, sameInventory, ans(true, 1), max)]
  {
    var items, k := [a, b], KindOf(STONES);
    assert Offers(items, None, 2, false, k, sameInventory, ans, max) == [];
    assert Offers(items, None, 1, false, k, sameInventory, ans, max) == [];
    assert Offers(items, None, 2, true, k, sameInventory, ans, max) == [];
    assert Offers(items, None, 1, true, k, sameInventory, ans, max) ==
        [OfferOf(b, k, sameInventory, ans(true, 1), max)];
  }

  // ----- how much "move somewhere" moves -----

  lemma {:induction false} OffersAreElsewhere(items: seq<ItemStack>, own: Option<nat>, j: nat, intoEmpty: bool, k: Kind,
                                              sameInventory: bool, ans: AnswersAt, max: StackMax)
    requires own.Some? ==> own.value < j || own.value >= |items| || intoEmpty
    ensures IsElsewhere(Offers(items, own, j, intoEmpty, k, sameInventory, ans, max))
    decreases |items| - j
  {
    if j < |items| { OffersAreElsewhere(items, own, j + 1, intoEmpty, k, sameInventory, ans, max); }
  }

  /**
   * Between two lists, exactly as much is moved as is asked for, is there, and is offered before the first refusal.
   * Slots behind a slot that has room but is refused are not tried.
   */
  lemma MoveSomewhereMoves(w: World, fromI: nat, r: Request, sameInventory: bool, ans: AnswersAt, max: StackMax)
    requires HasSlot(w, fromI) && |w| == 2 && IsOk(w[0][fromI], max)
    ensures MoveSomewhere(w, fromI, r, sameInventory, ans, max).2 ==
            Reach(w[0][fromI].count, r.count, AllOffers(w, fromI, sameInventory, ans, max))
  {
    var k := KindOf(w[0][fromI]);
    MoveSomewhereIsTurns(w, fromI, r, sameInventory, ans, max);
    OffersAreElsewhere(w[1], None, 0, false, k, sameInventory, ans, max);
    OffersAreElsewhere(w[1], None, 0, true, k, sameInventory, ans, max);
    TurnsMove(WalkerOf(w, fromI, r, true), AllOffers(w, fromI, sameInventory, ans, max));
  }

  /** The first loop's offers: those of the slots before the source slot, its own, and those of the slots behind it. */
  lemma {:induction false} OffersAround(items: seq<ItemStack>, i: nat, j: nat, k: Kind, sameInventory: bool,
                                        ans: AnswersAt, max: StackMax)
    requires j <= i < |items|
    ensures Offers(items, Some(i), j, false, k, sameInventory, ans, max) ==
            Offers(items[..i], Some(i), j, false, k, sameInventory, ans, max)
            + [OwnOffer(false, k, sameInventory, ans(false, i), max)]
            + Offers(items, Some(i), i + 1, false, k, sameInventory, ans, max)
    decreases i - j
  {
    if j < i { OffersAround(items, i, j + 1, k, sameInventory, ans, max); }
  }

  /**
   * Within one list, the slots before the source are offered its items first; then the source slot itself, unless its
   * stack is full, uses up the count for items that stay where they are; what is left of the count goes to the slots
   * behind it, and to the empty ones.
   */
  lemma MoveSomewhereMovesHere(w: World, fromI: nat, r: Request, sameInventory: bool, ans: AnswersAt, max: StackMax)
    requires HasSlot(w, fromI) && |w| == 1 && IsOk(w[0][fromI], max)
    ensures var items, own, k := w[0], Some(fromI), KindOf(w[0][fromI]);
            MoveSomewhere(w, fromI, r, sameInventory, ans, max).2 ==
              ReachPast(items[fromI].count, r.count,
                        Offers(items[..fromI], own, 0, false, k, sameInventory, ans, max),
                        OwnOffer(false, k, sameInventory, ans(false, fromI), max),
                        Offers(items, own, fromI + 1, false, k, sameInventory, ans, max)
                        + Offers(items, own, 0, true, k, sameInventory, ans, max))
  {
    var items, own, k := w[0], Some(fromI), KindOf(w[0][fromI]);
    var before := Offers(items[..fromI], own, 0, false, k, sameInventory, ans, max);
    var itself := OwnOffer(false, k, sameInventory, ans(false, fromI), max);
    var behind := Offers(items, own, fromI + 1, false, k, sameInventory, ans, max);
    var empty := Offers(items, own, 0, true, k, sameInventory, ans, max);
    MoveSomewhereIsTurns(w, fromI, r, sameInventory, ans, max);
    OffersAround(items, fromI, 0, k, sameInventory, ans, max);
    assert AllOffers(w, fromI, sameInventory, ans, max) == before + [itself] + (behind + empty);
    OffersAreElsewhere(items[..fromI], own, 0, false, k, sameInventory, ans, max);
    OffersAreElsewhere(items, own, fromI + 1, false, k, sameInventory, ans, max);
    OffersAreElsewhere(items, own, 0, true, k, sameInventory, ans, max);
    TurnsMovePast(WalkerOf(w, fromI, r, true), before, itself, behind + empty);
  }

  /** Refuses the first slot and allows every other. */
  function NotTheFirst(intoEmpty: bool, j: nat): Answers {
    if j == 0 then Answers(0, 0, 0, 0, 0, 0) else WILLING
  }

  /** 99 stone and two empty slots, of which the first is refused: the second, which would take all, is not tried. */
  lemma RefusalEndsRequest()
    ensures var w := [[STONES], [EMPTY, EMPTY]];
            MoveSomewhere(w, 0, Request(99, 0, 0, false), true, NotTheFirst, STACK_OF_99).2 == 0
  {
    MoveSomewhereMoves([[STONES], [EMPTY, EMPTY]], 0, Request(99, 0, 0, false), true, NotTheFirst, STACK_OF_99);
    TwoSlotsOffer(EMPTY, EMPTY, true, NotTheFirst, STACK_OF_99);
  }

  /** 50 stone in a list whose second slot is empty: the stack is not full, so it stays where it is. */
  lemma StaysInItsSlot()
    ensures var w := [[STONES.(count := 50), EMPTY]];
            MoveSomewhere(w, 0, Request(50, 0, 0, false), true, Willingly, STACK_OF_99).2 == 0
  {
    MoveSomewhereMovesHere([[STONES.(count := 50), EMPTY]], 0, Request(50, 0, 0, false), true, Willingly, STACK_OF_99);
  }

  // ----- nothing is held back -----

  /** Callbacks that refuse nothing. */
  ghost predicate Permit(ans: AnswersAt) {
    forall e, j :: Allowed(true, ans(e, j)) >= 0xFFFF && Allowed(false, ans(e, j)) >= 0xFFFF
  }

  lemma {:induction false} OffersAreRooms(items: seq<ItemStack>, j: nat, intoEmpty: bool, k: Kind, sameInventory: bool,
                                          ans: AnswersAt, max: StackMax)
    requires Permit(ans)
    ensures var offers := Offers(items, None, j, intoEmpty, k, sameInventory, ans, max);
            UpToRefusal(offers) == |offers| && Offered(offers, |offers|) == RoomIn(items, j, k, intoEmpty, max)
    decreases |items| - j
  {
    if j < |items| {
      OffersAreRooms(items, j + 1, intoEmpty, k, sameInventory, ans, max);
      var offers := Offers(items, None, j, intoEmpty, k, sameInventory, ans, max);
      if IsEmpty(items[j]) == intoEmpty {
        assert offers[1..] == Offers(items, None, j + 1, intoEmpty, k, sameInventory, ans, max);
        assert Allowed(sameInventory, ans(intoEmpty, j)) >= 0xFFFF;
      }
    }
  }

  /** With willing callbacks "move somewhere" moves as much as is asked for, is there, and fits the destination. */
  lemma MoveSomewhereMovesAll(w: World, fromI: nat, r: Request, sameInventory: bool, ans: AnswersAt, max: StackMax)
    requires HasSlot(w, fromI) && |w| == 2 && IsOk(w[0][fromI], max) && Permit(ans)
    ensures var src := w[0][fromI];
            MoveSomewhere(w, fromI, r, sameInventory, ans, max).2 ==
                Min(Min(src.count, r.count), TotalRoom(w[1], KindOf(src), max))
  {
    var k := KindOf(w[0][fromI]);
    var a := Offers(w[1], None, 0, false, k, sameInventory, ans, max);
    var b := Offers(w[1], None, 0, true, k, sameInventory, ans, max);
    MoveSomewhereMoves(w, fromI, r, sameInventory, ans, max);
    OffersAreRooms(w[1], 0, false, k, sameInventory, ans, max);
    OffersAreRooms(w[1], 0, true, k, sameInventory, ans, max);
    OfferedAppend(a, b);
  }

  // ----- the program -----

  class IMoveAction {
    var count: u16
    var moveSomewhere: bool
    var causedByMoveSomewhere: bool
    var moveCount: nat
    const fromI: nat
    var toI: s16

    constructor (count: u16, moveSomewhere: bool, fromI: nat, toI: s16)
      ensures AsRequest() == Request(count, toI, 0, false) && this.moveSomewhere == moveSomewhere && this.fromI == fromI
    {
      this.count, this.moveSomewhere, this.causedByMoveSomewhere, this.moveCount := count, moveSomewhere, false, 0;
      this.fromI, this.toI := fromI, toI;
    }

    ghost function AsRequest(): Request
      reads this
    {
      Request(count, toI, moveCount, causedByMoveSomewhere)
    }

    /** Asks the callbacks of both ends, and those of the opposite direction if a swap is wanted. */
    method AskCallbacks(srcCount: u16, dstCount: u16, allowSwap0: bool, sameInventory: bool, ans: Answers)
      returns (srcCanTakeCount: nat, dstCanPutCount: nat, allowSwap: bool)
      ensures (srcCanTakeCount, dstCanPutCount, allowSwap) == Limits(srcCount, dstCount, allowSwap0, sameInventory, ans)
    {
      allowSwap := allowSwap0;
      if sameInventory {
        srcCanTakeCount := ans.move;
        allowSwap := allowSwap && srcCanTakeCount >= srcCount;
        if allowSwap {
          dstCanPutCount := ans.moveBack;
          allowSwap := dstCanPutCount >= dstCount;
        } else {
          dstCanPutCount := srcCanTakeCount;
        }
      } else {
        dstCanPutCount, srcCanTakeCount := ans.put, ans.take;
        allowSwap := allowSwap && srcCanTakeCount >= srcCount && dstCanPutCount >= srcCount;
        if allowSwap { allowSwap := ans.putBack >= dstCount && ans.takeBack >= dstCount; }
      }
      if allowSwap0 != allowSwap { srcCanTakeCount, dstCanPutCount := 0, 0; }
    }

    /** Works out what to do; the fields are left as the program leaves them on each way out. */
    method Prepare(fromStack: ItemStack, toStack: ItemStack, sameInventory: bool, ans: Answers, max: StackMax)
        returns (plan: Plan)
      modifies this`count, this`moveCount
      ensures plan == MakePlan(fromStack, toStack, old(count), causedByMoveSomewhere, sameInventory, ans, max)
      ensures plan.NoSource? ==> AsRequest() == old(AsRequest())
      ensures plan.DoesNotFit? ==> AsRequest() == old(AsRequest()).(moveCount := 0)
      ensures plan.Refused? ==> count == 0 && moveCount == if causedByMoveSomewhere then 0
          else Fitting(fromStack, toStack, old(count), max)
      ensures plan.Go? ==> count == if causedByMoveSomewhere then old(count) else plan.count
    {
      var srcItem := fromStack;
      if 0 < count < srcItem.count { srcItem := srcItem.(count := count); }
      if IsEmpty(srcItem) { return NoSource; }

      var (fits, restitem) := ItemFits(toStack, srcItem, max);
      FitsLess(toStack, srcItem, max);
      var allowSwap := !fits && restitem.count == srcItem.count && !causedByMoveSomewhere;
      moveCount := srcItem.count - restitem.count;
      // the loops go on to the next slot
      if causedByMoveSomewhere && moveCount == 0 { return DoesNotFit; }
      var oldCount := count;
      if allowSwap {
        srcItem := fromStack;
        count := srcItem.count;
      }
      var srcCan, dstCan;
      srcCan, dstCan, allowSwap := AskCallbacks(srcItem.count, toStack.count, allowSwap, sameInventory, ans);
      count := Min(Min(Min(srcItem.count, srcCan), dstCan), fromStack.count);
      if count == 0 {
        if causedByMoveSomewhere { moveCount := 0; }
        return Refused;
      }
      plan := Go(count, allowSwap);
      if causedByMoveSomewhere { count := oldCount; }
    }

    method ApplyPlain(listFrom: InventoryList, listTo: InventoryList, sameInventory: bool, ans: Answers,
                      fromPlayer: bool, toPlayer: bool)
      returns (didSwap: bool)
      requires listFrom.max == listTo.max
      requires IsCallable(listFrom.Lists(listTo), listFrom.Place(listTo), fromI, AsRequest())
      modifies this`count, this`moveCount, listFrom`items, listFrom`dirty, listTo`items, listTo`dirty
      ensures (listFrom.Lists(listTo), AsRequest()) ==
              RequestPlain(old(listFrom.Lists(listTo)), listFrom.Place(listTo), fromI, old(AsRequest()), sameInventory,
                  ans, listTo.max)
      ensures didSwap <==> ToU16(toI) < |old(listTo.items)| && Swaps(old(listFrom.Lists(listTo)),
          listFrom.Place(listTo), fromI, old(AsRequest()), sameInventory, ans, listTo.max)
      ensures listFrom.Flagged() && listTo.Flagged()
      ensures old(IsRefused(listFrom.Lists(listTo), listFrom.Place(listTo), fromI, AsRequest(), sameInventory, ans,
                  listTo.max)) ==>
                (fromPlayer ==> listFrom.dirty) && (toPlayer ==> listTo.dirty)
    {
      hide MakePlan, InventoryMoves.MoveItem, Fitting;
      didSwap := false;
      var j := ToU16(toI);
      if j > |listTo.items| { return; }
      var plan := Prepare(listFrom.items[fromI], listTo.items[j], sameInventory, ans, listTo.max);
      if plan.Refused? {
        // a player's client may have shown the move already: send the list again
        if fromPlayer { listFrom.SetModified(true); }
        if toPlayer { listTo.SetModified(true); }
      }
      if plan.Go? { moveCount, didSwap := listFrom.MoveItem(fromI, listTo, j, plan.count, plan.allowSwap); }
    }

    /** One loop of "move somewhere"; `total` adds up what its requests moved. */
    method FillSlots(listFrom: InventoryList, listTo: InventoryList, intoEmpty: bool, sameInventory: bool,
                     ans: AnswersAt,
                     fromPlayer: bool, toPlayer: bool)
      returns (ghost total: nat)
      requires listFrom.max == listTo.max && fromI < |listFrom.items| && |listTo.items| < 0x8000
      modifies this`count, this`moveCount, this`toI, listFrom`items, listFrom`dirty, listTo`items, listTo`dirty
      ensures (listFrom.Lists(listTo), AsRequest(), total) ==
              Fill(old(listFrom.Lists(listTo)), fromI, old(AsRequest()), 0, intoEmpty, sameInventory, ans, listTo.max)
      ensures listFrom.Flagged() && listTo.Flagged()
    {
      hide RequestPlain, Fill, MovedBy, Swaps, IsRefused;
      total := 0;
      ghost var w, r, b := listFrom.Lists(listTo), AsRequest(), listFrom.Place(listTo);
      for destI := 0 to |listTo.items|
        invariant |listFrom.items| == |w[0]| && |listTo.items| == |w[b]| && listFrom.Flagged() && listTo.Flagged()
        invariant FillFrom(listFrom.Lists(listTo), fromI, AsRequest(), destI, intoEmpty, sameInventory, ans, listTo.max,
            total)
               == FillFrom(w, fromI, r, 0, intoEmpty, sameInventory, ans, listTo.max, 0)
      {
        FillSkips(listFrom.Lists(listTo), fromI, AsRequest(), destI, intoEmpty, sameInventory, ans, listTo.max);
        if count == 0 { break; }
        if IsEmpty(listTo.items[destI]) == intoEmpty {
          ghost var before := listFrom.Lists(listTo);
          FillNext(before, fromI, AsRequest(), destI, intoEmpty, sameInventory, ans, listTo.max, total);
          toI := destI;
          PlainShape(before, b, fromI, AsRequest(), sameInventory, ans(intoEmpty, destI), listTo.max);
          var swapped := ApplyPlain(listFrom, listTo, sameInventory, ans(intoEmpty, destI), fromPlayer, toPlayer);
          total := total + MovedBy(before, fromI, destI, AsRequest());
          count := ToU16(count - moveCount);
        }
      }
      FillSkips(listFrom.Lists(listTo), fromI, AsRequest(), |listTo.items|, intoEmpty, sameInventory, ans, listTo.max);
    }

    method ApplySomewhere(listFrom: InventoryList, listTo: InventoryList, sameInventory: bool, ans: AnswersAt,
                          fromPlayer: bool, toPlayer: bool)
      returns (ghost total: nat)
      requires moveSomewhere && !causedByMoveSomewhere
      requires listFrom.max == listTo.max && fromI < |listFrom.items| && |listTo.items| < 0x8000
      modifies this, listFrom`items, listFrom`dirty, listTo`items, listTo`dirty
      ensures (listFrom.Lists(listTo), AsRequest(), total) ==
              MoveSomewhere(old(listFrom.Lists(listTo)), fromI, old(AsRequest()), sameInventory, ans, listTo.max)
      ensures moveSomewhere && listFrom.Flagged() && listTo.Flagged()
    {
      hide FillBoth;
      var oldToI, oldCount := toI, count;
      causedByMoveSomewhere, moveSomewhere := true, false;
      total := BothLoops(listFrom, listTo, sameInventory, ans, fromPlayer, toPlayer);
      toI, count := oldToI, oldCount;
      causedByMoveSomewhere, moveSomewhere := false, true;
    }

    method BothLoops(listFrom: InventoryList, listTo: InventoryList, sameInventory: bool, ans: AnswersAt,
                     fromPlayer: bool, toPlayer: bool)
      returns (ghost total: nat)
      requires listFrom.max == listTo.max && fromI < |listFrom.items| && |listTo.items| < 0x8000
      modifies this`count, this`moveCount, this`toI, listFrom`items, listFrom`dirty, listTo`items, listTo`dirty
      ensures (listFrom.Lists(listTo), AsRequest(), total) ==
              FillBoth(old(listFrom.Lists(listTo)), fromI, old(AsRequest()), sameInventory, ans, listTo.max)
      ensures listFrom.Flagged() && listTo.Flagged()
    {
      hide Fill, FillBoth;
      FillTwice(listFrom.Lists(listTo), fromI, AsRequest(), sameInventory, ans, listTo.max);
      var n1 := FillSlots(listFrom, listTo, false, sameInventory, ans, fromPlayer, toPlayer);
      var n2 := FillSlots(listFrom, listTo, true, sameInventory, ans, fromPlayer, toPlayer);
      total := n1 + n2;
    }

    /** Does nothing when a list does not exist. */
    method Apply(listFrom: InventoryList?, listTo: InventoryList?, sameInventory: bool, ans: AnswersAt,
                 fromPlayer: bool, toPlayer: bool)
      requires !causedByMoveSomewhere
      requires listFrom != null && listTo != null ==>
        && listFrom.max == listTo.max && fromI < |listFrom.items|
        && (if moveSomewhere then |listTo.items| < 0x8000
            else IsCallable(listFrom.Lists(listTo), listFrom.Place(listTo), fromI, AsRequest()))
      modifies this, if listFrom == null then {} else {listFrom}, if listTo == null then {} else {listTo}
      ensures listFrom == null || listTo == null ==>
          unchanged(this) && (listFrom != null ==> unchanged(listFrom)) && (listTo != null ==> unchanged(listTo))
      ensures listFrom != null && listTo != null ==>
        var w, r := old(listFrom.Lists(listTo)), old(AsRequest());
        if old(moveSomewhere) then
          && listFrom.Lists(listTo) == MoveSomewhere(w, fromI, r, sameInventory, ans, listTo.max).0
          && AsRequest() == MoveSomewhere(w, fromI, r, sameInventory, ans, listTo.max).1
        else
          (listFrom.Lists(listTo), AsRequest())
            == RequestPlain(w, listFrom.Place(listTo), fromI, r, sameInventory, ans(false, 0), listTo.max)
      ensures listFrom != null && listTo != null ==>
        && listFrom.Flagged() && listTo.Flagged()
        && (!old(moveSomewhere) && IsRefused(old(listFrom.Lists(listTo)), listFrom.Place(listTo), fromI,
                old(AsRequest()), sameInventory, ans(false, 0), listTo.max) ==>
              (fromPlayer ==> listFrom.dirty) && (toPlayer ==> listTo.dirty))
    {
      hide RequestPlain, MoveSomewhere;
      if listFrom == null || listTo == null { return; }
      if moveSomewhere {
        ghost var total := ApplySomewhere(listFrom, listTo, sameInventory, ans, fromPlayer, toPlayer);
      } else {
        var swapped := ApplyPlain(listFrom, listTo, sameInventory, ans(false, 0), fromPlayer, toPlayer);
      }
    }
  }

  lemma FitsLess(slot: ItemStack, item: ItemStack, max: StackMax)
    ensures ItemFits(slot, item, max).1.count <= item.count
  {}

  lemma FillTwice(w: World, fromI: nat, r: Request, sameInventory: bool, ans: AnswersAt, max: StackMax)
    requires HasSlot(w, fromI)
    ensures var (w1, r1, n1) := Fill(w, fromI, r, 0, false, sameInventory, ans, max);
            HasSlot(w1, fromI) && |w1| == |w| && |w1[|w| - 1]| == |w[|w| - 1]| &&
              var (w2, r2, n2) := Fill(w1, fromI, r1, 0, true, sameInventory, ans, max);
              FillBoth(w, fromI, r, sameInventory, ans, max) == (w2, r2, n1 + n2)
  {
    FillShape(w, fromI, r, 0, false, sameInventory, ans, max);
    hide Fill;
  }

  /** The rest of a loop, with `total` moved so far. */
  function FillFrom(w: World, fromI: nat, r: Request, j: nat, intoEmpty: bool, sameInventory: bool, ans: AnswersAt,
                    max: StackMax, total: nat): (World, Request, nat)
    requires HasSlot(w, fromI)
  {
    var (v, r', n) := Fill(w, fromI, r, j, intoEmpty, sameInventory, ans, max);
    (v, r', total + n)
  }

  /** Where a loop ends, and where it passes over a slot. */
  lemma FillSkips(w: World, fromI: nat, r: Request, j: nat, intoEmpty: bool, sameInventory: bool, ans: AnswersAt,
                  max: StackMax)
    requires HasSlot(w, fromI)
    ensures j >= |w[|w| - 1]| || r.count == 0 ==> Fill(w, fromI, r, j, intoEmpty, sameInventory, ans, max) == (w, r, 0)
    ensures j < |w[|w| - 1]| && IsEmpty(w[|w| - 1][j]) != intoEmpty ==>
              Fill(w, fromI, r, j, intoEmpty, sameInventory, ans, max) ==
                  Fill(w, fromI, r, j + 1, intoEmpty, sameInventory, ans, max)
  {}

  /** One turn of a loop, with `total` moved before it. */
  lemma FillNext(w: World, fromI: nat, r: Request, j: nat, intoEmpty: bool, sameInventory: bool, ans: AnswersAt,
                 max: StackMax, total: nat)
    requires HasSlot(w, fromI) && j < |w[|w| - 1]| && r.count > 0 && IsEmpty(w[|w| - 1][j]) == intoEmpty
    ensures var (w1, r1) := RequestPlain(w, |w| - 1, fromI, r.(toI := j), sameInventory, ans(intoEmpty, j), max);
            && HasSlot(w1, fromI)
            && FillFrom(w, fromI, r, j, intoEmpty, sameInventory, ans, max, total)
               == FillFrom(w1, fromI, Deducted(r1), j + 1, intoEmpty, sameInventory, ans, max,
                   total + MovedBy(w, fromI, j, r1))
  {
    PlainShape(w, |w| - 1, fromI, r.(toI := j), sameInventory, ans(intoEmpty, j), max);
    hide RequestPlain, MovedBy;
  }
}
