/**
 * The loops of "move somewhere" as a walk over what the slots of the destination offer to take. A request takes one
 * offer after the other; it ends when nothing is left of its count, or at the first refusal.
 */
module OfferWalk {
  import opened MachineIntegers
  import opened Multiples

  /**
   * A slot offers to take some items or its callbacks refuse. When the destination is the source's own list, its first
   * loop comes past the source slot itself, which reports items as moved that stay where they are: as many as are
   * allowed, unless the stack is full. The second loop comes past that slot if it has been emptied.
   */
  datatype Offer =
    | Takes(n: nat)
    | Refuses
    | Itself(allowed: nat, full: nat)
    | IfEmptied

  /**
   * What the source has left, how much is left to move, what the last request reported, and whether all went well so
   * far.
   */
  datatype Walker = Walker(left: nat, count: u16, last: nat, within: bool)

  /** A request from an empty slot moves nothing, yet what the last one reported is taken off the count again. */
  function StaleTurn(s: Walker): Walker {
    s.(count := ToU16(s.count - s.last), within := s.within && s.last <= s.count)
  }

  function Turn(s: Walker, offer: Offer): Walker {
    if s.count == 0 then s
    else match offer
      case Takes(n) =>
        if s.left == 0 then StaleTurn(s)
        else var m := Min(Min(s.count, s.left), n); Walker(s.left - m, s.count - m, m, s.within)
      case Refuses => if s.left == 0 then StaleTurn(s) else s.(count := 0, last := 0)
      case Itself(allowed, full) =>
        if s.left == 0 then s
        else if s.left >= full then s.(last := 0)
        else if allowed == 0 then s.(count := 0, last := 0)
        else var m := Min(Min(s.count, s.left), allowed); s.(count := s.count - m, last := m)
      case IfEmptied => if s.left == 0 then StaleTurn(s) else s
  }

  function Turns(s: Walker, offers: seq<Offer>): Walker
    decreases |offers|
  {
    if offers == [] then s else Turns(Turn(s, offers[0]), offers[1..])
  }

  lemma {:induction false} TurnsAppend(s: Walker, a: seq<Offer>, b: seq<Offer>)
    ensures Turns(s, a + b) == Turns(Turns(s, a), b)
    decreases |a|
  {
    if a == [] {
      assert a + b == b;
    } else {
      assert (a + b)[1..] == a[1..] + b;
      TurnsAppend(Turn(s, a[0]), a[1..], b);
    }
  }

  /** Nothing left to move: the loop is over. */
  lemma {:induction false} NoTurns(s: Walker, offers: seq<Offer>)
    requires s.count == 0
    ensures Turns(s, offers) == s
    decreases |offers|
  {
    if offers != [] { NoTurns(s, offers[1..]); }
  }

  lemma {:induction false} NothingLeft(s: Walker, offers: seq<Offer>)
    requires s.left == 0
    ensures Turns(s, offers).left == 0
    decreases |offers|
  {
    if offers != [] { NothingLeft(Turn(s, offers[0]), offers[1..]); }
  }

  // ----- how much is moved -----

  /** How many offers come before the first refusal. */
  function UpToRefusal(offers: seq<Offer>): (n: nat)
    ensures n <= |offers|
    ensures n < |offers| ==> offers[n] == Refuses
    ensures forall i :: 0 <= i < n ==> offers[i] != Refuses
  {
    if offers == [] || offers[0] == Refuses then 0 else 1 + UpToRefusal(offers[1..])
  }

  /** What the first `n` offers add up to. */
  function Offered(offers: seq<Offer>, n: nat): nat
    requires n <= |offers|
  {
    if n == 0 then 0 else (if offers[0].Takes? then offers[0].n else 0) + Offered(offers[1..], n - 1)
  }

  /** The offers before the first refusal are taken as far as there is something left and asked for. */
  function Reach(left: nat, count: nat, offers: seq<Offer>): nat {
    Min(Min(left, count), Offered(offers, UpToRefusal(offers)))
  }

  lemma {:induction false} OfferedAppend(a: seq<Offer>, b: seq<Offer>)
    requires UpToRefusal(a) == |a| && UpToRefusal(b) == |b|
    ensures UpToRefusal(a + b) == |a + b| && Offered(a + b, |a + b|) == Offered(a, |a|) + Offered(b, |b|)
    decreases |a|
  {
    if a == [] {
      assert a + b == b;
    } else {
      assert (a + b)[1..] == a[1..] + b;
      OfferedAppend(a[1..], b);
    }
  }

  predicate IsElsewhere(offers: seq<Offer>) {
    forall i :: 0 <= i < |offers| ==> !offers[i].Itself?
  }

  /** What a walk moves that does not come past the source slot while it holds something. */
  lemma {:induction false} TurnsMove(s: Walker, offers: seq<Offer>)
    requires IsElsewhere(offers)
    ensures var end, moved := Turns(s, offers), Reach(s.left, s.count, offers);
            && end.left == s.left - moved
            && (end.left > 0 ==> end.count == if UpToRefusal(offers) < |offers| then 0 else s.count - moved)
    decreases |offers|
  {
    if offers != [] {
      var next := Turn(s, offers[0]);
      assert forall i :: 0 <= i < |offers| - 1 ==> offers[1..][i] == offers[i + 1];
      if s.count == 0 {
        NoTurns(s, offers);
      } else if s.left == 0 {
        NothingLeft(s, offers);
      } else if offers[0] == Refuses {
        NoTurns(next, offers[1..]);
      } else {
        TurnsMove(next, offers[1..]);
      }
    }
  }

  /** What the source slot itself takes off the count: everything, if its callbacks refuse. */
  function Absorbed(left: nat, count: nat, own: Offer): (n: nat)
    requires own.Itself?
    ensures n <= count
  {
    if left >= own.full then 0 else if own.allowed == 0 then count else Min(Min(left, count), own.allowed)
  }

  /** What is moved by a walk that comes past the source slot. */
  function ReachPast(left: nat, count: nat, before: seq<Offer>, own: Offer, after: seq<Offer>): nat
    requires own.Itself?
  {
    var moved := Reach(left, count, before);
    if UpToRefusal(before) < |before| then moved
    else
      var rest := count - moved;
      moved + Reach(left - moved, rest - Absorbed(left - moved, rest, own), after)
  }

  lemma TurnsMovePast(s: Walker, before: seq<Offer>, own: Offer, after: seq<Offer>)
    requires own.Itself? && IsElsewhere(before) && IsElsewhere(after)
    ensures Turns(s, before + [own] + after).left == s.left - ReachPast(s.left, s.count, before, own, after)
  {
    hide Turns, Turn, UpToRefusal, Offered, IsElsewhere;
    var s1 := Turns(s, before);
    TurnsAppend(s, before + [own], after);
    OneMoreTurn(s, before, own);
    OwnTurn(s1, own);
    TurnsMove(s, before);
    TurnsMove(Turn(s1, own), after);
  }

  lemma OneMoreTurn(s: Walker, before: seq<Offer>, offer: Offer)
    ensures Turns(s, before + [offer]) == Turn(Turns(s, before), offer)
  {
    TurnsAppend(s, before, [offer]);
    assert [offer][1..] == [];
  }

  lemma OwnTurn(s: Walker, own: Offer)
    requires own.Itself?
    ensures var t := Turn(s, own);
        t.left == s.left && (s.left > 0 ==> t.count == s.count - Absorbed(s.left, s.count, own))
  {}

  // ----- when the count runs short -----

  /** `rest` cannot be used up by taking `m` off it, at most `turns` times, without running short. */
  predicate RunsShort(rest: nat, m: nat, turns: nat)
    requires m > 0
  {
    rest % m != 0 && turns * m > rest
  }

  /** The turns that come past an empty source slot: all but the one onto that slot in the first loop. */
  function StaleCount(offers: seq<Offer>): nat {
    if offers == [] then 0 else (if offers[0].Itself? then 0 else 1) + StaleCount(offers[1..])
  }

  lemma OneLess(rest: nat, m: nat, turns: nat)
    requires 0 < m <= rest && turns > 0
    ensures RunsShort(rest, m, turns) <==> RunsShort(rest - m, m, turns - 1)
  {
    assert rest == (rest - m) + m;
    ModOnce(rest - m, m);
    assert turns * m == (turns - 1) * m + m;
  }

  lemma ModOnce(x: nat, m: nat)
    requires m > 0
    ensures (x + m) % m == x % m
  {
    var d := (x + m) / m - x / m - 1;
    assert d * m == x % m - (x + m) % m;
    Multiple(d, m);
  }

  lemma ShortAtOnce(rest: nat, m: nat, turns: nat)
    requires 0 < rest < m && turns > 0
    ensures RunsShort(rest, m, turns)
  {
    assert turns * m >= m;
  }

  lemma {:induction false} StaysShort(s: Walker, offers: seq<Offer>)
    requires !s.within
    ensures !Turns(s, offers).within
    decreases |offers|
  {
    if offers != [] { StaysShort(Turn(s, offers[0]), offers[1..]); }
  }

  /** After the stack is drained, every further turn takes the last number moved off the count again. */
  lemma {:induction false} StaleTurns(s: Walker, offers: seq<Offer>)
    requires s.left == 0 && s.within
    ensures Turns(s, offers).within <==> s.last == 0 || !RunsShort(s.count, s.last, StaleCount(offers))
    decreases |offers|
  {
    if offers != [] {
      var next := Turn(s, offers[0]);
      if s.count == 0 {
        NoTurns(s, offers);
      } else if offers[0].Itself? {
        StaleTurns(s, offers[1..]);
      } else if s.last <= s.count {
        StaleTurns(next, offers[1..]);
        if s.last > 0 { OneLess(s.count, s.last, StaleCount(offers)); }
      } else {
        StaysShort(next, offers[1..]);
        ShortAtOnce(s.count, s.last, StaleCount(offers));
      }
    }
  }

  /** What is left, and what is left to move, after the first `p` offers when each is taken whole. */
  function After(left: int, count: int, offers: seq<Offer>, p: nat): (int, int)
    requires p <= |offers|
    decreases p
  {
    if p == 0 then (left, count)
    else
      var (l, c) := AfterOne(left, count, offers[0]);
      After(l, c, offers[1..], p - 1)
  }

  function AfterOne(left: int, count: int, offer: Offer): (int, int) {
    match offer
    case Takes(n) => (left - n, count - n)
    case Refuses => (left, 0)
    case Itself(allowed, full) =>
      (left, if left >= full then count else if allowed == 0 then 0
          else count - (if left <= allowed then left else allowed))
    case IfEmptied => (left, count)
  }

  /** Offer `p` drains the stack, and what is then left to move runs short in the turns that follow. */
  predicate DrainsShort(left: int, count: int, offers: seq<Offer>, p: nat) {
    && p < |offers| && offers[p].Takes?
    && var (l, c) := After(left, count, offers, p);
       0 < l <= offers[p].n && l < c && RunsShort(c - l, l, StaleCount(offers[p + 1..]))
  }

  ghost predicate ComesShort(left: int, count: int, offers: seq<Offer>) {
    exists p: nat :: DrainsShort(left, count, offers, p)
  }

  lemma ShortStep(left: int, count: int, offers: seq<Offer>)
    requires offers != []
    ensures var (l, c) := AfterOne(left, count, offers[0]);
            ComesShort(left, count, offers) <==> DrainsShort(left, count, offers, 0) || ComesShort(l, c, offers[1..])
  {
    var (l, c) := AfterOne(left, count, offers[0]);
    if ComesShort(left, count, offers) {
      var p: nat :| DrainsShort(left, count, offers, p);
      if p > 0 {
        assert offers[1..][p..] == offers[p + 1..];
        assert DrainsShort(l, c, offers[1..], p - 1);
      }
    }
    if ComesShort(l, c, offers[1..]) {
      var p: nat :| DrainsShort(l, c, offers[1..], p);
      assert offers[1..][p + 1..] == offers[p + 2..];
      assert DrainsShort(left, count, offers, p + 1);
    }
  }

  /** Of 150 to move, the first slot takes the 99 that are there, and the second cannot take 99 more. */
  lemma WalkWraps()
    ensures Turns(Walker(99, 150, 0, true), [Takes(0xFFFF), Takes(0xFFFF)]) == Walker(0, 65488, 99, false)
  {
    var s, t := Walker(99, 150, 0, true), Walker(0, 51, 99, true);
    var offers := [Takes(0xFFFF), Takes(0xFFFF)];
    assert Turn(s, offers[0]) == t && Turn(t, offers[1]) == Walker(0, 65488, 99, false);
    assert offers[1..] == [offers[1]] && offers[1..][1..] == [];
    assert Turns(t, offers[1..]) == Walker(0, 65488, 99, false);
  }

  /** The same within one list, where the walk also comes past the full source slot. */
  lemma WalkRunsShort()
    ensures ComesShort(99, 150, [Itself(0xFFFF, 99), IfEmptied, Takes(0xFFFF), Takes(0xFFFF)])
  {
    var offers := [Itself(0xFFFF, 99), IfEmptied, Takes(0xFFFF), Takes(0xFFFF)];
    assert offers[1..] == [IfEmptied, Takes(0xFFFF), Takes(0xFFFF)]
        && offers[1..][1..] == [Takes(0xFFFF), Takes(0xFFFF)];
    assert After(99, 150, offers[1..][1..], 0) == (99, 150) && After(99, 150, offers[1..], 1) == (99, 150);
    assert After(99, 150, offers, 2) == (99, 150);
    assert offers[3..] == [Takes(0xFFFF)] && [Takes(0xFFFF)][1..] == [];
    assert StaleCount([Takes(0xFFFF)]) == 1;
    assert DrainsShort(99, 150, offers, 2);
  }

  /** Asked for no more than there is, or with nothing there, the count never runs short. */
  lemma {:induction false} NeverShort(left: int, count: int, offers: seq<Offer>)
    requires count <= left || left <= 0
    ensures !ComesShort(left, count, offers)
    decreases |offers|
  {
    if offers == [] {
      assert forall p: nat :: !DrainsShort(left, count, offers, p);
    } else {
      var (l, c) := AfterOne(left, count, offers[0]);
      ShortStep(left, count, offers);
      NeverShort(l, c, offers[1..]);
    }
  }

  /** A walk goes well unless an offer drains the stack and leaves a count that runs short. */
  lemma {:induction false} TurnsWithin(s: Walker, offers: seq<Offer>)
    requires s.within && s.left > 0
    ensures Turns(s, offers).within <==> !ComesShort(s.left, s.count, offers)
    decreases |offers|
  {
    if s.count == 0 {
      NoTurns(s, offers);
      NeverShort(s.left, s.count, offers);
    } else if offers == [] {
      assert forall p: nat :: !DrainsShort(s.left, s.count, offers, p);
    } else {
      ShortStep(s.left, s.count, offers);
      match offers[0] {
        case Takes(n) => TakesWithin(s, offers);
        case Refuses => OverWithin(s, offers);
        case Itself(allowed, full) => ItselfWithin(s, offers);
        case IfEmptied => TurnsWithin(s, offers[1..]);
      }
    }
  }

  lemma OverWithin(s: Walker, offers: seq<Offer>)
    requires s.within && s.left > 0 && offers != [] && Turn(s, offers[0]).count == 0 && Turn(s, offers[0]).within
    ensures Turns(s, offers).within && !ComesShort(s.left, 0, offers[1..])
  {
    NoTurns(Turn(s, offers[0]), offers[1..]);
    NeverShort(s.left, 0, offers[1..]);
  }

  lemma {:induction false} TakesWithin(s: Walker, offers: seq<Offer>)
    requires s.within && s.left > 0 && s.count > 0 && offers != [] && offers[0].Takes?
    ensures Turns(s, offers).within <==> !ComesShort(s.left, s.count, offers)
    decreases |offers|, 0
  {
    var n, next, rest := offers[0].n, Turn(s, offers[0]), offers[1..];
    ShortStep(s.left, s.count, offers);
    if n < s.left && n < s.count {
      TurnsWithin(next, rest);
    } else if s.count <= s.left {
      NoTurns(next, rest);
      NeverShort(s.left, s.count, offers);
    } else {
      StaleTurns(next, rest);
      NeverShort(s.left - n, s.count - n, rest);
    }
  }

  lemma {:induction false} ItselfWithin(s: Walker, offers: seq<Offer>)
    requires s.within && s.left > 0 && s.count > 0 && offers != [] && offers[0].Itself?
    ensures Turns(s, offers).within <==> !ComesShort(s.left, s.count, offers)
    decreases |offers|, 0
  {
    var next, rest := Turn(s, offers[0]), offers[1..];
    ShortStep(s.left, s.count, offers);
    TurnsWithin(next, rest);
    if s.count <= s.left {
      NeverShort(s.left, s.count, offers);
      NeverShort(s.left, next.count, rest);
    }
  }
}
