/** Bijections between list positions, and how they relate to rearrangements. */
module Pairings {
  import opened Permutations
  import opened Sequences

  /** `f` lists each of the positions `0 .. n` exactly once. */
  ghost predicate IsBijection(f: seq<nat>, n: nat) {
    |f| == n
    && (forall i :: 0 <= i < n ==> f[i] < n)
    && forall i, j :: 0 <= i < j < n ==> f[i] != f[j]
  }

  /** Puts position `j` in front of a bijection of the positions other than `j`. */
  function Lift(g: seq<nat>, j: nat): (f: seq<nat>)
    ensures |f| == |g| + 1 && f[0] == j
    ensures forall i :: 0 <= i < |g| ==> f[i + 1] == if g[i] < j then g[i] else g[i] + 1
  {
    [j] + seq(|g|, i requires 0 <= i < |g| => if g[i] < j then g[i] else g[i] + 1)
  }

  lemma LiftIsBijection(g: seq<nat>, j: nat)
    requires IsBijection(g, |g|) && j <= |g|
    ensures IsBijection(Lift(g, j), |g| + 1)
  {
    var f := Lift(g, j);
    forall a, b | 0 <= a < b < |f| ensures f[a] != f[b] {
      if a > 0 { assert g[a - 1] != g[b - 1]; }
    }
  }

  lemma FindIn<T>(q: seq<T>, rec: seq<T>) returns (j: nat)
    requires multiset(q) == multiset(rec) && q != []
    ensures j < |rec| && rec[j] == q[0]
  {
    assert q[0] in multiset(q);
    j :| 0 <= j < |rec| && rec[j] == q[0];
  }

  lemma DropBoth<T>(q: seq<T>, rec: seq<T>, j: nat)
    requires multiset(q) == multiset(rec) && q != []
    requires j < |rec| && rec[j] == q[0]
    ensures multiset(q[1..]) == multiset(Without(rec, j))
  {
    WithoutMultiset(rec, j);
    WithoutMultiset(q, 0);
    assert Without(q, 0) == q[1..];
    assert multiset(q[1..]) == multiset(q) - multiset{q[0]};
    assert multiset(Without(rec, j)) == multiset(rec) - multiset{rec[j]};
  }

  /** A rearrangement is read off the original through some bijection of positions. */
  lemma {:induction false} BijectionOfArrangement<T>(q: seq<T>, rec: seq<T>) returns (f: seq<nat>)
    requires Arrangement(q, rec)
    ensures IsBijection(f, |rec|) && |q| == |rec|
    ensures forall i :: 0 <= i < |f| ==> q[i] == rec[f[i]]
    decreases |q|
  {
    ArrangementLength(q, rec);
    if q == [] { return []; }
    var j := FindIn(q, rec);
    DropBoth(q, rec, j);
    var g := BijectionOfArrangement(q[1..], Without(rec, j));
    f := Lift(g, j);
    LiftIsBijection(g, j);
    LiftReads(q, rec, j, g);
  }

  lemma LiftReads<T>(q: seq<T>, rec: seq<T>, j: nat, g: seq<nat>)
    requires j < |rec| && |q| == |g| + 1 == |rec| && q[0] == rec[j]
    requires forall i :: 0 <= i < |g| ==> g[i] < |rec| - 1 && q[1..][i] == Without(rec, j)[g[i]]
    ensures forall i :: 0 <= i < |q| ==> Lift(g, j)[i] < |rec| && q[i] == rec[Lift(g, j)[i]]
  {
    forall i | 0 < i < |q| ensures Lift(g, j)[i] < |rec| && q[i] == rec[Lift(g, j)[i]] {
      assert q[i] == q[1..][i - 1] && Lift(g, j)[i - 1 + 1] == if g[i - 1] < j then g[i - 1] else g[i - 1] + 1;
    }
  }

  /** Reading a list through a bijection rearranges it. */
  lemma {:induction false} ArrangementOfBijection<T>(f: seq<nat>, rec: seq<T>, q: seq<T>)
    requires IsBijection(f, |rec|) && |q| == |rec|
    requires forall i :: 0 <= i < |f| ==> q[i] == rec[f[i]]
    ensures Arrangement(q, rec)
    decreases |f|
  {
    if f != [] {
      var j := f[0];
      var g := seq(|f| - 1, i requires 0 <= i < |f| - 1 => if f[i + 1] < j then f[i + 1] else (f[i + 1] - 1) as nat);
      assert IsBijection(g, |rec| - 1);
      ArrangementOfBijection(g, Without(rec, j), q[1..]);
      WithoutMultiset(rec, j);
      assert q == [q[0]] + q[1..];
    }
  }
}
