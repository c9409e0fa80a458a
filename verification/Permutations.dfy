/**
 * `std::next_permutation` on a list of names: the algorithm, and the facts that make the
 * do-while loop around it visit every arrangement of a recipe exactly when it starts sorted.
 */
module Permutations {
  import opened Cardinality
  import opened NameOrder

  ghost predicate LexLess(p: seq<string>, q: seq<string>) {
    |p| == |q| && exists k :: 0 <= k < |p| && p[..k] == q[..k] && Less(p[k], q[k])
  }

  lemma LexLessIrreflexive(p: seq<string>)
    ensures !LexLess(p, p)
  {
    forall k | 0 <= k < |p| ensures !Less(p[k], p[k]) { LessIrreflexive(p[k]); }
  }

  lemma LexLessTransitive(p: seq<string>, q: seq<string>, r: seq<string>)
    requires LexLess(p, q) && LexLess(q, r)
    ensures LexLess(p, r)
  {
    var k :| 0 <= k < |p| && p[..k] == q[..k] && Less(p[k], q[k]);
    var m :| 0 <= m < |q| && q[..m] == r[..m] && Less(q[m], r[m]);
    var n := if k < m then k else m;
    assert p[..n] == p[..k][..n] == q[..k][..n] == q[..m][..n] == r[..m][..n] == r[..n];
    if k < m {
      assert q[k] == q[..m][k] == r[..m][k] == r[k];
    } else if m < k {
      assert p[m] == p[..k][m] == q[..k][m] == q[m];
    } else {
      LessTransitive(p[k], q[k], r[k]);
    }
  }

  lemma {:induction false} LexLessTotal(p: seq<string>, q: seq<string>)
    requires |p| == |q|
    ensures p == q || LexLess(p, q) || LexLess(q, p)
  {
    if p != [] {
      LessTotal(p[0], q[0]);
      if p[0] != q[0] {
        assert p[..0] == q[..0];
      } else {
        LexLessTotal(p[1..], q[1..]);
        assert p == [p[0]] + p[1..] && q == [q[0]] + q[1..];
        if LexLess(p[1..], q[1..]) { LexLessCons(p[0], p[1..], q[1..]); }
        if LexLess(q[1..], p[1..]) { LexLessCons(p[0], q[1..], p[1..]); }
      }
    }
  }

  lemma LexLessCons(x: string, p: seq<string>, q: seq<string>)
    requires LexLess(p, q)
    ensures LexLess([x] + p, [x] + q)
  {
    var k :| 0 <= k < |p| && p[..k] == q[..k] && Less(p[k], q[k]);
    assert ([x] + p)[..k + 1] == [x] + p[..k];
    assert ([x] + q)[..k + 1] == [x] + q[..k];
    assert Less(([x] + p)[k + 1], ([x] + q)[k + 1]);
  }

  /** `c` is an arrangement of the same names as `s`. */
  ghost predicate Arrangement<T>(c: seq<T>, s: seq<T>) {
    multiset(c) == multiset(s)
  }

  lemma ArrangementLength<T>(c: seq<T>, s: seq<T>)
    requires Arrangement(c, s)
    ensures |c| == |s|
  {
    assert |multiset(c)| == |c| && |multiset(s)| == |s|;
  }

  lemma ArrangementTail<T>(c: seq<T>, s: seq<T>, k: nat)
    requires Arrangement(c, s) && k <= |c| == |s| && c[..k] == s[..k]
    ensures Arrangement(c[k..], s[k..])
  {
    assert c == c[..k] + c[k..] && s == s[..k] + s[k..];
    assert multiset(c) == multiset(c[..k]) + multiset(c[k..]);
    assert multiset(s) == multiset(s[..k]) + multiset(s[k..]);
    assert multiset(c[k..]) == multiset(c) - multiset(c[..k]) == multiset(s[k..]);
  }

  predicate NonIncreasing(s: seq<string>) {
    forall i, j :: 0 <= i < j < |s| ==> AtMost(s[j], s[i])
  }

  /** Nothing precedes the sorted arrangement. */
  lemma SortedIsFirst(s: seq<string>, c: seq<string>)
    requires Sorted(s) && Arrangement(c, s)
    ensures !LexLess(c, s)
  {
    if LexLess(c, s) {
      var k :| 0 <= k < |c| && c[..k] == s[..k] && Less(c[k], s[k]);
      ArrangementTail(c, s, k);
      assert c[k] == c[k..][0] && c[k] in multiset(s[k..]);
      var i :| 0 <= i < |s[k..]| && s[k..][i] == c[k];
      assert s[k + i] == c[k];
      LessIrreflexive(s[k]);
    }
  }

  /** Nothing follows the non-increasing arrangement. */
  lemma NonIncreasingIsLast(s: seq<string>, c: seq<string>)
    requires NonIncreasing(s) && Arrangement(c, s)
    ensures !LexLess(s, c)
  {
    if LexLess(s, c) {
      var k :| 0 <= k < |s| && s[..k] == c[..k] && Less(s[k], c[k]);
      ArrangementTail(c, s, k);
      assert c[k] == c[k..][0] && c[k] in multiset(s[k..]);
      var i :| 0 <= i < |s[k..]| && s[k..][i] == c[k];
      assert s[k + i] == c[k];
      LessIrreflexive(s[k]);
    }
  }

  // ----- the algorithm -----

  function Reverse<T>(s: seq<T>): seq<T> {
    if s == [] then [] else Reverse(s[1..]) + [s[0]]
  }

  lemma {:induction false} ReverseMeaning<T>(s: seq<T>)
    ensures |Reverse(s)| == |s| && forall i :: 0 <= i < |s| ==> Reverse(s)[i] == s[|s| - 1 - i]
    ensures Arrangement(Reverse(s), s)
  {
    if s != [] {
      ReverseMeaning(s[1..]);
      assert s == [s[0]] + s[1..];
    }
  }

  /** The pivot: the last `i` with `s[i] < s[i+1]`; the names after it never increase. */
  ghost predicate IsPivot(s: seq<string>, i: int) {
    0 <= i && i + 1 < |s| && Less(s[i], s[i + 1]) && NonIncreasing(s[i + 1..])
  }

  /** The last position after the pivot that holds a greater name. */
  ghost predicate IsPartner(s: seq<string>, i: int, j: int) {
    0 <= i < j < |s| && Less(s[i], s[j]) && forall m :: j < m < |s| ==> !Less(s[i], s[m])
  }

  /** What one step produces from pivot `i` and partner `j`. */
  function Advance<T>(s: seq<T>, i: nat, j: nat): seq<T>
    requires i < j < |s|
  {
    s[..i] + [s[j]] + Reverse(s[j := s[i]][i + 1..])
  }

  lemma SplitAt<T>(s: seq<T>, i: nat)
    requires i < |s|
    ensures multiset(s) == multiset(s[..i]) + multiset{s[i]} + multiset(s[i + 1..])
  {
    assert s == s[..i] + [s[i]] + s[i + 1..];
  }

  lemma AdvanceArranges<T>(s: seq<T>, i: nat, j: nat)
    requires i < j < |s|
    ensures Arrangement(Advance(s, i, j), s)
  {
    var u := s[i + 1..];
    var v := u[j - i - 1 := s[i]];
    assert s[j := s[i]][i + 1..] == v;
    ReverseMeaning(v);
    SplitAt(s, i);
    SplitAt(u, j - i - 1);
    SplitAt(v, j - i - 1);
    assert v[..j - i - 1] == u[..j - i - 1] && v[j - i..] == u[j - i..];
    assert multiset(Advance(s, i, j)) == multiset(s[..i]) + multiset{s[j]} + multiset(v);
  }

  lemma AdvanceTailSorted(s: seq<string>, i: nat, j: nat)
    requires IsPivot(s, i) && IsPartner(s, i, j)
    ensures Sorted(Reverse(s[j := s[i]][i + 1..]))
  {
    var u := s[j := s[i]][i + 1..];
    var r := Reverse(u);
    ReverseMeaning(u);
    forall p, q | 0 <= p < q < |r| ensures AtMost(r[p], r[q]) {
      var a, b := i + 1 + (|u| - 1 - q), i + 1 + (|u| - 1 - p);
      assert a < b && r[q] == u[a - i - 1] && r[p] == u[b - i - 1];
      assert s[a] == s[i + 1..][a - i - 1] && s[b] == s[i + 1..][b - i - 1];
      assert AtMost(s[b], s[a]);
      if a == j {
        assert r[q] == s[i] && r[p] == s[b];
      } else if b == j {
        assert AtMost(s[j], s[a]);
        assert AtMost(s[i], s[j]) by { LessAsymmetric(s[i], s[j]); }
        AtMostTransitive(s[i], s[j], s[a]);
      }
    }
  }

  lemma AdvanceGreater(s: seq<string>, i: nat, j: nat)
    requires IsPivot(s, i) && IsPartner(s, i, j)
    ensures LexLess(s, Advance(s, i, j))
  {
    AdvanceArranges(s, i, j);
    ArrangementLength(Advance(s, i, j), s);
    assert s[..i] == Advance(s, i, j)[..i];
  }

  /** An arrangement that exceeds `s` first does so at or before the pivot, and there by a name from the tail. */
  lemma GreaterBeforePivot(s: seq<string>, i: nat, c: seq<string>, k: nat) returns (m: nat)
    requires IsPivot(s, i) && Arrangement(c, s)
    requires k < |s| == |c| && s[..k] == c[..k] && Less(s[k], c[k])
    ensures k <= i && k < m < |s| && s[m] == c[k]
  {
    ArrangementTail(c, s, k);
    assert c[k] == c[k..][0] && c[k] in multiset(s[k..]);
    var n :| 0 <= n < |s[k..]| && s[k..][n] == c[k];
    LessIrreflexive(s[k]);
    m := k + n;
    if k > i {
      assert false;
    }
  }

  /** No arrangement lies strictly between `s` and its advance: the step is the successor. */
  lemma AdvanceIsSuccessor(s: seq<string>, i: nat, j: nat, c: seq<string>)
    requires IsPivot(s, i) && IsPartner(s, i, j)
    requires Arrangement(c, s) && LexLess(s, c)
    ensures !LexLess(c, Advance(s, i, j))
  {
    var b := Advance(s, i, j);
    AdvanceArranges(s, i, j);
    ArrangementLength(b, s);
    var k :| 0 <= k < |s| && s[..k] == c[..k] && Less(s[k], c[k]);
    forall n | 0 <= n < |c| && c[..n] == b[..n] ensures !Less(c[n], b[n]) { AdvanceIsLeastAt(s, i, j, c, k, n); }
  }

  lemma AdvanceIsLeastAt(s: seq<string>, i: nat, j: nat, c: seq<string>, k: nat, n: nat)
    requires IsPivot(s, i) && IsPartner(s, i, j) && Arrangement(c, s)
    requires |c| == |s| == |Advance(s, i, j)| && k < |s| && s[..k] == c[..k] && Less(s[k], c[k])
    requires n < |c| && c[..n] == Advance(s, i, j)[..n]
    ensures !Less(c[n], Advance(s, i, j)[n])
  {
    var m := GreaterBeforePivot(s, i, c, k);
    if k < i {
      var b := Advance(s, i, j);
      assert b[..k] == s[..k] && b[k] == s[k];
      FirstDifference(b, c, k, n);
    } else {
      AdvanceIsLeastAtPivot(s, i, j, c, m, n);
    }
  }

  lemma AdvanceIsLeastAtPivot(s: seq<string>, i: nat, j: nat, c: seq<string>, m: nat, n: nat)
    requires IsPivot(s, i) && IsPartner(s, i, j) && Arrangement(c, s)
    requires |c| == |s| == |Advance(s, i, j)| && s[..i] == c[..i]
    requires i < m < |s| && s[m] == c[i] && Less(s[i], c[i])
    requires n < |c| && c[..n] == Advance(s, i, j)[..n]
    ensures !Less(c[n], Advance(s, i, j)[n])
  {
    var b := Advance(s, i, j);
    assert b[..i] == s[..i] && b[i] == s[j];
    assert m <= j;
    assert AtMost(s[j], c[i]) by {
      assert s[i + 1..][m - i - 1] == c[i] && s[i + 1..][j - i - 1] == s[j];
      if m == j { LessIrreflexive(s[j]); }
    }
    LessTotal(s[j], c[i]);
    if Less(c[n], b[n]) {
      if Less(s[j], c[i]) {
        FirstDifference(b, c, i, n);
      } else {
        assert b[..i + 1] == b[..i] + [b[i]] && c[..i + 1] == c[..i] + [c[i]];
        TailLess(c, b, i + 1, n);
        AdvanceArranges(s, i, j);
        AdvanceTailSorted(s, i, j);
        assert b[i + 1..] == Reverse(s[j := s[i]][i + 1..]);
        ArrangementTail(c, b, i + 1);
        SortedIsFirst(b[i + 1..], c[i + 1..]);
      }
    }
  }

  /** Two lists cannot each be the smaller at their first difference. */
  lemma FirstDifference(b: seq<string>, c: seq<string>, k: nat, n: nat)
    requires |b| == |c| && k < |b| && n < |b|
    requires b[..k] == c[..k] && Less(b[k], c[k])
    requires c[..n] == b[..n]
    ensures !Less(c[n], b[n])
  {
    if n < k { assert b[n] == b[..k][n] == c[..k][n] == c[n]; LessIrreflexive(c[n]); }
    else if k < n { assert b[k] == b[..n][k] == c[..n][k] == c[k]; LessIrreflexive(c[k]); }
    else { LessAsymmetric(b[k], c[k]); }
  }

  lemma TailLess(c: seq<string>, b: seq<string>, k: nat, n: nat)
    requires |b| == |c| && k <= |b| && n < |b|
    requires b[..k] == c[..k] && c[..n] == b[..n] && Less(c[n], b[n])
    ensures LexLess(c[k..], b[k..])
  {
    if n < k { assert b[n] == b[..k][n] == c[..k][n] == c[n]; LessIrreflexive(c[n]); }
    assert c[k..][..n - k] == c[..n][k..] && b[k..][..n - k] == b[..n][k..];
    assert Less(c[k..][n - k], b[k..][n - k]);
  }

  /** What `std::next_permutation` promises: the lexicographic successor, or the wrap-around. */
  ghost predicate IsNextPermutation(s: seq<string>, t: seq<string>, found: bool) {
    && Arrangement(t, s)
    && (found ==> LexLess(s, t) && forall c :: Arrangement(c, s) && LexLess(s, c) ==> !LexLess(c, t))
    && (!found ==> Sorted(t) && forall c :: Arrangement(c, s) ==> !LexLess(s, c))
  }

  method Exchange<T>(a: array<T>, i: nat, j: nat)
    requires i < j < a.Length
    modifies a
    ensures a[..] == old(a[..])[i := old(a[j])][j := old(a[i])]
  {
    a[i], a[j] := a[j], a[i];
  }

  /** The position that reversing everything from `lo` to `n` exchanges with `k`. */
  function Mirror(k: int, lo: int, n: int): int {
    n - 1 - (k - lo)
  }

  /** `t` is `s` with the positions `lo .. i` and `j ..` already exchanged with their mirror images. */
  ghost predicate PartReversed<T>(s: seq<T>, t: seq<T>, lo: nat, i: nat, j: nat) {
    && |t| == |s| && lo <= i <= j <= |s| && i - lo == |s| - j
    && (forall k :: 0 <= k < lo || i <= k < j ==> t[k] == s[k])
    && (forall k :: lo <= k < i || j <= k < |s| ==> t[k] == s[Mirror(k, lo, |s|)])
  }

  lemma PartReversedDone<T>(s: seq<T>, t: seq<T>, lo: nat, i: nat, j: nat)
    requires PartReversed(s, t, lo, i, j) && j <= i + 1
    ensures t == s[..lo] + Reverse(s[lo..])
  {
    ReverseMeaning(s[lo..]);
    assert i + 1 == j ==> Mirror(i, lo, |s|) == i;
  }

  /** `std::reverse` from `lo` to the end. */
  method ReverseFrom<T>(a: array<T>, lo: nat)
    requires lo <= a.Length
    modifies a
    ensures a[..] == old(a[..lo]) + Reverse(old(a[lo..]))
  {
    ghost var s := a[..];
    var i: nat, j: nat := lo, a.Length;
    while i + 1 < j
      invariant PartReversed(s, a[..], lo, i, j)
    {
      Exchange(a, i, j - 1);
      i, j := i + 1, j - 1;
    }
    PartReversedDone(s, a[..], lo, i, j);
  }

  method FindPivot(a: array<string>) returns (i: int)
    ensures i == -1 ==> NonIncreasing(a[..])
    ensures i != -1 ==> IsPivot(a[..], i)
  {
    ghost var s := a[..];
    i := a.Length - 1;
    while i > 0 && !Less(a[i - 1], a[i])
      invariant -1 <= i < a.Length && (a.Length > 0 ==> 0 <= i && NonIncreasing(s[i..]))
    {
      NonIncreasingCons(s, i - 1);
      i := i - 1;
    }
    assert i <= 0 ==> s[0..] == s;
    i := if i <= 0 then -1 else i - 1;
  }

  method FindPartner(a: array<string>, i: nat) returns (j: nat)
    requires IsPivot(a[..], i)
    ensures IsPartner(a[..], i, j)
  {
    j := a.Length - 1;
    while !Less(a[i], a[j])
      invariant i < j < a.Length
      invariant forall m :: j < m < a.Length ==> !Less(a[i], a[m])
      decreases j
    {
      j := j - 1;
    }
  }

  /** The algorithm of `std::next_permutation`, in place. */
  method NextPermutation(a: array<string>) returns (found: bool)
    modifies a
    ensures IsNextPermutation(old(a[..]), a[..], found)
  {
    ghost var s := a[..];
    var i := FindPivot(a);
    if i == -1 {
      ReverseFrom(a, 0);
      assert s[0..] == s && s[..0] == [];
      LastWraps(s);
      return false;
    }
    var j := FindPartner(a, i);
    Exchange(a, i, j);
    ExchangedParts(s, i, j);
    ReverseFrom(a, i + 1);
    AdvanceIsNext(s, i, j);
    found := true;
  }

  lemma ExchangedParts<T>(s: seq<T>, i: nat, j: nat)
    requires i < j < |s|
    ensures var t := s[i := s[j]][j := s[i]];
            t[..i + 1] == s[..i] + [s[j]] && t[i + 1..] == s[j := s[i]][i + 1..]
  {}

  lemma LastWraps(s: seq<string>)
    requires NonIncreasing(s)
    ensures IsNextPermutation(s, Reverse(s), false)
  {
    ReverseMeaning(s);
    forall c | Arrangement(c, s) ensures !LexLess(s, c) { NonIncreasingIsLast(s, c); }
  }

  lemma AdvanceIsNext(s: seq<string>, i: nat, j: nat)
    requires IsPivot(s, i) && IsPartner(s, i, j)
    ensures IsNextPermutation(s, Advance(s, i, j), true)
  {
    AdvanceArranges(s, i, j);
    AdvanceGreater(s, i, j);
    forall c | Arrangement(c, s) && LexLess(s, c) ensures !LexLess(c, Advance(s, i, j)) {
      AdvanceIsSuccessor(s, i, j, c);
    }
  }

  lemma NonIncreasingCons(s: seq<string>, i: nat)
    requires i + 1 < |s| && NonIncreasing(s[i + 1..]) && !Less(s[i], s[i + 1])
    ensures NonIncreasing(s[i..])
  {
    var t := s[i..];
    forall p, q | 0 <= p < q < |t| ensures AtMost(t[q], t[p]) {
      assert t[q] == s[i + 1..][q - 1];
      if p > 0 { assert t[p] == s[i + 1..][p - 1]; }
      else if q > 1 { assert s[i + 1] == s[i + 1..][0]; AtMostTransitive(t[q], s[i + 1], s[i]); }
    }
  }

  // ----- the arrangements form a finite set, which is why the loop stops -----

  ghost function Arrangements(m: multiset<string>): set<seq<string>>
    decreases |m|
  {
    if m == multiset{} then {[]}
    else set x, c | x in m && c in Arrangements(m - multiset{x}) :: [x] + c
  }

  lemma {:induction false} ArrangementsComplete(c: seq<string>)
    ensures c in Arrangements(multiset(c))
    decreases |c|
  {
    if c != [] {
      assert c == [c[0]] + c[1..];
      assert multiset(c[1..]) == multiset(c) - multiset{c[0]};
      ArrangementsComplete(c[1..]);
    }
  }

  /** The arrangements still ahead of `s`: the loop's termination measure. */
  ghost function Ahead(s: seq<string>): set<seq<string>> {
    set c | c in Arrangements(multiset(s)) && LexLess(s, c)
  }

  lemma AheadShrinks(s: seq<string>, t: seq<string>)
    requires IsNextPermutation(s, t, true)
    ensures |Ahead(t)| < |Ahead(s)|
  {
    ArrangementsComplete(t);
    forall c | c in Ahead(t) ensures c in Ahead(s) { LexLessTransitive(s, t, c); }
    LexLessIrreflexive(t);
    assert t in Ahead(s) && t !in Ahead(t);
    SubsetSize(Ahead(t), Ahead(s) - {t});
  }
}
