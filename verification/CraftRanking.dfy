/** The search order of crafting, apart from what makes a recipe apply: a scan, and a layered walk. */
module CraftRanking {
  import opened Options

  // ----- the simple form -----

  predicate ScanPrefers(priority: seq<nat>, k: nat, j: nat)
    requires k < |priority| && j < |priority|
  {
    priority[j] < priority[k] || (priority[j] == priority[k] && j <= k)
  }

  /** Scans the first `n` recipes in registration order, keeping the latest candidate of the highest priority. */
  function ScanFirst(priority: seq<nat>, candidates: set<nat>, n: nat): (best: Option<nat>)
    requires n <= |priority|
    ensures best.Some? ==> best.value < n && best.value in candidates
    ensures forall j :: 0 <= j < n && j in candidates ==> best.Some? && ScanPrefers(priority, best.value, j)
  {
    if n == 0 then None else
      var b := ScanFirst(priority, candidates, n - 1);
      if n - 1 in candidates && (b.None? || priority[n - 1] >= priority[b.value]) then Some(n - 1) else b
  }

  // ----- the layered walk -----

  /** What the walk compares: the recipes it may pick, and every recipe's priority and layer. */
  datatype Ranks = Ranks(eligible: set<nat>, priority: seq<nat>, layer: seq<nat>) {
    ghost predicate Valid() {
      |priority| == |layer| && (forall k :: k in eligible ==> k < |priority|)
      && forall k :: 0 <= k < |priority| ==> priority[k] >= 1
    }
  }

  /** Higher priority first, then the earlier layer, then the later registration. */
  predicate Beats(r: Ranks, j: nat, k: nat)
    requires j < |r.priority| == |r.layer| && k < |r.priority|
  {
    || r.priority[j] > r.priority[k]
    || (r.priority[j] == r.priority[k] && (r.layer[j] < r.layer[k] || (r.layer[j] == r.layer[k] && j > k)))
  }

  /** The recipes in the layers before `t`, and those of layer `t` that have been walked. */
  ghost predicate Seen(r: Ranks, k: nat, t: nat, walked: seq<nat>) {
    k < |r.layer| && (r.layer[k] < t || (r.layer[k] == t && k in walked))
  }

  /** `best` beats every other eligible recipe seen so far. */
  ghost predicate IsBestOf(r: Ranks, best: Option<nat>, t: nat, walked: seq<nat>) {
    && r.Valid()
    && (best.Some? ==> best.value in r.eligible && Seen(r, best.value, t, walked))
    && (forall k ::
          k in r.eligible && Seen(r, k, t, walked) && Some(k) != best ==> best.Some? && Beats(r, best.value, k))
  }

  /** A bucket that the walk visits: recipes of one layer in registration order, all eligible ones among them. */
  ghost predicate IsBucket(bucket: seq<nat>, r: Ranks, t: nat) {
    && r.Valid()
    && (forall i :: 0 <= i < |bucket| ==> bucket[i] < |r.layer| && r.layer[bucket[i]] == t)
    && (forall i, j :: 0 <= i < j < |bucket| ==> bucket[i] < bucket[j])
    && (forall k :: k in r.eligible && r.layer[k] == t ==> k in bucket)
  }

  /** One step of the walk towards the front of a bucket. */
  lemma WalkStep(bucket: seq<nat>, i: nat, best: Option<nat>, next: Option<nat>, r: Ranks, t: nat)
    requires i < |bucket| && IsBucket(bucket, r, t) && IsBestOf(r, best, t, bucket[i + 1..])
    requires next == if (best.None? || r.priority[bucket[i]] > r.priority[best.value]) && bucket[i] in r.eligible
                     then Some(bucket[i]) else best
    ensures IsBestOf(r, next, t, bucket[i..])
  {
    assert bucket[i..] == [bucket[i]] + bucket[i + 1..];
    forall k | k in r.eligible && Seen(r, k, t, bucket[i..]) && Some(k) != next
      ensures next.Some? && Beats(r, next.value, k)
    {
      if k == bucket[i] && r.layer[best.value] == t { assert best.value in bucket[i + 1..]; }
    }
  }

  lemma WalkDone(bucket: seq<nat>, best: Option<nat>, r: Ranks, t: nat)
    requires IsBucket(bucket, r, t) && IsBestOf(r, best, t, bucket)
    ensures IsBestOf(r, best, t + 1, [])
  {}

  /**
   * When every candidate has the same priority, the walk agrees with the scan as long as the scan's choice is in the
   * first layer used.
   */
  lemma OnePriority(r: Ranks, best: Option<nat>, t: nat)
    requires IsBestOf(r, best, t, []) && forall k :: 0 <= k < |r.layer| ==> r.layer[k] < t
    requires forall j, k :: j in r.eligible && k in r.eligible ==> r.priority[j] == r.priority[k]
    ensures var scan := ScanFirst(r.priority, r.eligible, |r.priority|);
            best == scan <==> scan.None? || forall k :: k in r.eligible ==> r.layer[scan.value] <= r.layer[k]
  {
    var scan := ScanFirst(r.priority, r.eligible, |r.priority|);
    if scan.Some? {
      assert Seen(r, scan.value, t, []);
      if best == scan {
        forall k | k in r.eligible ensures r.layer[scan.value] <= r.layer[k] { assert Seen(r, k, t, []); }
      } else {
        assert ScanPrefers(r.priority, scan.value, best.value);
      }
    }
  }

  /** When equal priorities share a layer, the walk over all layers picks what the scan picks. */
  lemma WalkIsScan(r: Ranks, best: Option<nat>, t: nat)
    requires IsBestOf(r, best, t, []) && forall k :: 0 <= k < |r.layer| ==> r.layer[k] < t
    requires forall j, k ::
        j in r.eligible && k in r.eligible && r.priority[j] == r.priority[k] ==> r.layer[j] == r.layer[k]
    ensures best == ScanFirst(r.priority, r.eligible, |r.priority|)
  {
    var scan := ScanFirst(r.priority, r.eligible, |r.priority|);
    if scan.Some? {
      assert Seen(r, scan.value, t, []);
      assert best.Some? && ScanPrefers(r.priority, scan.value, best.value);
    }
  }

  // ----- filing by key -----

  /** The first `n` positions that hold `key`, in order. */
  function Filed<K(==)>(keys: seq<K>, n: nat, key: K): seq<nat>
    requires n <= |keys|
  {
    if n == 0 then [] else
      Filed(keys, n - 1, key) + if keys[n - 1] == key then [n - 1] else []
  }

  lemma {:induction false} FiledMeaning<K>(keys: seq<K>, n: nat, key: K)
    requires n <= |keys|
    ensures forall i ::
        0 <= i < |Filed(keys, n, key)| ==> Filed(keys, n, key)[i] < n && keys[Filed(keys, n, key)[i]] == key
    ensures forall i, j :: 0 <= i < j < |Filed(keys, n, key)| ==> Filed(keys, n, key)[i] < Filed(keys, n, key)[j]
    ensures forall k: nat :: k in Filed(keys, n, key) <==> k < n && keys[k] == key
  {
    if n > 0 { FiledMeaning(keys, n - 1, key); }
  }

  lemma {:induction false} FiledPrefix<K>(keys: seq<K>, more: seq<K>, n: nat, key: K)
    requires n <= |keys|
    ensures Filed(keys + more, n, key) == Filed(keys, n, key)
  {
    if n > 0 { FiledPrefix(keys, more, n - 1, key); }
  }
}
