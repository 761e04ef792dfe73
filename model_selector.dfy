/**
 * `selectModel`: sort the profiles by tier, keep the cheapest, the dearest or the middle tier
 * according to the task's cost tier, and prefer a profile whose default uses name the task's
 * complexity hint.
 */
module ModelSelector {
  import opened Wrappers
  import opened Json
  import opened Seqs
  import opened PolicyTypes

  // ----- A stable sort by a numeric key -----

  ghost predicate SortedBy<T>(s: seq<T>, key: T -> real) {
    forall i, j :: 0 <= i < j < |s| ==> key(s[i]) <= key(s[j])
  }

  /** Where a stable insertion puts `x`: before the first element with a larger key. */
  function Position<T>(s: seq<T>, x: T, key: T -> real): (p: nat)
    ensures p <= |s|
    ensures forall k :: 0 <= k < p ==> key(s[k]) <= key(x)
    ensures p < |s| ==> key(x) < key(s[p])
  {
    if |s| == 0 then 0
    else if key(x) < key(s[0]) then 0
    else 1 + Position(s[1..], x, key)
  }

  function InsertBy<T>(s: seq<T>, x: T, key: T -> real): seq<T> {
    var p := Position(s, x, key);
    s[..p] + [x] + s[p..]
  }

  /**
   * `[...s].sort((a, b) => key(a) - key(b))`. The sort is stable, so it is modelled as an
   * insertion sort that takes the elements from left to right and puts each after its equals.
   */
  function SortBy<T>(s: seq<T>, key: T -> real): seq<T> {
    if |s| == 0 then [] else InsertBy(SortBy(s[..|s| - 1], key), s[|s| - 1], key)
  }

  /** The elements whose key is `k`, in order (`filter`). */
  function WithKey<T>(s: seq<T>, key: T -> real, k: real): seq<T> {
    if |s| == 0 then []
    else WithKey(s[..|s| - 1], key, k) + (if key(s[|s| - 1]) == k then [s[|s| - 1]] else [])
  }

  // ----- Numbers -----

  function TierOf(m: ModelProfile): real {
    m.tier
  }

  function Id(x: real): real {
    x
  }

  function Tiers(ms: seq<ModelProfile>): (ts: seq<real>)
    ensures |ts| == |ms| && forall i :: 0 <= i < |ms| ==> ts[i] == ms[i].tier
  {
    seq(|ms|, i requires 0 <= i < |ms| => ms[i].tier)
  }

  /** `Math.min(...ts)` of a non-empty list. */
  function MinOf(ts: seq<real>): (r: real)
    requires |ts| > 0
    ensures r in ts && forall x :: x in ts ==> r <= x
  {
    if |ts| == 1 then ts[0]
    else var m := MinOf(ts[..|ts| - 1]);
      assert forall x :: x in ts ==> x in ts[..|ts| - 1] || x == ts[|ts| - 1];
      if ts[|ts| - 1] < m then ts[|ts| - 1] else m
  }

  /** `Math.max(...ts)` of a non-empty list. */
  function MaxOf(ts: seq<real>): (r: real)
    requires |ts| > 0
    ensures r in ts && forall x :: x in ts ==> x <= r
  {
    if |ts| == 1 then ts[0]
    else var m := MaxOf(ts[..|ts| - 1]);
      assert forall x :: x in ts ==> x in ts[..|ts| - 1] || x == ts[|ts| - 1];
      if ts[|ts| - 1] > m then ts[|ts| - 1] else m
  }

  /** `[...new Set(ts)]`: each value once, in the order of its first occurrence. */
  function Dedup(ts: seq<real>): (r: seq<real>)
    ensures forall x :: x in r <==> x in ts
    ensures Distinct(r)
  {
    if |ts| == 0 then []
    else
      var front := ts[..|ts| - 1];
      assert forall x :: x in ts <==> x in front || x == ts[|ts| - 1];
      Dedup(front) + (if ts[|ts| - 1] in front then [] else [ts[|ts| - 1]])
  }

  /** The index the source picks from `n` unique tiers: `n / 2 - 1` when `n` is even, `n / 2` when odd. */
  function MiddleIndex(n: nat): (r: int)
    ensures n >= 1 ==> r == (n - 1) / 2
  {
    if n % 2 == 0 then n / 2 - 1 else n / 2
  }

  /** `Math.round`: halves round up. */
  function Round(x: real): (r: int)
    ensures r as real <= x + 0.5 < r as real + 1.0
  {
    (x + 0.5).Floor
  }

  function Abs(x: real): real {
    if x < 0.0 then -x else x
  }

  /** The `reduce` keeping the first profile whose tier is nearest to `target`. */
  function Closest(ms: seq<ModelProfile>, target: real): (r: ModelProfile)
    requires |ms| > 0
    ensures r in ms && forall m :: m in ms ==> Abs(r.tier - target) <= Abs(m.tier - target)
  {
    if |ms| == 1 then ms[0]
    else
      var c := Closest(ms[..|ms| - 1], target);
      var cur := ms[|ms| - 1];
      assert forall m :: m in ms ==> m in ms[..|ms| - 1] || m == cur;
      if Abs(cur.tier - target) < Abs(c.tier - target) then cur else c
  }

  // ----- Selection -----

  /** The profiles whose default uses include the hint (`defaultUse.includes`). */
  function WithHint(ms: seq<ModelProfile>, hint: string): seq<ModelProfile> {
    if |ms| == 0 then []
    else WithHint(ms[..|ms| - 1], hint) + (if JString(hint) in ms[|ms| - 1].defaultUse then [ms[|ms| - 1]] else [])
  }

  /** The candidates left after the cost-tier step, from the tier-sorted profiles. */
  function Filtered(sorted: seq<ModelProfile>, costTier: string): (r: seq<ModelProfile>)
    requires |sorted| > 0
    ensures |r| > 0
    ensures forall m :: m in r ==> m in sorted
  {
    var ts := Tiers(sorted);
    if costTier == "low" then
      TierPresent(sorted, MinOf(ts));
      WithKeyMembers(sorted, TierOf, MinOf(ts));
      WithKey(sorted, TierOf, MinOf(ts))
    else if costTier == "high" then
      TierPresent(sorted, MaxOf(ts));
      WithKeyMembers(sorted, TierOf, MaxOf(ts));
      WithKey(sorted, TierOf, MaxOf(ts))
    else
      var lo, hi := MinOf(ts), MaxOf(ts);
      if lo == hi then sorted
      else
        var unique := SortBy(Dedup(ts), Id);
        var mid := MiddleIndex(|unique|);
        var f := if 0 <= mid < |unique| then WithKey(sorted, TierOf, unique[mid]) else [];
        assert forall m :: m in f ==> m in sorted by {
          if 0 <= mid < |unique| {
            WithKeyMembers(sorted, TierOf, unique[mid]);
          }
        }
        if |f| == 0 then [Closest(sorted, Round((lo + hi) / 2.0) as real)] else f
  }

  /**
   * `selectModel`: no model for an empty catalogue, otherwise one of the catalogue's models,
   * taken from the cost tier's candidates by the complexity hint.
   */
  function SelectModel(models: seq<ModelProfile>, task: TaskAttributes): (r: Option<ModelProfile>)
    ensures r.None? <==> |models| == 0
    ensures r.Some? ==> r.value in models
  {
    if |models| == 0 then None
    else
      var sorted := SortBy(models, TierOf);
      SortPermutes(models, TierOf);
      assert forall m :: m in sorted ==> m in models by {
        forall m | m in sorted ensures m in models {
          assert m in multiset(sorted);
        }
      }
      var filtered := Filtered(sorted, task.costTier);
      var matches := WithHint(filtered, task.complexityHint);
      HintChosen(filtered, task.complexityHint);
      // The candidates are never empty, so the `sortedModels[0]` fallback cannot be taken.
      if |matches| > 0 then Some(matches[0]) else Some(filtered[0])
  }

  /** The first candidate naming the hint, or else the first candidate. */
  function Preferred(candidates: seq<ModelProfile>, hint: string): Option<ModelProfile> {
    var matches := WithHint(candidates, hint);
    if |matches| > 0 then Some(matches[0])
    else if |candidates| > 0 then Some(candidates[0])
    else None
  }

  // ----- Properties of the sort and the filters -----

  lemma {:induction false} WithKeyAppend<T>(a: seq<T>, b: seq<T>, key: T -> real, k: real)
    ensures WithKey(a + b, key, k) == WithKey(a, key, k) + WithKey(b, key, k)
  {
    if |b| == 0 {
      assert a + b == a;
    } else {
      WithKeyAppend(a, b[..|b| - 1], key, k);
      assert (a + b)[..|a + b| - 1] == a + b[..|b| - 1];
    }
  }

  /** The filter keeps exactly the elements with that key. */
  lemma {:induction false} WithKeyMembers<T>(s: seq<T>, key: T -> real, k: real)
    ensures forall x :: x in WithKey(s, key, k) <==> x in s && key(x) == k
  {
    if |s| > 0 {
      WithKeyMembers(s[..|s| - 1], key, k);
      assert s == s[..|s| - 1] + [s[|s| - 1]];
    }
  }

  lemma {:induction false} WithKeyAll<T>(s: seq<T>, key: T -> real, k: real)
    requires forall i :: 0 <= i < |s| ==> key(s[i]) == k
    ensures WithKey(s, key, k) == s
  {
    if |s| > 0 {
      WithKeyAll(s[..|s| - 1], key, k);
    }
  }

  lemma {:induction false} WithKeyNone<T>(s: seq<T>, key: T -> real, k: real)
    requires forall i :: 0 <= i < |s| ==> key(s[i]) != k
    ensures WithKey(s, key, k) == []
  {
    if |s| > 0 {
      WithKeyNone(s[..|s| - 1], key, k);
    }
  }

  lemma InsertSorted<T>(s: seq<T>, x: T, key: T -> real)
    requires SortedBy(s, key)
    ensures SortedBy(InsertBy(s, x, key), key)
  {
    var p := Position(s, x, key);
    var r := InsertBy(s, x, key);
    forall i, j | 0 <= i < j < |r|
      ensures key(r[i]) <= key(r[j])
    {
      if j < p {
        assert r[i] == s[i] && r[j] == s[j];
      } else if j == p {
        assert r[i] == s[i] && r[j] == x;
      } else if i < p {
        assert r[i] == s[i] && r[j] == s[j - 1];
      } else if i == p {
        assert r[j] == s[j - 1];
      } else {
        assert r[i] == s[i - 1] && r[j] == s[j - 1];
      }
    }
  }

  /** Inserting keeps the earlier elements of each key and puts `x` after them. */
  lemma InsertWithKey<T>(s: seq<T>, x: T, key: T -> real, k: real)
    requires SortedBy(s, key)
    ensures WithKey(InsertBy(s, x, key), key, k) == WithKey(s, key, k) + (if key(x) == k then [x] else [])
  {
    var p := Position(s, x, key);
    assert s == s[..p] + s[p..];
    WithKeyAppend(s[..p], s[p..], key, k);
    WithKeyAppend(s[..p] + [x], s[p..], key, k);
    WithKeyAppend(s[..p], [x], key, k);
    assert WithKey([x], key, k) == (if key(x) == k then [x] else []) by {
      assert [x][..0] == [];
    }
    if key(x) == k {
      WithKeyNone(s[p..], key, k);
    }
  }

  /** The sort orders by key. */
  lemma {:induction false} SortOrders<T>(s: seq<T>, key: T -> real)
    ensures SortedBy(SortBy(s, key), key)
  {
    if |s| > 0 {
      SortOrders(s[..|s| - 1], key);
      InsertSorted(SortBy(s[..|s| - 1], key), s[|s| - 1], key);
    }
  }

  /** The sort is a permutation. */
  lemma {:induction false} SortPermutes<T>(s: seq<T>, key: T -> real)
    ensures multiset(SortBy(s, key)) == multiset(s)
  {
    if |s| > 0 {
      var front, x := s[..|s| - 1], s[|s| - 1];
      SortPermutes(front, key);
      var t := SortBy(front, key);
      var p := Position(t, x, key);
      assert t == t[..p] + t[p..];
      assert s == front + [x];
    }
  }

  /** The sort keeps the order among elements of equal key. */
  lemma {:induction false} SortStable<T>(s: seq<T>, key: T -> real, k: real)
    ensures WithKey(SortBy(s, key), key, k) == WithKey(s, key, k)
  {
    if |s| > 0 {
      var front, x := s[..|s| - 1], s[|s| - 1];
      SortStable(front, key, k);
      SortOrders(front, key);
      InsertWithKey(SortBy(front, key), x, key, k);
    }
  }

  /** Sorting an already sorted list changes nothing. */
  lemma {:induction false} SortSorted<T>(s: seq<T>, key: T -> real)
    requires SortedBy(s, key)
    ensures SortBy(s, key) == s
  {
    if |s| > 0 {
      var front, last := s[..|s| - 1], s[|s| - 1];
      SortedFront(s, key);
      SortSorted(front, key);
      InsertAtEnd(front, last, key);
      SplitLast(s);
    }
  }

  /** The front of a sorted sequence is sorted, and no key in it exceeds the last. */
  lemma SortedFront<T>(s: seq<T>, key: T -> real)
    requires SortedBy(s, key) && |s| > 0
    ensures SortedBy(s[..|s| - 1], key)
    ensures forall k :: 0 <= k < |s| - 1 ==> key(s[k]) <= key(s[|s| - 1])
  {
  }

  /** An element whose key is at least every key goes at the end. */
  lemma InsertAtEnd<T>(s: seq<T>, x: T, key: T -> real)
    requires forall k :: 0 <= k < |s| ==> key(s[k]) <= key(x)
    ensures InsertBy(s, x, key) == s + [x]
  {
    var p := Position(s, x, key);
    assert p == |s|;
    assert s[..p] == s && s[p..] == [];
  }

  /** The distinct values below `t`. */
  function Below(ts: seq<real>, t: real): set<real> {
    set x | x in ts && x < t
  }

  ghost predicate Increasing(ts: seq<real>) {
    forall i, j :: 0 <= i < j < |ts| ==> ts[i] < ts[j]
  }

  /** The distinct values of a sorted list come out strictly increasing. */
  lemma {:induction false} DedupIncreasing(ts: seq<real>)
    requires SortedBy(ts, Id)
    ensures Increasing(Dedup(ts))
  {
    if |ts| > 0 {
      var front, x := ts[..|ts| - 1], ts[|ts| - 1];
      DedupIncreasing(front);
      var d := Dedup(front);
      if x !in front {
        forall i | 0 <= i < |d|
          ensures d[i] < x
        {
          assert d[i] in front;
          var k :| 0 <= k < |front| && front[k] == d[i];
          assert Id(ts[k]) <= Id(ts[|ts| - 1]);
        }
      }
    }
  }

  /** In a strictly increasing list exactly `i` values lie below the one at `i`. */
  lemma Rank(u: seq<real>, i: nat)
    requires Increasing(u) && i < |u|
    ensures |Below(u, u[i])| == i
  {
    assert Below(u, u[i]) == Elems(u[..i]) by {
      forall x | x in u && x < u[i]
        ensures x in u[..i]
      {
        var k :| 0 <= k < |u| && u[k] == x;
        assert u[k] == u[..i][k];
      }
    }
    ElemsCard(u[..i]);
  }

  /** Sorting by tier keeps the same profiles and the same set of tiers, and orders the tiers. */
  lemma SortedTiers(models: seq<ModelProfile>)
    ensures var sorted := SortBy(models, TierOf);
            SortedBy(Tiers(sorted), Id)
            && (forall x :: x in Tiers(sorted) <==> x in Tiers(models))
            && (forall m :: m in sorted <==> m in models)
  {
    SortOrders(models, TierOf);
    SortPermutes(models, TierOf);
    var sorted := SortBy(models, TierOf);
    assert forall m :: m in sorted <==> m in models by {
      forall m
        ensures m in sorted <==> m in models
      {
        assert m in sorted <==> m in multiset(sorted);
      }
    }
    SameTiers(models, sorted);
    SameTiers(sorted, models);
    assert SortedBy(Tiers(sorted), Id) by {
      forall i, j | 0 <= i < j < |sorted|
        ensures Id(Tiers(sorted)[i]) <= Id(Tiers(sorted)[j])
      {
        assert TierOf(sorted[i]) <= TierOf(sorted[j]);
      }
    }
  }

  /** Every tier of `a` is a tier of `b` when every profile of `a` is in `b`. */
  lemma SameTiers(a: seq<ModelProfile>, b: seq<ModelProfile>)
    requires forall m :: m in a ==> m in b
    ensures forall x :: x in Tiers(a) ==> x in Tiers(b)
  {
    forall x | x in Tiers(a)
      ensures x in Tiers(b)
    {
      var k :| 0 <= k < |a| && Tiers(a)[k] == x;
      assert a[k] in b;
      var j :| 0 <= j < |b| && b[j] == a[k];
      assert Tiers(b)[j] == x;
    }
  }

  /** A tier that occurs has candidates, all of that tier. */
  lemma TierPresent(ms: seq<ModelProfile>, t: real)
    requires t in Tiers(ms)
    ensures |WithKey(ms, TierOf, t)| > 0 && WithKey(ms, TierOf, t)[0].tier == t
  {
    WithKeyMembers(ms, TierOf, t);
    var k :| 0 <= k < |ms| && Tiers(ms)[k] == t;
    assert ms[k] in WithKey(ms, TierOf, t);
    assert WithKey(ms, TierOf, t)[0] in WithKey(ms, TierOf, t);
  }

  /** With one tier, it is the only one and every profile has it. */
  lemma SameTier(ms: seq<ModelProfile>)
    requires |ms| > 0 && MinOf(Tiers(ms)) == MaxOf(Tiers(ms))
    ensures var t := MinOf(Tiers(ms));
            WithKey(ms, TierOf, t) == ms && |Elems(Tiers(ms))| == 1 && Below(Tiers(ms), t) == {}
  {
    var t := MinOf(Tiers(ms));
    OneTier(ms, t);
  }

  lemma OneTier(ms: seq<ModelProfile>, t: real)
    requires t in Tiers(ms) && forall x :: x in Tiers(ms) ==> x == t
    ensures WithKey(ms, TierOf, t) == ms && |Elems(Tiers(ms))| == 1 && Below(Tiers(ms), t) == {}
  {
    var ts := Tiers(ms);
    forall i | 0 <= i < |ms|
      ensures TierOf(ms[i]) == t
    {
      assert ts[i] in ts;
    }
    WithKeyAll(ms, TierOf, t);
    SingleValue(ts, t);
  }

  /** Lists with the same values have the same distinct values below any bound. */
  lemma SameValues(a: seq<real>, b: seq<real>)
    requires forall x :: x in a <==> x in b
    ensures Elems(a) == Elems(b) && forall t :: Below(a, t) == Below(b, t)
  {
    assert Elems(a) == Elems(b) by {
      forall x
        ensures x in Elems(a) <==> x in Elems(b)
      {
      }
    }
    forall t
      ensures Below(a, t) == Below(b, t)
    {
      forall x
        ensures x in Below(a, t) <==> x in Below(b, t)
      {
      }
    }
  }

  lemma SingleValue(ts: seq<real>, t: real)
    requires t in ts && forall x :: x in ts ==> x == t
    ensures |Elems(ts)| == 1 && Below(ts, t) == {}
  {
    assert Elems(ts) == {t} by {
      forall x | x in Elems(ts)
        ensures x == t
      {
      }
    }
  }

  /** The distinct tiers of a sorted list are already in order, so sorting them again changes nothing. */
  lemma UniqueSorted(ts: seq<real>)
    requires SortedBy(ts, Id)
    ensures SortBy(Dedup(ts), Id) == Dedup(ts) && Increasing(Dedup(ts))
  {
    DedupIncreasing(ts);
    var d := Dedup(ts);
    assert SortedBy(d, Id) by {
      forall i, j | 0 <= i < j < |d|
        ensures Id(d[i]) <= Id(d[j])
      {
      }
    }
    SortSorted(d, Id);
  }

  /** With several tiers, the middle pick is an occurring tier with as many distinct tiers below it as the lower middle has. */
  lemma MiddleTier(ts: seq<real>)
    requires SortedBy(ts, Id) && |ts| > 0
    ensures var unique := SortBy(Dedup(ts), Id);
            var mid := MiddleIndex(|unique|);
            0 <= mid < |unique| && unique[mid] in ts
            && |Below(ts, unique[mid])| == (|Elems(ts)| - 1) / 2
  {
    UniqueSorted(ts);
    var d := Dedup(ts);
    assert ts[0] in d;
    var mid := MiddleIndex(|d|);
    Rank(d, mid);
    SameValues(ts, d);
    ElemsCard(d);
  }

  lemma HintChosen(candidates: seq<ModelProfile>, hint: string)
    ensures forall m :: m in WithHint(candidates, hint) ==> m in candidates
  {
    if |candidates| > 0 {
      HintChosen(candidates[..|candidates| - 1], hint);
      assert forall m :: m in candidates[..|candidates| - 1] ==> m in candidates;
    }
  }

  /** The tier the cost-tier step keeps has candidates, so the nearest-tier fallback is never taken. */
  lemma FilteredIsTier(models: seq<ModelProfile>, costTier: string) returns (t: real)
    requires |models| > 0
    ensures var sorted := SortBy(models, TierOf);
            var f := Filtered(sorted, costTier);
            |f| > 0 && f == WithKey(sorted, TierOf, t) && f[0].tier == t
    ensures var tiers := Tiers(models);
            && t in tiers
            && (costTier == "low" ==> forall x :: x in tiers ==> t <= x)
            && (costTier == "high" ==> forall x :: x in tiers ==> x <= t)
            && (costTier != "low" && costTier != "high" ==>
                  |Below(tiers, t)| == (|Elems(tiers)| - 1) / 2)
  {
    var sorted := SortBy(models, TierOf);
    SortedTiers(models);
    var ts := Tiers(sorted);
    var tiers := Tiers(models);
    var lo, hi := MinOf(ts), MaxOf(ts);
    if costTier == "low" {
      t := lo;
      assert Filtered(sorted, costTier) == WithKey(sorted, TierOf, t);
    } else if costTier == "high" {
      t := hi;
      assert Filtered(sorted, costTier) == WithKey(sorted, TierOf, t);
    } else if lo == hi {
      t := lo;
      SameTier(sorted);
      SameValues(tiers, ts);
      assert Filtered(sorted, costTier) == WithKey(sorted, TierOf, t);
    } else {
      MiddleTier(ts);
      var unique := SortBy(Dedup(ts), Id);
      t := unique[MiddleIndex(|unique|)];
      SameValues(tiers, ts);
      TierPresent(sorted, t);
      assert Filtered(sorted, costTier) == WithKey(sorted, TierOf, t);
    }
    TierPresent(sorted, t);
  }

  /**
   * The choice: among the profiles of the kept tier, in their original order, the first that
   * names the complexity hint, or else the first of them. The kept tier is the lowest for "low",
   * the highest for "high", and otherwise the lower middle of the distinct tiers.
   */
  lemma SelectCharacterised(models: seq<ModelProfile>, task: TaskAttributes)
    requires |models| > 0
    ensures var r := SelectModel(models, task);
            var tiers := Tiers(models);
            r.Some? && r.value in models
            && r == Preferred(WithKey(models, TierOf, r.value.tier), task.complexityHint)
            && (task.costTier == "low" ==> forall x :: x in tiers ==> r.value.tier <= x)
            && (task.costTier == "high" ==> forall x :: x in tiers ==> x <= r.value.tier)
            && (task.costTier != "low" && task.costTier != "high" ==>
                  |Below(tiers, r.value.tier)| == (|Elems(tiers)| - 1) / 2)
  {
    var sorted := SortBy(models, TierOf);
    var t := FilteredIsTier(models, task.costTier);
    var f := Filtered(sorted, task.costTier);
    SelectFromFiltered(models, task);
    SortStable(models, TierOf, t);
    WithKeyMembers(sorted, TierOf, t);
    SortedTiers(models);
    PreferredIn(f, task.complexityHint);
  }

  lemma SelectFromFiltered(models: seq<ModelProfile>, task: TaskAttributes)
    requires |models| > 0 && |Filtered(SortBy(models, TierOf), task.costTier)| > 0
    ensures SelectModel(models, task) == Preferred(Filtered(SortBy(models, TierOf), task.costTier), task.complexityHint)
  {
  }

  lemma PreferredIn(candidates: seq<ModelProfile>, hint: string)
    requires |candidates| > 0
    ensures Preferred(candidates, hint).Some? && Preferred(candidates, hint).value in candidates
  {
    HintChosen(candidates, hint);
    var matches := WithHint(candidates, hint);
    if |matches| > 0 {
      assert matches[0] in matches;
    }
  }

  /** With a single tier every profile is a candidate, in the given order. */
  lemma SingleTier(models: seq<ModelProfile>, task: TaskAttributes)
    requires |models| > 0
    requires forall i :: 0 <= i < |models| ==> models[i].tier == models[0].tier
    ensures SelectModel(models, task) == Preferred(models, task.complexityHint)
  {
    SelectCharacterised(models, task);
    var r := SelectModel(models, task).value;
    assert r.tier == models[0].tier;
    WithKeyAll(models, TierOf, models[0].tier);
  }
}
