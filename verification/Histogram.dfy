/** A histogram kept as one counter per bucket and scraped as cumulative counts. */
module Histogram {
  const DEFAULT_BOUNDS: seq<real> := [0.001, 0.005, 0.01, 0.025, 0.05, 0.1, 0.25, 0.5, 1.0, 2.5, 5.0, 10.0]

  ghost predicate Ascending(bounds: seq<real>) {
    forall i, j :: 0 <= i < j < |bounds| ==> bounds[i] < bounds[j]
  }

  /** The first bucket whose bound the value does not exceed; past the end when there is none. */
  function BucketOf(bounds: seq<real>, v: real): (i: nat)
    ensures i <= |bounds| && (i < |bounds| ==> v <= bounds[i]) && forall j :: 0 <= j < i ==> bounds[j] < v
  {
    if bounds == [] || v <= bounds[0] then 0 else 1 + BucketOf(bounds[1..], v)
  }

  /** How many values fell into bucket `i`. */
  function Tally(seen: seq<real>, bounds: seq<real>, i: nat): nat {
    if seen == [] then 0
    else Tally(seen[..|seen| - 1], bounds, i) + if BucketOf(bounds, seen[|seen| - 1]) == i then 1 else 0
  }

  /** How many values fell into the first `k` buckets. */
  function TallyBelow(seen: seq<real>, bounds: seq<real>, k: nat): nat {
    if k == 0 then 0 else TallyBelow(seen, bounds, k - 1) + Tally(seen, bounds, k - 1)
  }

  function AtMost(seen: seq<real>, bound: real): nat {
    if seen == [] then 0 else AtMost(seen[..|seen| - 1], bound) + if seen[|seen| - 1] <= bound then 1 else 0
  }

  function Sum(seen: seq<real>): real {
    if seen == [] then 0.0 else Sum(seen[..|seen| - 1]) + seen[|seen| - 1]
  }

  lemma {:induction false} TallyBelowSnoc(seen: seq<real>, bounds: seq<real>, k: nat)
    requires seen != []
    ensures TallyBelow(seen, bounds, k) ==
            TallyBelow(seen[..|seen| - 1], bounds, k) + if BucketOf(bounds, seen[|seen| - 1]) < k then 1 else 0
  {
    if k > 0 {
      TallyBelowSnoc(seen, bounds, k - 1);
    }
  }

  lemma {:induction false} TallyBelowNothing(bounds: seq<real>, k: nat)
    ensures TallyBelow([], bounds, k) == 0
  {
    if k > 0 {
      TallyBelowNothing(bounds, k - 1);
    }
  }

  /** The buckets up to a bound hold exactly the values at most that bound. */
  lemma {:induction false} CumulativeIsAtMost(seen: seq<real>, bounds: seq<real>, i: nat)
    requires Ascending(bounds) && i < |bounds|
    ensures TallyBelow(seen, bounds, i + 1) == AtMost(seen, bounds[i])
    decreases |seen|
  {
    if seen == [] {
      TallyBelowNothing(bounds, i + 1);
    } else {
      var v := seen[|seen| - 1];
      TallyBelowSnoc(seen, bounds, i + 1);
      CumulativeIsAtMost(seen[..|seen| - 1], bounds, i);
      assert BucketOf(bounds, v) <= i <==> v <= bounds[i];
    }
  }

  /** All the buckets, and the one past the end, hold every value. */
  lemma {:induction false} EveryValueIsTallied(seen: seq<real>, bounds: seq<real>)
    ensures TallyBelow(seen, bounds, |bounds|) + Tally(seen, bounds, |bounds|) == |seen|
    decreases |seen|
  {
    if seen == [] {
      TallyBelowNothing(bounds, |bounds|);
    } else {
      TallyBelowSnoc(seen, bounds, |bounds|);
      EveryValueIsTallied(seen[..|seen| - 1], bounds);
    }
  }

  lemma DefaultsAscend()
    ensures Ascending(DEFAULT_BOUNDS)
  {
  }

  /** `le` is absent for the bucket without a bound. */
  datatype HistBucket = HistBucket(le: real, count: nat, inf: bool)

  class Hist {
    const bounds: seq<real>
    const counts: array<nat>
    var inf: nat
    var sum: real
    var n: nat
    ghost var seen: seq<real>   // every value added

    ghost predicate Valid()
      reads this, counts
    {
      Ascending(bounds) && counts.Length == |bounds| && n == |seen| && sum == Sum(seen) &&
      (forall i :: 0 <= i < |bounds| ==> counts[i] == Tally(seen, bounds, i)) && inf == Tally(seen, bounds, |bounds|)
    }

    constructor ()
      ensures Valid() && seen == [] && bounds == DEFAULT_BOUNDS && fresh(counts)
    {
      DefaultsAscend();
      bounds, counts := DEFAULT_BOUNDS, new nat[|DEFAULT_BOUNDS|](_ => 0);
      inf, sum, n, seen := 0, 0.0, 0, [];
    }

    method Add(v: real)
      requires Valid()
      modifies this, counts
      ensures Valid() && seen == old(seen) + [v]
    {
      ghost var b := BucketOf(bounds, v);
      n, sum := n + 1, sum + v;
      seen := seen + [v];
      assert seen[..|seen| - 1] == old(seen);
      var i := 0;
      while i < |bounds| && bounds[i] < v
        invariant 0 <= i <= b
      {
        i := i + 1;
      }
      if i < |bounds| {
        counts[i] := counts[i] + 1;
      } else {
        inf := inf + 1;
      }
    }

    /** Each scraped count is the number of values at most its bound; the last one counts them all. */
    method Snapshot() returns (out: seq<HistBucket>, total: real, count: nat)
      requires Valid()
      ensures |out| == |bounds| + 1
      ensures forall i :: 0 <= i < |bounds| ==> out[i] == HistBucket(bounds[i], AtMost(seen, bounds[i]), false)
      ensures out[|bounds|] == HistBucket(0.0, count, true) && count == |seen| && total == Sum(seen)
    {
      out := [];
      var cum := 0;
      var i := 0;
      while i < |bounds|
        invariant 0 <= i <= |bounds| == counts.Length && |out| == i && cum == TallyBelow(seen, bounds, i)
        invariant forall j :: 0 <= j < i ==> out[j] == HistBucket(bounds[j], AtMost(seen, bounds[j]), false)
      {
        cum := cum + counts[i];
        CumulativeIsAtMost(seen, bounds, i);
        out := out + [HistBucket(bounds[i], cum, false)];
        i := i + 1;
      }
      EveryValueIsTallied(seen, bounds);
      cum := cum + inf;
      out := out + [HistBucket(0.0, cum, true)];
      total, count := sum, n;
    }
  }
}
