/**
  Per-direction statistics: for each of the twelve clock positions, the number
  of trials, the number of bullseyes, and the sum, minimum and maximum of the
  reaction times. The computation follows the game's single pass over the
  trials; the lemmas relate it to the reference folds of the data model.
 */
module DirStats {
  import opened Config
  import opened Trials

  datatype DirAgg = DirAgg(n: int, bulls: int, sumMs: real, minMs: real, maxMs: real)

  /** A bucket before any trial has been added to it. */
  const Fresh: DirAgg := DirAgg(0, 0, 0.0, MinSentinel, 0.0)

  /** Adds one trial to a bucket. */
  function Absorb(d: DirAgg, t: Trial): DirAgg
  {
    DirAgg(
      d.n + 1,
      d.bulls + (if t.hitInner then 1 else 0),
      d.sumMs + t.reactionMs,
      if t.reactionMs < d.minMs then t.reactionMs else d.minMs,
      if t.reactionMs > d.maxMs then t.reactionMs else d.maxMs)
  }

  /** The twelve buckets after adding every trial of `ts`, in order. */
  function Accumulate(ts: seq<Trial>): (a: seq<DirAgg>)
    requires IndicesInRange(ts)
    ensures |a| == Directions
    decreases |ts|
  {
    if |ts| == 0 then seq(Directions, _ => Fresh)
    else
      var a := Accumulate(ts[..|ts| - 1]);
      var t := ts[|ts| - 1];
      a[t.targetIndex := Absorb(a[t.targetIndex], t)]
  }

  /** The per-direction statistics: the accumulated buckets, with the minimum of
      every empty bucket reset from the sentinel to zero. Bucket `i` counts, tallies
      and sums exactly the trials aimed at direction `i`, and an empty bucket
      reports zero everywhere. */
  function ComputeDirStats(ts: seq<Trial>): (a: seq<DirAgg>)
    requires IndicesInRange(ts)
    ensures |a| == Directions
    ensures forall i :: 0 <= i < Directions ==>
      && a[i].n == |InDir(ts, i)|
      && a[i].bulls == Bullseyes(InDir(ts, i))
      && a[i].sumMs == ReactionSum(InDir(ts, i))
      && (|InDir(ts, i)| == 0 ==> a[i] == DirAgg(0, 0, 0.0, 0.0, 0.0))
  {
    AccumulateCountsAll(ts);
    var acc := Accumulate(ts);
    seq(Directions, i requires 0 <= i < Directions =>
      if acc[i].n == 0 then acc[i].(minMs := 0.0) else acc[i])
  }

  /** Reaction times the extremes are stated for: non-negative, and not above the
      sentinel the running minimum starts from. */
  predicate TimesInRange(ts: seq<Trial>)
  {
    forall k :: 0 <= k < |ts| ==> 0.0 <= ts[k].reactionMs <= MinSentinel
  }

  /** `lo` and `hi` are the least and the greatest reaction time of `bucket`. */
  predicate MinMax(lo: real, hi: real, bucket: seq<Trial>)
  {
    && lo <= hi
    && (forall k :: 0 <= k < |bucket| ==> lo <= bucket[k].reactionMs <= hi)
    && (exists k :: 0 <= k < |bucket| && bucket[k].reactionMs == lo)
    && (exists k :: 0 <= k < |bucket| && bucket[k].reactionMs == hi)
  }

  /** `a` holds the least and the greatest reaction time of `bucket`. */
  predicate Extremes(a: DirAgg, bucket: seq<Trial>)
  {
    MinMax(a.minMs, a.maxMs, bucket)
  }

  lemma PrefixFacts(ts: seq<Trial>)
    requires |ts| > 0
    ensures IndicesInRange(ts) ==> IndicesInRange(ts[..|ts| - 1])
    ensures TimesInRange(ts) ==> TimesInRange(ts[..|ts| - 1])
  {
  }

  /** Appending one trial extends the reference folds by that trial. */
  lemma FoldsSnoc(s: seq<Trial>, t: Trial)
    ensures Bullseyes(s + [t]) == Bullseyes(s) + (if t.hitInner then 1 else 0)
    ensures ReactionSum(s + [t]) == ReactionSum(s) + t.reactionMs
  {
    assert (s + [t])[..|s|] == s;
  }

  /** The last trial of `ts` either joins bucket `d` or leaves it as it was. */
  lemma AccumulateSnoc(ts: seq<Trial>, d: int)
    requires IndicesInRange(ts) && |ts| > 0
    requires 0 <= d < Directions
    ensures IndicesInRange(ts[..|ts| - 1])
    ensures var p := ts[..|ts| - 1]; var t := ts[|ts| - 1];
      if t.targetIndex == d
      then InDir(ts, d) == InDir(p, d) + [t] && Accumulate(ts)[d] == Absorb(Accumulate(p)[d], t)
      else InDir(ts, d) == InDir(p, d) && Accumulate(ts)[d] == Accumulate(p)[d]
  {
  }

  /** Each accumulated bucket counts, sums and tallies exactly the trials aimed at it. */
  lemma {:induction false} AccumulateCounts(ts: seq<Trial>, d: int)
    requires IndicesInRange(ts)
    requires 0 <= d < Directions
    ensures Accumulate(ts)[d].n == |InDir(ts, d)|
    ensures Accumulate(ts)[d].bulls == Bullseyes(InDir(ts, d))
    ensures Accumulate(ts)[d].sumMs == ReactionSum(InDir(ts, d))
    ensures |InDir(ts, d)| == 0 ==> Accumulate(ts)[d] == Fresh
    decreases |ts|
  {
    if |ts| > 0 {
      var p := ts[..|ts| - 1];
      AccumulateSnoc(ts, d);
      AccumulateCounts(p, d);
      FoldsSnoc(InDir(p, d), ts[|ts| - 1]);
    }
  }

  /** `AccumulateCounts` for every direction at once. */
  lemma AccumulateCountsAll(ts: seq<Trial>)
    requires IndicesInRange(ts)
    ensures forall d :: 0 <= d < Directions ==>
      && Accumulate(ts)[d].n == |InDir(ts, d)|
      && Accumulate(ts)[d].bulls == Bullseyes(InDir(ts, d))
      && Accumulate(ts)[d].sumMs == ReactionSum(InDir(ts, d))
      && (|InDir(ts, d)| == 0 ==> Accumulate(ts)[d] == Fresh)
  {
    forall d | 0 <= d < Directions
      ensures && Accumulate(ts)[d].n == |InDir(ts, d)|
              && Accumulate(ts)[d].bulls == Bullseyes(InDir(ts, d))
              && Accumulate(ts)[d].sumMs == ReactionSum(InDir(ts, d))
              && (|InDir(ts, d)| == 0 ==> Accumulate(ts)[d] == Fresh)
    {
      AccumulateCounts(ts, d);
    }
  }

  /** The bucket's minimum and maximum are the least and greatest reaction time
      of its trials, both attained. */
  lemma {:induction false} AccumulateExtremes(ts: seq<Trial>, d: int)
    requires IndicesInRange(ts) && TimesInRange(ts)
    requires 0 <= d < Directions
    ensures |InDir(ts, d)| > 0 ==> Extremes(Accumulate(ts)[d], InDir(ts, d))
    decreases |ts|
  {
    if |ts| > 0 {
      var p := ts[..|ts| - 1];
      var t := ts[|ts| - 1];
      PrefixFacts(ts);
      AccumulateSnoc(ts, d);
      AccumulateCounts(p, d);
      AccumulateExtremes(p, d);
      var bucket := InDir(p, d);
      if t.targetIndex == d {
        var prev := Accumulate(p)[d];
        var a := Absorb(prev, t);
        var bucket' := bucket + [t];
        assert bucket'[|bucket|] == t;
        if |bucket| == 0 {
          assert prev == Fresh;
          assert a.minMs == t.reactionMs == a.maxMs;
        } else {
          var kMin :| 0 <= kMin < |bucket| && bucket[kMin].reactionMs == prev.minMs;
          var kMax :| 0 <= kMax < |bucket| && bucket[kMax].reactionMs == prev.maxMs;
          assert bucket'[kMin] == bucket[kMin] && bucket'[kMax] == bucket[kMax];
          forall k | 0 <= k < |bucket'|
            ensures a.minMs <= bucket'[k].reactionMs <= a.maxMs
          {
            if k < |bucket| {
              assert bucket'[k] == bucket[k];
            }
          }
        }
      }
    }
  }

  /** Per bucket: the count, bullseye count and sum cover exactly the trials aimed
      at that direction; bullseyes never exceed the count; an empty bucket reports
      zero everywhere. */
  lemma DirStatsBucket(ts: seq<Trial>, d: int)
    requires IndicesInRange(ts)
    requires 0 <= d < Directions
    ensures ComputeDirStats(ts)[d].n == |InDir(ts, d)|
    ensures ComputeDirStats(ts)[d].bulls == Bullseyes(InDir(ts, d)) <= ComputeDirStats(ts)[d].n
    ensures ComputeDirStats(ts)[d].sumMs == ReactionSum(InDir(ts, d))
    ensures |InDir(ts, d)| == 0 ==> ComputeDirStats(ts)[d] == DirAgg(0, 0, 0.0, 0.0, 0.0)
  {
    AccumulateCounts(ts, d);
  }

  /** Per non-empty bucket, given non-negative reaction times below the sentinel:
      minimum and maximum bound every reaction time in the bucket and are attained. */
  lemma DirStatsExtremes(ts: seq<Trial>, d: int)
    requires IndicesInRange(ts) && TimesInRange(ts)
    requires 0 <= d < Directions
    ensures |InDir(ts, d)| > 0 ==> Extremes(ComputeDirStats(ts)[d], InDir(ts, d))
  {
    AccumulateCounts(ts, d);
    AccumulateExtremes(ts, d);
  }

  /** Total of a column of counts over a list of buckets. */
  function CountTotal(a: seq<DirAgg>): int
  {
    if |a| == 0 then 0 else a[0].n + CountTotal(a[1..])
  }

  /** Total of the bullseye column over a list of buckets. */
  function BullsTotal(a: seq<DirAgg>): int
  {
    if |a| == 0 then 0 else a[0].bulls + BullsTotal(a[1..])
  }

  /** Replacing one bucket changes the column totals by the difference. */
  lemma {:induction false} TotalsUpdate(a: seq<DirAgg>, i: int, x: DirAgg)
    requires 0 <= i < |a|
    ensures CountTotal(a[i := x]) == CountTotal(a) - a[i].n + x.n
    ensures BullsTotal(a[i := x]) == BullsTotal(a) - a[i].bulls + x.bulls
  {
    if i == 0 {
      assert a[i := x][1..] == a[1..];
    } else {
      assert a[i := x][1..] == a[1..][i - 1 := x];
      TotalsUpdate(a[1..], i - 1, x);
    }
  }

  /** Lists of buckets with the same counts and bullseyes have the same totals. */
  lemma {:induction false} TotalsAgree(a: seq<DirAgg>, b: seq<DirAgg>)
    requires |a| == |b|
    requires forall i :: 0 <= i < |a| ==> a[i].n == b[i].n && a[i].bulls == b[i].bulls
    ensures CountTotal(a) == CountTotal(b) && BullsTotal(a) == BullsTotal(b)
  {
    if |a| > 0 {
      TotalsAgree(a[1..], b[1..]);
    }
  }

  lemma FreshTotals(k: nat)
    ensures CountTotal(seq(k, _ => Fresh)) == 0 && BullsTotal(seq(k, _ => Fresh)) == 0
  {
    if k > 0 {
      assert seq(k, _ => Fresh)[1..] == seq(k - 1, _ => Fresh);
      FreshTotals(k - 1);
    }
  }

  lemma {:induction false} AccumulateTotals(ts: seq<Trial>)
    requires IndicesInRange(ts)
    ensures CountTotal(Accumulate(ts)) == |ts|
    ensures BullsTotal(Accumulate(ts)) == Bullseyes(ts)
    decreases |ts|
  {
    if |ts| == 0 {
      FreshTotals(Directions);
    } else {
      var p := ts[..|ts| - 1];
      var t := ts[|ts| - 1];
      PrefixFacts(ts);
      AccumulateTotals(p);
      var a := Accumulate(p);
      TotalsUpdate(a, t.targetIndex, Absorb(a[t.targetIndex], t));
    }
  }

  /** The twelve buckets together count every trial exactly once, and every
      bullseye exactly once. */
  lemma {:induction false} DirStatsTotals(ts: seq<Trial>)
    requires IndicesInRange(ts)
    ensures CountTotal(ComputeDirStats(ts)) == |ts|
    ensures BullsTotal(ComputeDirStats(ts)) == Bullseyes(ts)
  {
    AccumulateTotals(ts);
    TotalsAgree(ComputeDirStats(ts), Accumulate(ts));
  }
}
