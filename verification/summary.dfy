/**
  The session summary submitted at the end of a game: trial count, hits,
  bullseyes, total score, mean reaction time and hit rate. Only the numbers are
  modelled, not their text encoding.
 */
module Summary {
  import opened Config
  import opened Trials
  import DirStats

  /** Running totals of the game's single pass over the trials. */
  datatype Totals = Totals(totalScore: int, bullseyes: int, hits: int, sumRt: real)

  function Tally(ts: seq<Trial>): Totals
    decreases |ts|
  {
    if |ts| == 0 then Totals(0, 0, 0, 0.0)
    else
      var acc := Tally(ts[..|ts| - 1]);
      var t := ts[|ts| - 1];
      Totals(
        acc.totalScore + t.score,
        acc.bullseyes + (if t.hitInner then 1 else 0),
        acc.hits + (if t.hitOuter then 1 else 0),
        acc.sumRt + t.reactionMs)
  }

  datatype ResultSummary = ResultSummary(
    trials: int,
    hits: int,
    bullseyes: int,
    totalScore: int,
    avgReactionMs: real,
    hitRate: real)

  /** The summary of a session. Its `trials` field is the configured number of
      trials, and the hit rate is taken over that number too. */
  function BuildResult(ts: seq<Trial>): (s: ResultSummary)
    ensures s.trials == NumTrials
    ensures s.hitRate * NumTrials as real == s.hits as real
    ensures |ts| == 0 ==> s.avgReactionMs == 0.0
    ensures |ts| > 0 ==> s.avgReactionMs * |ts| as real == Tally(ts).sumRt
  {
    var tot := Tally(ts);
    ResultSummary(
      NumTrials,
      tot.hits,
      tot.bullseyes,
      tot.totalScore,
      if |ts| == 0 then 0.0 else tot.sumRt / |ts| as real,
      tot.hits as real / NumTrials as real)
  }

  /** Over trials stored by hits, the single pass counts every trial as a hit, and
      its totals agree with the reference folds. */
  lemma {:induction false} TallyOfRecorded(ts: seq<Trial>)
    requires AllRecorded(ts)
    ensures Tally(ts).hits == |ts|
    ensures Tally(ts).bullseyes == Bullseyes(ts)
    ensures Tally(ts).totalScore == 5 * |ts| + 5 * Bullseyes(ts)
    ensures Tally(ts).sumRt == ReactionSum(ts)
    decreases |ts|
  {
    if |ts| > 0 {
      var p := ts[..|ts| - 1];
      assert AllRecorded(p) by {
        forall k | 0 <= k < |p| ensures Recorded(p[k]) {
          assert p[k] == ts[k];
        }
      }
      TallyOfRecorded(p);
    }
  }

  /** The summary of stored trials: every stored trial is a hit, the score is 10
      per bullseye and 5 per other hit, the hit rate is the number of trials over
      the configured number, and the mean is the reference sum over the count. */
  lemma SummaryOfRecorded(ts: seq<Trial>)
    requires AllRecorded(ts)
    ensures BuildResult(ts).hits == |ts|
    ensures BuildResult(ts).bullseyes == Bullseyes(ts) <= |ts|
    ensures BuildResult(ts).totalScore == 10 * Bullseyes(ts) + 5 * (|ts| - Bullseyes(ts))
    ensures BuildResult(ts).hitRate == |ts| as real / NumTrials as real
    ensures |ts| > 0 ==> BuildResult(ts).avgReactionMs == ReactionSum(ts) / |ts| as real
  {
    TallyOfRecorded(ts);
  }

  /** The summary agrees with the per-direction statistics: its hits are the total
      of the direction counts and its bullseyes the total of the direction bullseyes. */
  lemma SummaryMatchesDirStats(ts: seq<Trial>)
    requires AllRecorded(ts)
    ensures IndicesInRange(ts)
    ensures BuildResult(ts).hits == DirStats.CountTotal(DirStats.ComputeDirStats(ts))
    ensures BuildResult(ts).bullseyes == DirStats.BullsTotal(DirStats.ComputeDirStats(ts))
  {
    TallyOfRecorded(ts);
    DirStats.DirStatsTotals(ts);
  }
}
