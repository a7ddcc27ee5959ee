/**
  The two CSV exports, modelled as rows of fields rather than as text: the
  detailed results (one row per trial) and the per-direction summary (one row
  per clock position). The detailed results come with a reader that recovers
  what was written.
 */
module Export {
  import opened Wrappers
  import opened Config
  import opened Trials
  import opened DirStats

  datatype Field = Int(i: int) | Num(r: real) | Text(s: string)

  type Row = seq<Field>

  const DetailFile: string := "cfart_results.csv"
  const DirSummaryFile: string := "cfart_dir_summary.csv"

  const DetailHeader: Row := [
    Text("trial"), Text("targetIndex"), Text("spawntime"), Text("clickTime"),
    Text("reactionMs"), Text("hitOuter"), Text("hitInner"), Text("score")]

  const DirHeader: Row := [
    Text("dir"), Text("n"), Text("avg_ms"), Text("min_ms"), Text("max_ms"), Text("bull_pct")]

  // ---------------------------------------------------------------------------
  // Detailed results

  function Flag(b: bool): Field
  {
    Text(if b then "1" else "0")
  }

  function DetailRow(ordinal: int, t: Trial): Row
  {
    [Int(ordinal), Int(t.targetIndex), Num(t.spawnTime), Num(t.clickTime),
     Num(t.reactionMs), Flag(t.hitOuter), Flag(t.hitInner), Int(t.score)]
  }

  /** Rows for `ts`, numbered from `first`. */
  function DetailRows(ts: seq<Trial>, first: int): (rows: seq<Row>)
    ensures |rows| == |ts|
    decreases |ts|
  {
    if |ts| == 0 then [] else [DetailRow(first, ts[0])] + DetailRows(ts[1..], first + 1)
  }

  /** The detailed results: a header, then one row per trial in trial order,
      numbered from 1. */
  function DetailCsv(ts: seq<Trial>): (rows: seq<Row>)
    ensures |rows| == |ts| + 1
    ensures rows[0] == DetailHeader
  {
    [DetailHeader] + DetailRows(ts, 1)
  }

  lemma {:induction false} DetailRowsAt(ts: seq<Trial>, first: int, i: int)
    requires 0 <= i < |ts|
    ensures DetailRows(ts, first)[i] == DetailRow(first + i, ts[i])
    decreases |ts|
  {
    if i > 0 {
      DetailRowsAt(ts[1..], first + 1, i - 1);
    }
  }

  /** Row `i + 1` of the detailed results describes the `i`-th trial under ordinal `i + 1`. */
  lemma DetailCsvRow(ts: seq<Trial>, i: int)
    requires 0 <= i < |ts|
    ensures DetailCsv(ts)[i + 1] == DetailRow(i + 1, ts[i])
  {
    DetailRowsAt(ts, 1, i);
  }

  function ReadFlag(f: Field): Option<bool>
  {
    if f == Text("1") then Some(true)
    else if f == Text("0") then Some(false)
    else None
  }

  /** Reads one detail row back into its ordinal and trial. */
  function ReadDetailRow(r: Row): Option<(int, Trial)>
  {
    if |r| == 8 && r[0].Int? && r[1].Int? && r[2].Num? && r[3].Num? && r[4].Num?
       && ReadFlag(r[5]).Some? && ReadFlag(r[6]).Some? && r[7].Int?
    then Some((r[0].i, Trial(r[1].i, r[2].r, r[3].r, r[4].r,
                             ReadFlag(r[5]).value, ReadFlag(r[6]).value, r[7].i)))
    else None
  }

  /** Reads consecutive rows numbered from `first`. */
  function ReadDetailRows(rows: seq<Row>, first: int): Option<seq<Trial>>
    decreases |rows|
  {
    if |rows| == 0 then Some([])
    else
      match ReadDetailRow(rows[0])
      case None => None
      case Some(entry) =>
        if entry.0 != first then None
        else
          match ReadDetailRows(rows[1..], first + 1)
          case None => None
          case Some(rest) => Some([entry.1] + rest)
  }

  /** Reads the detailed results: the header, then rows numbered 1, 2, ... */
  function ReadDetailCsv(rows: seq<Row>): Option<seq<Trial>>
  {
    if |rows| > 0 && rows[0] == DetailHeader then ReadDetailRows(rows[1..], 1) else None
  }

  lemma {:induction false} ReadDetailRowsOf(ts: seq<Trial>, first: int)
    ensures ReadDetailRows(DetailRows(ts, first), first) == Some(ts)
    decreases |ts|
  {
    if |ts| > 0 {
      var rows := DetailRows(ts, first);
      assert rows[1..] == DetailRows(ts[1..], first + 1);
      ReadDetailRowsOf(ts[1..], first + 1);
      assert ReadDetailRow(rows[0]) == Some((first, ts[0]));
      assert [ts[0]] + ts[1..] == ts;
    }
  }

  /** The detailed results lose nothing: reading them back yields the trials, in order. */
  lemma DetailCsvRoundTrip(ts: seq<Trial>)
    ensures ReadDetailCsv(DetailCsv(ts)) == Some(ts)
  {
    assert DetailCsv(ts)[1..] == DetailRows(ts, 1);
    ReadDetailRowsOf(ts, 1);
  }

  // ---------------------------------------------------------------------------
  // Per-direction summary

  /** Mean reaction time of a bucket; zero for an empty bucket. */
  function MeanMs(d: DirAgg): real
  {
    if d.n != 0 then d.sumMs / d.n as real else 0.0
  }

  /** Percentage of bullseyes in a bucket; zero for an empty bucket. */
  function BullPct(d: DirAgg): real
  {
    if d.n != 0 then 100.0 * d.bulls as real / d.n as real else 0.0
  }

  function DirRow(tag: string, d: DirAgg): Row
  {
    [Text(tag), Int(d.n), Num(MeanMs(d)), Num(d.minMs), Num(d.maxMs), Num(BullPct(d))]
  }

  /** The per-direction summary: a header, then one row per clock position, in
      index order. */
  function DirSummaryCsv(ts: seq<Trial>): (rows: seq<Row>)
    requires IndicesInRange(ts)
    ensures |rows| == Directions + 1
    ensures rows[0] == DirHeader
  {
    var a := ComputeDirStats(ts);
    [DirHeader] + seq(Directions, i requires 0 <= i < Directions => DirRow(ClockLabels[i], a[i]))
  }

  lemma DirSummaryRowIs(ts: seq<Trial>, d: int)
    requires IndicesInRange(ts)
    requires 0 <= d < Directions
    ensures DirSummaryCsv(ts)[d + 1] == DirRow(ClockLabels[d], ComputeDirStats(ts)[d])
  {
  }

  /** Row `d + 1` of the per-direction summary is labelled with the clock position
      of direction `d` and counts the trials aimed there. An empty direction reports
      zero for every statistic; otherwise the mean is the sum over the count and the
      bullseye percentage is the share of bullseyes, between 0 and 100. */
  lemma DirSummaryRow(ts: seq<Trial>, d: int)
    requires IndicesInRange(ts)
    requires 0 <= d < Directions
    ensures var row := DirSummaryCsv(ts)[d + 1]; var bucket := InDir(ts, d);
      && row[0] == Text(ClockLabels[d])
      && row[1] == Int(|bucket|)
      && (|bucket| == 0 ==> row[1..] == [Int(0), Num(0.0), Num(0.0), Num(0.0), Num(0.0)])
      && (|bucket| > 0 ==> row[2] == Num(ReactionSum(bucket) / |bucket| as real))
      && (|bucket| > 0 ==> row[5] == Num(100.0 * Bullseyes(bucket) as real / |bucket| as real))
      && row[5].Num? && 0.0 <= row[5].r <= 100.0
    ensures var row := DirSummaryCsv(ts)[d + 1]; var bucket := InDir(ts, d);
      TimesInRange(ts) && |bucket| > 0 ==>
        row[3].Num? && row[4].Num? && MinMax(row[3].r, row[4].r, bucket)
  {
    var a := ComputeDirStats(ts)[d];
    DirStatsBucket(ts, d);
    DirSummaryRowIs(ts, d);
    DirRowFacts(ClockLabels[d], a, InDir(ts, d));
    if TimesInRange(ts) {
      DirStatsExtremes(ts, d);
    }
  }

  lemma DirRowFacts(tag: string, a: DirAgg, bucket: seq<Trial>)
    requires a.n == |bucket| && a.bulls == Bullseyes(bucket) && a.sumMs == ReactionSum(bucket)
    requires |bucket| == 0 ==> a == DirAgg(0, 0, 0.0, 0.0, 0.0)
    ensures var row := DirRow(tag, a);
      && row[0] == Text(tag)
      && row[1] == Int(|bucket|)
      && (|bucket| == 0 ==> row[1..] == [Int(0), Num(0.0), Num(0.0), Num(0.0), Num(0.0)])
      && (|bucket| > 0 ==> row[2] == Num(ReactionSum(bucket) / |bucket| as real))
      && (|bucket| > 0 ==> row[5] == Num(100.0 * Bullseyes(bucket) as real / |bucket| as real))
      && row[5].Num? && 0.0 <= row[5].r <= 100.0
  {
    if |bucket| == 0 {
      EmptyRow(tag, a);
    } else {
      FilledRow(tag, a, |bucket|);
    }
  }

  lemma EmptyRow(tag: string, a: DirAgg)
    requires a == DirAgg(0, 0, 0.0, 0.0, 0.0)
    ensures DirRow(tag, a) == [Text(tag), Int(0), Num(0.0), Num(0.0), Num(0.0), Num(0.0)]
  {
  }

  lemma FilledRow(tag: string, a: DirAgg, n: int)
    requires a.n == n > 0 && 0 <= a.bulls <= n
    ensures var row := DirRow(tag, a);
      && row[0] == Text(tag)
      && row[1] == Int(n)
      && row[2] == Num(a.sumMs / n as real)
      && row[5] == Num(100.0 * a.bulls as real / n as real)
      && 0.0 <= 100.0 * a.bulls as real / n as real <= 100.0
  {
    PercentBounds(a.bulls, n);
  }

  lemma PercentBounds(part: int, whole: int)
    requires 0 <= part <= whole && whole > 0
    ensures 0.0 <= 100.0 * part as real / whole as real <= 100.0
  {
    var p := part as real;
    var w := whole as real;
    assert 100.0 * p <= 100.0 * w;
    assert 100.0 * p / w <= 100.0 * w / w;
    assert 100.0 * w / w == 100.0;
  }

  /** The twelve direction labels are pairwise distinct, so the rows of the
      per-direction export are told apart by their first field. */
  lemma LabelsDistinct(i: int, j: int)
    requires 0 <= i < Directions && 0 <= j < Directions && i != j
    ensures ClockLabels[i] != ClockLabels[j]
  {
  }
}
