/**
  Whole sessions played from the initial state: each round is a click at the
  centre (spawning the drawn target) followed by a click on that target.
 */
module Scenarios {
  import opened Geometry
  import opened Config
  import opened Trials
  import opened Summary
  import opened Export
  import opened Game

  /** One round: the clock reading and direction drawn at the centre click, and
      the time and place of the click on the target. */
  datatype Round = Round(spawnClock: real, index: int, clickTime: real, mouse: Point)

  function CenterClick(r: Round): Frame
  {
    Frame(r.spawnClock, r.spawnClock, Center, true, false, false, false, r.index)
  }

  function TargetClick(r: Round): Frame
  {
    Frame(r.clickTime, r.clickTime, r.mouse, true, false, false, false, 0)
  }

  predicate IndicesOk(rs: seq<Round>)
  {
    forall k :: 0 <= k < |rs| ==> 0 <= rs[k].index < Directions
  }

  /** Every round's second click lands within the outer ring of its target. */
  predicate AllHit(rs: seq<Round>, b: Build)
    requires ValidBuild(b) && IndicesOk(rs)
  {
    forall k :: 0 <= k < |rs| ==> Within(rs[k].mouse, b.clockFace[rs[k].index], OuterRadius)
  }

  function PlayRound(g: GameState, r: Round, b: Build): (g': GameState)
    requires ValidBuild(b) && Indexed(g) && 0 <= r.index < Directions
    ensures Indexed(g')
  {
    var s := Step(g, CenterClick(r), b).state;
    Step(s, TargetClick(r), b).state
  }

  /** Plays the rounds in order. */
  function Play(g: GameState, rs: seq<Round>, b: Build): (g': GameState)
    requires ValidBuild(b) && Indexed(g) && IndicesOk(rs)
    ensures Indexed(g')
    decreases |rs|
  {
    if |rs| == 0 then g
    else PlayRound(Play(g, rs[..|rs| - 1], b), rs[|rs| - 1], b)
  }

  /** A hitting round played while waiting at the centre stores exactly one trial,
      for the drawn direction, spawned at the round's spawn reading and clicked at
      its click time, and leaves everything stored before untouched. */
  lemma RoundFromCenter(g: GameState, r: Round, b: Build)
    requires ValidBuild(b) && Indexed(g) && 0 <= r.index < Directions
    requires g.phase == WaitAtCenter
    requires Within(r.mouse, b.clockFace[r.index], OuterRadius)
    ensures var g' := PlayRound(g, r, b);
      && |g'.trials| == |g.trials| + 1
      && g'.trials[..|g.trials|] == g.trials
      && g'.trialsDone == g.trialsDone + 1
      && (g'.phase == Finished <==> g'.trialsDone >= NumTrials)
      && (g'.phase != Finished ==> g'.phase == WaitAtCenter)
      && g'.posted == g.posted
      && Recorded(g'.trials[|g.trials|])
      && g'.trials[|g.trials|].targetIndex == r.index
      && g'.trials[|g.trials|].spawnTime == r.spawnClock
      && g'.trials[|g.trials|].clickTime == r.clickTime
  {
    WithinSelf(Center, CenterReadyRadius);
    var g1 := Step(g, CenterClick(r), b).state;
    assert g1 == BeginTrial(g, b, r.index, r.spawnClock);
    assert g1.phase == TargetLive && g1.currentTargetPos == b.clockFace[r.index];
    assert Step(g1, TargetClick(r), b).state == RecordHit(g1, r.mouse, r.clickTime);
  }

  /** The stored trials are exactly one per round, in round order, each recorded
      from a hit and carrying its round's direction and times. */
  predicate TrialsOf(g: GameState, rs: seq<Round>)
  {
    && g.trialsDone == |g.trials| == |rs|
    && AllRecorded(g.trials)
    && (forall k :: 0 <= k < |rs| ==>
          && g.trials[k].targetIndex == rs[k].index
          && g.trials[k].spawnTime == rs[k].spawnClock
          && g.trials[k].clickTime == rs[k].clickTime)
  }

  /** One more stored trial matching the last round extends `TrialsOf` to all rounds. */
  lemma TrialsOfExtend(g: GameState, g': GameState, rs: seq<Round>)
    requires |rs| > 0 && TrialsOf(g, rs[..|rs| - 1])
    requires |g'.trials| == |g.trials| + 1 && g'.trials[..|g.trials|] == g.trials
    requires g'.trialsDone == g.trialsDone + 1
    requires Recorded(g'.trials[|g.trials|])
    requires g'.trials[|g.trials|].targetIndex == rs[|rs| - 1].index
    requires g'.trials[|g.trials|].spawnTime == rs[|rs| - 1].spawnClock
    requires g'.trials[|g.trials|].clickTime == rs[|rs| - 1].clickTime
    ensures TrialsOf(g', rs)
  {
    var p := rs[..|rs| - 1];
    forall k | 0 <= k < |rs|
      ensures Recorded(g'.trials[k])
      ensures g'.trials[k].targetIndex == rs[k].index
      ensures g'.trials[k].spawnTime == rs[k].spawnClock
      ensures g'.trials[k].clickTime == rs[k].clickTime
    {
      if k < |p| {
        assert g'.trials[k] == g.trials[k];
        assert p[k] == rs[k];
      }
    }
  }

  /** Playing up to the configured number of hitting rounds from the initial
      state stores one trial per round, in order, each carrying its round's
      direction and times; the session is finished exactly when the configured
      number of rounds has been played, and waits at the centre otherwise. */
  lemma {:induction false} PlayFromInitial(rs: seq<Round>, b: Build)
    requires ValidBuild(b) && IndicesOk(rs) && AllHit(rs, b)
    requires |rs| <= NumTrials
    ensures TrialsOf(Play(Initial, rs, b), rs)
    ensures Play(Initial, rs, b).phase == Finished <==> |rs| == NumTrials
    ensures Play(Initial, rs, b).phase != Finished ==> Play(Initial, rs, b).phase == WaitAtCenter
    ensures !Play(Initial, rs, b).posted
    decreases |rs|
  {
    if |rs| > 0 {
      PrefixOk(rs, b);
      PlayFromInitial(rs[..|rs| - 1], b);
      PlayOneMore(rs, b);
    }
  }

  /** The rounds before the last are still in range and still hit. */
  lemma PrefixOk(rs: seq<Round>, b: Build)
    requires ValidBuild(b) && IndicesOk(rs) && AllHit(rs, b) && |rs| > 0
    ensures IndicesOk(rs[..|rs| - 1]) && AllHit(rs[..|rs| - 1], b)
  {
    var p := rs[..|rs| - 1];
    forall k | 0 <= k < |p| ensures p[k] == rs[k] { }
  }

  /** The inductive step of `PlayFromInitial`: the last hitting round, played
      after the earlier rounds left the session waiting at the centre. */
  lemma PlayOneMore(rs: seq<Round>, b: Build)
    requires ValidBuild(b) && IndicesOk(rs) && AllHit(rs, b)
    requires 0 < |rs| <= NumTrials
    requires IndicesOk(rs[..|rs| - 1])
    requires TrialsOf(Play(Initial, rs[..|rs| - 1], b), rs[..|rs| - 1])
    requires Play(Initial, rs[..|rs| - 1], b).phase == WaitAtCenter
    requires !Play(Initial, rs[..|rs| - 1], b).posted
    ensures var g := Play(Initial, rs, b);
      && TrialsOf(g, rs)
      && (g.phase == Finished <==> |rs| == NumTrials)
      && (g.phase != Finished ==> g.phase == WaitAtCenter)
      && !g.posted
  {
    var g0 := Play(Initial, rs[..|rs| - 1], b);
    var g := PlayRound(g0, rs[|rs| - 1], b);
    assert Play(Initial, rs, b) == g;
    RoundFromCenter(g0, rs[|rs| - 1], b);
    TrialsOfExtend(g0, g, rs);
  }

  /** A full session of hits: finished, every configured trial counted as a hit,
      hit rate 1, and a detailed export of one header and one row per trial. */
  lemma FullSession(rs: seq<Round>, b: Build)
    requires ValidBuild(b) && IndicesOk(rs) && AllHit(rs, b)
    requires |rs| == NumTrials
    ensures var g := Play(Initial, rs, b);
      && g.phase == Finished
      && BuildResult(g.trials).hits == NumTrials
      && BuildResult(g.trials).hitRate == 1.0
      && |DetailCsv(g.trials)| == NumTrials + 1
  {
    PlayFromInitial(rs, b);
    SummaryOfRecorded(Play(Initial, rs, b).trials);
  }

  /** The worked example: a target spawned at 10.0 s in direction 0 and clicked
      dead centre at 10.25 s gives a bullseye worth 10 with a 250 ms reaction time. */
  lemma BullseyeExample(b: Build)
    requires ValidBuild(b)
    ensures var r := Round(10.0, 0, 10.25, b.clockFace[0]);
      Play(Initial, [r], b).trials == [Trial(0, 10.0, 10.25, 250.0, true, true, 10)]
  {
    var r := Round(10.0, 0, 10.25, b.clockFace[0]);
    WithinSelf(Center, CenterReadyRadius);
    WithinSelf(b.clockFace[0], OuterRadius);
    WithinSelf(b.clockFace[0], InnerRadius);
    assert [r][..0] == [];
    var g1 := Step(Initial, CenterClick(r), b).state;
    assert g1.currentTargetPos == b.clockFace[0];
    var g2 := Step(g1, TargetClick(r), b).state;
    assert |g2.trials| == 1;
  }
}
