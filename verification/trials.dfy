/**
  The data model of a session: the phase of the trial state machine, the record
  of one completed trial, and the game state. Also the reference folds over a
  sequence of trials that the aggregates are checked against.
 */
module Trials {
  import opened Geometry
  import opened Config

  datatype Phase =
    | WaitAtCenter  // waiting for a click at the centre
    | TargetLive    // a target is shown; waiting for a hit
    | Finished      // all trials done; results can be exported

  /** One completed trial. Times are in seconds, the reaction time in milliseconds. */
  datatype Trial = Trial(
    targetIndex: int,
    spawnTime: real,
    clickTime: real,
    reactionMs: real,
    hitOuter: bool,
    hitInner: bool,
    score: int)

  datatype GameState = GameState(
    phase: Phase,
    trialsDone: int,
    currentTargetIndex: int,
    currentTargetPos: Point,
    targetSpawnTime: real,
    trials: seq<Trial>,
    posted: bool)

  /** The state a session starts in, and the one a reset restores. */
  const Initial: GameState := GameState(WaitAtCenter, 0, 0, Point(0.0, 0.0), 0.0, [], false)

  /** Reaction time in milliseconds between a spawn and a click given in seconds. */
  function ReactionMs(spawnTime: real, clickTime: real): real
  {
    (clickTime - spawnTime) * 1000.0
  }

  /** What every trial stored by a hit looks like. */
  predicate Recorded(t: Trial)
  {
    && 0 <= t.targetIndex < Directions
    && t.hitOuter
    && t.score == (if t.hitInner then 10 else 5)
    && t.reactionMs == ReactionMs(t.spawnTime, t.clickTime)
  }

  predicate AllRecorded(ts: seq<Trial>)
  {
    forall k :: 0 <= k < |ts| ==> Recorded(ts[k])
  }

  predicate IndicesInRange(ts: seq<Trial>)
  {
    forall k :: 0 <= k < |ts| ==> 0 <= ts[k].targetIndex < Directions
  }

  /** The trials aimed at direction `d`, in order. */
  function InDir(ts: seq<Trial>, d: int): (s: seq<Trial>)
    ensures |s| <= |ts|
    ensures forall k :: 0 <= k < |s| ==> s[k].targetIndex == d && s[k] in ts
    decreases |ts|
  {
    if |ts| == 0 then []
    else
      var last := ts[|ts| - 1];
      InDir(ts[..|ts| - 1], d) + (if last.targetIndex == d then [last] else [])
  }

  /** Number of bullseyes among `ts`. */
  function Bullseyes(ts: seq<Trial>): (n: nat)
    ensures n <= |ts|
    decreases |ts|
  {
    if |ts| == 0 then 0
    else Bullseyes(ts[..|ts| - 1]) + (if ts[|ts| - 1].hitInner then 1 else 0)
  }

  /** Sum of the reaction times of `ts`. */
  function ReactionSum(ts: seq<Trial>): real
    decreases |ts|
  {
    if |ts| == 0 then 0.0
    else ReactionSum(ts[..|ts| - 1]) + ts[|ts| - 1].reactionMs
  }
}
