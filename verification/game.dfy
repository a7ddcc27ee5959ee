/**
  The trial state machine. Each frame the game samples the clock, the cursor, the
  mouse button and three keys, and advances the state by one step; in the
  finished phase a step may also emit the session summary (web build only, once)
  and the two CSV exports. Randomness, the clock and the clock-face positions are
  inputs of a step rather than library calls.
 */
module Game {
  import opened Geometry
  import opened Config
  import opened Trials
  import opened Scoring
  import opened Summary
  import opened Export

  /** One frame's inputs. `now` is the clock read at the start of the frame;
      `spawnClock` is the clock read again when a trial begins; `draw` is the
      random direction drawn for a new target. */
  datatype Frame = Frame(
    now: real,
    spawnClock: real,
    mouse: Point,
    clicked: bool,
    keyD: bool,
    keyP: bool,
    keyR: bool,
    draw: int)

  /** What a step hands to the outside world. */
  datatype Output =
    | Post(result: ResultSummary)
    | Save(fileName: string, rows: seq<Row>)

  /** The build: whether it is the web build (which posts the summary), and the
      target position of each of the twelve directions. */
  datatype Build = Build(web: bool, clockFace: seq<Point>)

  datatype Tick = Tick(state: GameState, outputs: seq<Output>)

  predicate ValidBuild(b: Build)
  {
    |b.clockFace| == Directions
  }

  /** Every direction index the state holds can index the clock face and the
      per-direction buckets. */
  predicate Indexed(g: GameState)
  {
    0 <= g.currentTargetIndex < Directions && IndicesInRange(g.trials)
  }

  /** Shows the target of direction `index` and starts timing it. */
  function BeginTrial(g: GameState, b: Build, index: int, spawnClock: real): (g': GameState)
    requires ValidBuild(b) && 0 <= index < Directions
    ensures g'.phase == TargetLive
    ensures g'.currentTargetIndex == index && g'.currentTargetPos == b.clockFace[index]
    ensures g'.targetSpawnTime == spawnClock
    ensures g'.trials == g.trials && g'.trialsDone == g.trialsDone && g'.posted == g.posted
  {
    g.(currentTargetIndex := index, currentTargetPos := b.clockFace[index],
       targetSpawnTime := spawnClock, phase := TargetLive)
  }

  /** Handles a click while a target is live. A click outside the outer ring
      changes nothing; any other click stores one trial and ends the round. */
  function RecordHit(g: GameState, mouse: Point, timeNow: real): (g': GameState)
    ensures !Within(mouse, g.currentTargetPos, OuterRadius) ==> g' == g
    ensures Within(mouse, g.currentTargetPos, OuterRadius) ==>
      && |g'.trials| == |g.trials| + 1
      && g'.trials[..|g.trials|] == g.trials
      && g'.trialsDone == g.trialsDone + 1
      && (g'.phase == Finished <==> g'.trialsDone >= NumTrials)
      && (g'.phase != Finished ==> g'.phase == WaitAtCenter)
      && g'.currentTargetIndex == g.currentTargetIndex
      && g'.posted == g.posted
    ensures Within(mouse, g.currentTargetPos, OuterRadius) ==>
      var t := g'.trials[|g.trials|];
      && t.targetIndex == g.currentTargetIndex
      && t.spawnTime == g.targetSpawnTime
      && t.clickTime == timeNow
      && t.reactionMs == (timeNow - g.targetSpawnTime) * 1000.0
      && t.hitOuter
      && (t.hitInner <==> Within(mouse, g.currentTargetPos, InnerRadius))
      && t.score == (if t.hitInner then 10 else 5)
  {
    var h := Classify(mouse, g.currentTargetPos);
    if !h.outer then g
    else
      var t := Trial(g.currentTargetIndex, g.targetSpawnTime, timeNow,
                     ReactionMs(g.targetSpawnTime, timeNow), h.outer, h.inner, h.score);
      var done := g.trialsDone + 1;
      g.(trials := g.trials + [t], trialsDone := done,
         phase := if done >= NumTrials then Finished else WaitAtCenter)
  }

  /** One frame of game logic. */
  function Step(g: GameState, f: Frame, b: Build): (r: Tick)
    requires ValidBuild(b) && Indexed(g) && 0 <= f.draw < Directions
    ensures Indexed(r.state)
    // Waiting at the centre: only a click inside the centre radius starts a trial.
    ensures g.phase == WaitAtCenter ==>
      if f.clicked && Within(f.mouse, Center, CenterReadyRadius)
      then r.state == BeginTrial(g, b, f.draw, f.spawnClock)
      else r.state == g
    // Target live: a click that misses the outer ring, or no click, changes nothing.
    ensures g.phase == TargetLive && !(f.clicked && Within(f.mouse, g.currentTargetPos, OuterRadius)) ==>
      r.state == g
    ensures g.phase == TargetLive && f.clicked && Within(f.mouse, g.currentTargetPos, OuterRadius) ==>
      |r.state.trials| == |g.trials| + 1 && r.state.phase != TargetLive
    // The click time of a stored trial is the frame's own clock reading.
    ensures g.phase == TargetLive && f.clicked ==> r.state == RecordHit(g, f.mouse, f.now)
    // Finished: clicks are ignored; the latch is set on the web build; R resets.
    ensures g.phase == Finished ==>
      r.state == if f.keyR then Initial else g.(posted := g.posted || b.web)
    // Outputs only come from the finished phase.
    ensures g.phase != Finished ==> r.outputs == []
    ensures (exists k :: 0 <= k < |r.outputs| && r.outputs[k].Post?) <==>
      g.phase == Finished && b.web && !g.posted
  {
    match g.phase
    case WaitAtCenter =>
      if f.clicked && Within(f.mouse, Center, CenterReadyRadius)
      then Tick(BeginTrial(g, b, f.draw, f.spawnClock), [])
      else Tick(g, [])
    case TargetLive =>
      Tick(if f.clicked then RecordHit(g, f.mouse, f.now) else g, [])
    case Finished =>
      var posting := b.web && !g.posted;
      Tick(if f.keyR then Initial else g.(posted := g.posted || b.web),
           FinishedEmits(g.trials, posting, f.keyD, f.keyP))
  }

  /** What a finished frame emits, in order: the summary when `posting`, the
      detailed export when D is pressed, the per-direction export when P is. */
  function FinishedEmits(ts: seq<Trial>, posting: bool, keyD: bool, keyP: bool): (outs: seq<Output>)
    requires IndicesInRange(ts)
    ensures (exists k :: 0 <= k < |outs| && outs[k].Post?) <==> posting
  {
    var posts := if posting then [Post(BuildResult(ts))] else [];
    var details := if keyD then [Save(DetailFile, DetailCsv(ts))] else [];
    var summary := if keyP then [Save(DirSummaryFile, DirSummaryCsv(ts))] else [];
    var outs := posts + details + summary;
    assert forall k :: 0 <= k < |details + summary| ==> (details + summary)[k].Save?;
    assert posting ==> outs[0].Post?;
    assert !posting ==> outs == details + summary;
    outs
  }

  /** In the finished phase the post carries the summary of the stored trials, D
      saves the detailed export and P the per-direction export, each under its
      file name, and nothing else is emitted. */
  lemma FinishedOutputs(g: GameState, f: Frame, b: Build)
    requires ValidBuild(b) && Indexed(g) && 0 <= f.draw < Directions
    requires g.phase == Finished
    ensures var outs := Step(g, f, b).outputs;
      && (Post(BuildResult(g.trials)) in outs <==> b.web && !g.posted)
      && (Save(DetailFile, DetailCsv(g.trials)) in outs <==> f.keyD)
      && (Save(DirSummaryFile, DirSummaryCsv(g.trials)) in outs <==> f.keyP)
      && |outs| <= 3
      && (forall o :: o in outs ==>
            || o == Post(BuildResult(g.trials))
            || o == Save(DetailFile, DetailCsv(g.trials))
            || o == Save(DirSummaryFile, DirSummaryCsv(g.trials)))
  {
  }

  // ---------------------------------------------------------------------------
  // The invariant

  /** What holds of every state a session reaches, given the latest clock reading
      `clock`: the count matches the stored trials and never exceeds the
      configured number; the session is finished exactly when all trials are
      done; the post latch is only set when finished; a live target was spawned
      no later than now; and every stored trial came from a hit, with its click no
      earlier than its spawn and no later than now. */
  predicate Inv(g: GameState, clock: real)
  {
    && Indexed(g)
    && g.trialsDone == |g.trials|
    && g.trialsDone <= NumTrials
    && (g.phase == Finished <==> g.trialsDone == NumTrials)
    && (g.posted ==> g.phase == Finished)
    && (g.phase == TargetLive ==> g.targetSpawnTime <= clock)
    && AllRecorded(g.trials)
    && (forall k :: 0 <= k < |g.trials| ==> g.trials[k].spawnTime <= g.trials[k].clickTime <= clock)
  }

  /** A session starts in a state satisfying the invariant. */
  lemma InitialInv(clock: real)
    ensures Inv(Initial, clock)
  {
  }

  /** Every step preserves the invariant, provided the clock does not run backwards. */
  lemma StepPreservesInv(g: GameState, clock: real, f: Frame, b: Build)
    requires ValidBuild(b) && 0 <= f.draw < Directions
    requires Inv(g, clock)
    requires clock <= f.now <= f.spawnClock
    ensures Inv(Step(g, f, b).state, f.spawnClock)
  {
    var g' := Step(g, f, b).state;
    if g.phase == TargetLive && f.clicked && Within(f.mouse, g.currentTargetPos, OuterRadius) {
      var n := |g.trials|;
      assert g'.trials[..n] == g.trials;
      forall k | 0 <= k < |g'.trials|
        ensures Recorded(g'.trials[k])
        ensures g'.trials[k].spawnTime <= g'.trials[k].clickTime <= f.spawnClock
      {
        if k < n {
          assert g'.trials[k] == g.trials[k];
        }
      }
    }
  }

  /** Stored trials have non-negative reaction times. */
  lemma ReactionTimesNonNegative(g: GameState, clock: real)
    requires Inv(g, clock)
    ensures forall k :: 0 <= k < |g.trials| ==> g.trials[k].reactionMs >= 0.0
  {
    forall k | 0 <= k < |g.trials|
      ensures g.trials[k].reactionMs >= 0.0
    {
      assert Recorded(g.trials[k]);
    }
  }

  // ---------------------------------------------------------------------------
  // Runs of frames

  predicate DrawsInRange(fs: seq<Frame>)
  {
    forall k :: 0 <= k < |fs| ==> 0 <= fs[k].draw < Directions
  }

  /** Feeds the frames to the game in order, collecting every output. */
  function Run(g: GameState, fs: seq<Frame>, b: Build): (r: Tick)
    requires ValidBuild(b) && Indexed(g) && DrawsInRange(fs)
    ensures Indexed(r.state)
    decreases |fs|
  {
    if |fs| == 0 then Tick(g, [])
    else
      var first := Step(g, fs[0], b);
      var rest := Run(first.state, fs[1..], b);
      Tick(rest.state, first.outputs + rest.outputs)
  }

  /** The clock never runs backwards over the frames, starting from `clock`. */
  predicate ClockMonotone(clock: real, fs: seq<Frame>)
    decreases |fs|
  {
    |fs| == 0 || (clock <= fs[0].now <= fs[0].spawnClock && ClockMonotone(fs[0].spawnClock, fs[1..]))
  }

  /** The last clock reading after the frames. */
  function LastClock(clock: real, fs: seq<Frame>): real
    decreases |fs|
  {
    if |fs| == 0 then clock else LastClock(fs[0].spawnClock, fs[1..])
  }

  /** Any run with a monotone clock keeps the invariant. */
  lemma {:induction false} RunPreservesInv(g: GameState, clock: real, fs: seq<Frame>, b: Build)
    requires ValidBuild(b) && DrawsInRange(fs)
    requires Inv(g, clock) && ClockMonotone(clock, fs)
    ensures Inv(Run(g, fs, b).state, LastClock(clock, fs))
    decreases |fs|
  {
    if |fs| > 0 {
      StepPreservesInv(g, clock, fs[0], b);
      RunPreservesInv(Step(g, fs[0], b).state, fs[0].spawnClock, fs[1..], b);
    }
  }

  /** Every state reached from the initial state: the trial count equals the
      number of stored trials, the session is finished exactly when the
      configured number of trials is stored, and reaction times are non-negative. */
  lemma Reachable(fs: seq<Frame>, b: Build, clock: real)
    requires ValidBuild(b) && DrawsInRange(fs) && ClockMonotone(clock, fs)
    ensures var g := Run(Initial, fs, b).state;
      && g.trialsDone == |g.trials| <= NumTrials
      && (g.phase == Finished <==> |g.trials| == NumTrials)
      && (forall k :: 0 <= k < |g.trials| ==> g.trials[k].reactionMs >= 0.0)
  {
    InitialInv(clock);
    RunPreservesInv(Initial, clock, fs, b);
    ReactionTimesNonNegative(Run(Initial, fs, b).state, LastClock(clock, fs));
  }

  /** Number of summary posts among the outputs. */
  function PostCount(outs: seq<Output>): nat
    decreases |outs|
  {
    if |outs| == 0 then 0 else (if outs[0].Post? then 1 else 0) + PostCount(outs[1..])
  }

  lemma {:induction false} PostCountAppend(a: seq<Output>, c: seq<Output>)
    ensures PostCount(a + c) == PostCount(a) + PostCount(c)
    decreases |a|
  {
    if |a| == 0 {
      assert a + c == c;
    } else {
      assert (a + c)[1..] == a[1..] + c;
      PostCountAppend(a[1..], c);
    }
  }

  lemma {:induction false} PostCountZero(outs: seq<Output>)
    requires forall k :: 0 <= k < |outs| ==> !outs[k].Post?
    ensures PostCount(outs) == 0
    decreases |outs|
  {
    if |outs| > 0 {
      PostCountZero(outs[1..]);
    }
  }

  lemma StepPostCount(g: GameState, f: Frame, b: Build)
    requires ValidBuild(b) && Indexed(g) && 0 <= f.draw < Directions
    ensures PostCount(Step(g, f, b).outputs) == if g.phase == Finished && b.web && !g.posted then 1 else 0
  {
    var outs := Step(g, f, b).outputs;
    if g.phase == Finished && b.web && !g.posted {
      assert outs[0].Post?;
      assert forall k :: 0 <= k < |outs[1..]| ==> !outs[1..][k].Post?;
      PostCountZero(outs[1..]);
    } else {
      PostCountZero(outs);
    }
  }

  predicate NoReset(fs: seq<Frame>)
  {
    forall k :: 0 <= k < |fs| ==> !fs[k].keyR
  }

  /** The post latch: within one session (no reset), the summary is posted at most
      once, and never again once the latch is set. */
  lemma {:induction false} PostedAtMostOnce(g: GameState, fs: seq<Frame>, b: Build)
    requires ValidBuild(b) && Indexed(g) && DrawsInRange(fs) && NoReset(fs)
    requires g.posted ==> g.phase == Finished
    ensures PostCount(Run(g, fs, b).outputs) <= if g.posted then 0 else 1
    decreases |fs|
  {
    if |fs| > 0 {
      var first := Step(g, fs[0], b);
      StepPostCount(g, fs[0], b);
      PostedAtMostOnce(first.state, fs[1..], b);
      PostCountAppend(first.outputs, Run(first.state, fs[1..], b).outputs);
    }
  }
}
