# Clock Face Accuracy Reaction Test: a Dafny model of the trial logic

The game shows a target at one of twelve clock-face positions around the centre
of the screen. The player returns to the centre, clicks to spawn the target, and
clicks the target. A click in the bullseye scores 10 and one in the outer ring
scores 5. A click outside the outer ring is ignored. After 100 stored trials the
session is finished. The web build then posts a summary once, and the player can
export two CSV files (the detailed trials and per-direction statistics) or reset.

This project models that logic in `main.cpp` as pure functions over an immutable
`GameState`:

- `geometry.dfy`: points and squared distance. Radii are positive, so
  `sqrtf(d2) <= r` is modelled as `d2 <= r * r`.
- `config.dfy`: the constants `R_IN`, `R_OUT`, `CENTER_READY_RADIUS`,
  `NUM_TRIALS`, the screen centre and the clock labels, under Dafny names.
- `trials.dfy`: `Phase`, `Trial` and `GameState`, plus reference folds over a
  sequence of trials (`InDir`, `Bullseyes`, `ReactionSum`).
- `scoring.dfy`: hit classification.
- `dirstats.dfy`: `ComputeDirStats`, written as the game's single pass followed
  by the reset of empty buckets' minimum.
- `summary.dfy`: the numbers of the JSON result.
- `export.dfy`: both CSV exports as rows of fields, and a reader of the detailed
  export that recovers what was written.
- `game.dfy`: `BeginTrial`, `RecordHit` and one frame of the main-loop logic
  (`Step`). Also runs of frames and the session invariant.
- `scenarios.dfy`: whole sessions played from the initial state.

The clock, the cursor, the button and the keys are inputs of a frame (`Frame`),
and so is the random direction drawn for a new target. `BeginTrial` reads the
clock itself (main.cpp:106), after the frame's reading at main.cpp:285, so a
frame carries two readings: `now` and `spawnClock`. The twelve on-screen target
positions are an input of the build (`Build.clockFace`), because the game
computes them with `cosf`/`sinf`. Whether the summary is posted depends on the
build (`Build.web`), as the `#ifdef __EMSCRIPTEN__` at main.cpp:304-310 does.

The model follows the code on two details:

- The summary's `trials` field is the configured number of trials
  (main.cpp:163), not the number of trials stored.
- The hit rate divides by that configured number (main.cpp:150).

A step requires every direction index in the state to lie in 0..11. The game
uses these indices to subscript the twelve per-direction buckets
(main.cpp:183-184) and does not check them. The invariant shows that every
reachable state meets this requirement. The random draw is likewise limited to
0..11, the range `GetRandomValue(0,11)` returns.

## Model

| member | source | states |
|---|---|---|
| Geometry.WithinMonotone | main.cpp:38-40 | a point within the bullseye radius is within the larger outer radius, which is why a bullseye is always also an outer hit |
| Scoring.Classify | main.cpp:112-115 | a click scores 10 exactly when within the bullseye radius, 5 exactly when outside it but within the outer radius, 0 exactly when outside the outer radius; bullseye implies outer hit |
| Scoring.BoundaryScores | main.cpp:113-115 | a click exactly on the bullseye edge scores 10, exactly on the outer edge scores 5, and any farther point scores 0 |
| Game.BeginTrial | main.cpp:102-108 | starting a trial makes the target live at the drawn direction and its clock-face position, records the spawn time, and leaves the trials, count and post latch alone |
| Game.RecordHit | main.cpp:110-137 | a click outside the outer ring leaves the state unchanged; otherwise exactly one trial is appended with earlier trials untouched, the count rises by one, the trial carries the live direction, the spawn time, the click time, reaction = (click - spawn) x 1000, outer hit, bullseye iff within the inner radius, and score 10 or 5; the phase becomes Finished exactly when the count reaches the configured number, else WaitAtCenter |
| Game.Step | main.cpp:289-339 | waiting at the centre only a click within the centre radius starts a trial, timed from the second clock reading; with a live target a click is handled by RecordHit with the frame's own clock reading as click time, so a miss changes nothing and a hit appends one trial; when finished clicks are ignored, the web build sets the post latch, R restores the initial state; outputs come only from the finished phase, and a summary is posted exactly when finished on the web build with the latch clear |
| Game.FinishedOutputs | main.cpp:303-333 | in the finished phase the summary of the stored trials is posted exactly when on the web build with the latch clear, D saves the detailed export under its file name exactly when pressed, P saves the per-direction export under its file name exactly when pressed, and nothing else is emitted |
| Game.Run | main.cpp:283-340 | every direction index the state holds stays within the twelve positions over any run of frames; what else a run keeps is stated by Game.RunPreservesInv and Game.PostedAtMostOnce |
| Game.InitialInv | main.cpp:51-59 | the default state satisfies the session invariant (no trials, count 0, waiting at the centre, latch clear) |
| Game.StepPreservesInv | main.cpp:289-339 | with a clock that does not run backwards, every frame preserves the invariant: count equals stored trials and is at most the configured number, finished iff all trials are done, latch set only when finished, every stored trial recorded from a hit with spawn <= click |
| Game.RunPreservesInv | main.cpp:283-340 | the invariant holds after any run of frames with a monotone clock |
| Game.ReactionTimesNonNegative | main.cpp:119-126 | in any state satisfying the invariant every stored reaction time is non-negative |
| Game.Reachable | main.cpp:128-136 | every state reached from the initial state has count == number of trials <= configured number, is finished exactly when the configured number of trials is stored, and has non-negative reaction times |
| Game.StepPostCount | main.cpp:304-309 | a frame posts one summary when finished on the web build with the latch clear, and none otherwise |
| Game.PostedAtMostOnce | main.cpp:304-309 | without a reset, a run of frames posts the summary at most once, and not at all once the latch is set |
| DirStats.ComputeDirStats | main.cpp:172-194 | the statistics have twelve buckets; bucket d's count, bullseye count and reaction sum are those of exactly the trials aimed at direction d, and a direction with no trials reports zero for count, bullseyes, sum, minimum and maximum |
| DirStats.AccumulateCounts | main.cpp:180-190 | after the pass each bucket's count, bullseye count and reaction sum are those of exactly the trials aimed at that direction, and an untouched bucket still holds its starting values |
| DirStats.AccumulateExtremes | main.cpp:176-189 | after the pass a non-empty bucket's minimum and maximum bound all its reaction times and are each attained by one of its trials |
| DirStats.DirStatsBucket | main.cpp:180-193 | each bucket counts the trials aimed at its direction, its bullseyes never exceed its count, and an empty bucket reports n = 0, min = 0, max = 0, sum = 0 |
| DirStats.DirStatsExtremes | main.cpp:180-193 | in a non-empty bucket min <= max, both bound every reaction time of the bucket, and both are attained |
| DirStats.DirStatsTotals | main.cpp:180-193 | the bucket counts add up to the number of trials and the bucket bullseye counts to the number of bullseyes |
| Summary.BuildResult | main.cpp:139-166 | the summary reports the configured trial count, a hit rate equal to hits over the configured count, a mean of 0 with no trials and otherwise mean x count = sum of reaction times |
| Summary.TallyOfRecorded | main.cpp:141-148 | over stored trials the pass counts every trial as a hit, bullseyes as the reference count, score as 5 per trial plus 5 per bullseye, and the reference reaction sum |
| Summary.SummaryOfRecorded | main.cpp:141-150 | for stored trials: hits = number of trials, total score = 10 per bullseye + 5 per other hit, hit rate = trials / configured count, mean = sum / count |
| Summary.SummaryMatchesDirStats | main.cpp:141-148 | the summary's hits equal the total of the per-direction counts and its bullseyes the total of the per-direction bullseyes |
| Export.DetailCsv | main.cpp:222-235 | the detailed export has one header row plus one row per trial |
| Export.DetailCsvRow | main.cpp:224-234 | row i + 1 of the detailed export describes trial i under the 1-based ordinal i + 1 |
| Export.DetailCsvRoundTrip | main.cpp:222-235 | reading the detailed export back yields exactly the trials, in order, with ordinals 1, 2, ... |
| Export.DirSummaryCsv | main.cpp:238-253 | the per-direction export has one header row and exactly twelve further rows |
| Export.DirSummaryRow | main.cpp:238-253 | row d + 1 is labelled with direction d's clock label and its trial count; an empty direction reports 0 for count, mean, min, max and bullseye percentage; otherwise mean = sum / n and bullseye percentage = 100 x bullseyes / n, always between 0 and 100, and the min_ms and max_ms columns hold the least and greatest reaction time of the direction's trials, both attained |
| Export.LabelsDistinct | main.cpp:168-170 | no two directions share a label, so the twelve rows of the per-direction export are told apart by their first field |
| Scenarios.RoundFromCenter | main.cpp:289-301 | a centre click followed by a hit on the spawned target stores exactly one trial with the drawn direction and both clock readings, leaving earlier trials alone |
| Scenarios.PlayFromInitial | main.cpp:128-136 | from the initial state, k <= 100 hitting rounds store k trials in round order; the session is finished exactly when k = 100 and waits at the centre otherwise; nothing is posted |
| Scenarios.FullSession | main.cpp:141-150 | after 100 hitting rounds the session is finished, the summary has 100 hits and hit rate 1, and the detailed export has 101 rows |
| Scenarios.BullseyeExample | main.cpp:119-126 | a target spawned at 10.0 s in direction 0 and clicked dead centre at 10.25 s is stored as direction 0, 250 ms, bullseye, score 10 |

## Left out

- Rendering: every `Draw*` call, `DrawStatsTable` and the draw half of the main loop (main.cpp:342-411) only display state.
- Input polling: `GetMousePosition`, `IsMouseButtonPressed` and `IsKeyPressed` are library calls, and their results are fields of `Frame`. `WindowShouldClose` is not modelled: the loop ends where the sequence of frames given to `Run` ends.
- `TargetPosForIndex` uses `cosf`/`sinf`, which are not modelled. The target positions are the `clockFace` input of the build, so `CLOCK_RADIUS` does not appear.
- `RandomClockIndex`, `GetRandomValue` and `SetRandomSeed` are library randomness. The drawn index is the `draw` field of a frame, limited to 0..11.
- `GetTime` is the library clock. Its readings are the `now` and `spawnClock` fields of a frame. The invariant assumes they never decrease, as for a monotonic clock.
- `PostJSON` and the fetch callbacks are network I/O. A post is the `Post` output of a step. The latch is set whatever the request's outcome.
- `DownloadText` and the `std::ofstream` writes are browser and file I/O. A download is the `Save` output, carrying the file name and the rows.
- Text formatting is not modelled: the JSON text (including its comma before the closing brace), `%.3f`, `std::to_string` and `snprintf`. Summaries are numbers, and CSV rows are sequences of fields.
- Floating point: `float` and `double` values are modelled as exact reals, with no rounding.
- Export.DetailCsvRoundTrip: the round trip is over fields holding exact reals. The game writes the times with `std::to_string` at six decimals (main.cpp:228-230), so its actual text does not read back to the same values.
- Floating point: distances are compared squared, so the model does not round inside `sqrtf`.
- DirStats.DirStatsExtremes: this is stated only for reaction times between 0 and 1e9 ms. The running minimum starts at the sentinel 1e9 (main.cpp:176), so a bucket whose times all exceed it would report a minimum that no trial attains.
- DirStats.AccumulateExtremes: this has the same 0 to 1e9 ms restriction, for the same reason.
- Export.DirSummaryRow: the min_ms and max_ms columns are stated only for reaction times between 0 and 1e9 ms, for the same reason.
- Window setup and the frame-rate limit (main.cpp:273-281) are not modelled.
