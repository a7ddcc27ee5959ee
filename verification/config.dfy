/** The fixed parameters of one game session. */
module Config {
  import opened Geometry

  const ScreenWidth: int := 1280
  const ScreenHeight: int := 720

  /** Centre of the play area, where the player clicks to spawn the next target. */
  const Center: Point := Point(ScreenWidth as real * 0.5, ScreenHeight as real * 0.5)

  /** Radius of the outer ring of a target (a hit worth 5 points). */
  const OuterRadius: real := 36.0
  /** Radius of the bullseye of a target (a hit worth 10 points). */
  const InnerRadius: real := 14.0
  /** How close to the centre a click must be to start a trial. */
  const CenterReadyRadius: real := 28.0

  /** Number of trials in a session. */
  const NumTrials: nat := 100
  /** Number of clock-face directions a target can appear at. */
  const Directions: nat := 12

  /** Labels of the clock-face directions, index 0 being twelve o'clock. */
  const ClockLabels: seq<string> := ["12", "1", "2", "3", "4", "5", "6", "7", "8", "9", "10", "11"]

  /** Starting value of a direction's running minimum reaction time. */
  const MinSentinel: real := 1000000000.0
}
