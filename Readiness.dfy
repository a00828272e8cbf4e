/**
 * The "fully written" heuristic (`is_file_fully_written`,
 * TTS/tts_player.py:117-143) and the one-retry gate of `play_audio`
 * (TTS/tts_player.py:296-303).
 *
 * The file system and the sleeps are replaced by what one call observes:
 * whether the path exists, its size, and two later size samples taken
 * 50 ms apart.
 */
module Readiness {

  /** Default `min_size` of the heuristic, in bytes. */
  const MinAudioSize := 100

  /** What one call of the heuristic observes, in order. */
  datatype Probe = Probe(present: bool, size: int, size1: int, size2: int)

  /** The file exists, is not below `minSize`, and did not change size between the two samples. */
  predicate IsFullyWritten(p: Probe, minSize: int)
  {
    if !p.present then false
    else if p.size < minSize then false
    else p.size1 == p.size2
  }

  /** Outcome of the gate: whether the file was judged ready, and how many probes were taken. */
  datatype GateOutcome = GateOutcome(ready: bool, probes: nat)

  /**
   * Probe once; on failure wait and probe a second and last time.
   * The second probe is consulted only when the first fails.
   */
  function ReadinessGate(first: Probe, second: Probe): (g: GateOutcome)
    ensures 1 <= g.probes <= 2
    ensures g.ready <==> IsFullyWritten(first, MinAudioSize) || IsFullyWritten(second, MinAudioSize)
    ensures g.probes == 1 <==> IsFullyWritten(first, MinAudioSize)
  {
    if IsFullyWritten(first, MinAudioSize) then GateOutcome(true, 1)
    else GateOutcome(IsFullyWritten(second, MinAudioSize), 2)
  }

  // ---------------------------------------------------------------------------
  // Properties

  /**
   * A missing path or a first size below the minimum is never ready; otherwise
   * the answer is exactly whether the two later samples agree.
   */
  lemma ReadinessCases(p: Probe, minSize: int)
    ensures !p.present ==> !IsFullyWritten(p, minSize)
    ensures p.present && p.size < minSize ==> !IsFullyWritten(p, minSize)
    ensures p.present && p.size >= minSize ==> (IsFullyWritten(p, minSize) <==> p.size1 == p.size2)
  {
  }

  /** The first size takes part only in the minimum check, never in the stability check. */
  lemma FirstSizeOnlyGatesMinimum(p: Probe, size: int, minSize: int)
    requires p.size >= minSize && size >= minSize
    ensures IsFullyWritten(p, minSize) == IsFullyWritten(p.(size := size), minSize)
  {
  }

  /**
   * The heuristic has a false-positive window: once the first size passes
   * the minimum, any two equal later samples are judged ready, even samples
   * below the minimum (a file that shrank after the first size was taken).
   */
  lemma ReadyDoesNotBoundLaterSize(size: int, later: int, minSize: int)
    requires size >= minSize
    ensures IsFullyWritten(Probe(true, size, later, later), minSize)
  {
  }

  /** When the first probe succeeds the second one does not influence the gate. */
  lemma GateIgnoresSecondAfterSuccess(first: Probe, second: Probe, other: Probe)
    requires IsFullyWritten(first, MinAudioSize)
    ensures ReadinessGate(first, second) == ReadinessGate(first, other) == GateOutcome(true, 1)
  {
  }
}
