/**
 * The arithmetic of the player's transport controls
 * (components/playerContent.tsx): the ±5 s skips, the percentage slider
 * seek, the progress percentage, the mute toggle and the volume slider.
 * Times and volumes are reals; the handlers in module Player apply these
 * functions to their state.
 */
module Clock {

  /** `skipAmount` in both skip handlers, in seconds. */
  const SkipSeconds: real := 5.0

  /** `Math.max` on two numbers: the larger of the two. */
  function Max(a: real, b: real): (r: real)
    ensures r >= a && r >= b
    ensures r == a || r == b
  {
    if a >= b then a else b
  }

  /** `Math.max(currentTime + skipAmount, 0)`: clamped below at 0 and nowhere above. */
  function SkipForwardTime(t: real): (r: real)
    ensures r >= 0.0 && r >= t + SkipSeconds
    ensures t + SkipSeconds >= 0.0 ==> r == t + SkipSeconds
    ensures t + SkipSeconds < 0.0 ==> r == 0.0
  {
    Max(t + SkipSeconds, 0.0)
  }

  /** `Math.max(currentTime - skipAmount, 0)`: never negative. */
  function SkipBackwardTime(t: real): (r: real)
    ensures r >= 0.0
    ensures t >= SkipSeconds ==> r == t - SkipSeconds
    ensures t < SkipSeconds ==> r == 0.0
  {
    Max(t - SkipSeconds, 0.0)
  }

  /** A skip back undoes a skip forward from any non-negative time, and a skip forward undoes a skip back from 5 s on. */
  lemma SkipsUndoEachOther(t: real)
    ensures t >= 0.0 ==> SkipBackwardTime(SkipForwardTime(t)) == t
    ensures t >= SkipSeconds ==> SkipForwardTime(SkipBackwardTime(t)) == t
    ensures 0.0 <= t < SkipSeconds ==> SkipForwardTime(SkipBackwardTime(t)) == SkipSeconds
  {
  }

  /**
   * `(value / 100) * duration`: the seek position a slider percentage
   * stands for; a percentage in [0, 100] lands in [0, duration].
   */
  function SliderTime(value: real, duration: real): (r: real)
    ensures 0.0 <= value <= 100.0 && duration >= 0.0 ==> 0.0 <= r <= duration
  {
    value / 100.0 * duration
  }

  /**
   * `duration ? (currentTime / duration) * 100 : 0`: the progress
   * percentage, 0 when the duration is 0, in [0, 100] while the position
   * lies within the track.
   */
  function Progress(currentTime: real, duration: real): (r: real)
    ensures duration == 0.0 ==> r == 0.0
    ensures 0.0 <= currentTime <= duration ==> 0.0 <= r <= 100.0
    ensures duration != 0.0 ==> r * duration == currentTime * 100.0
  {
    if duration == 0.0 then 0.0 else currentTime / duration * 100.0
  }

  /** The slider and the progress bar are inverse conversions while the duration is not 0. */
  lemma SliderProgressRoundTrip(value: real, currentTime: real, duration: real)
    requires duration != 0.0
    ensures Progress(SliderTime(value, duration), duration) == value
    ensures SliderTime(Progress(currentTime, duration), duration) == currentTime
  {
  }

  /**
   * A skip forward near the end of a track overshoots its duration: from
   * 58 s of a 60 s track it lands at 63 s and the progress bar reads 105.
   */
  lemma SkipForwardOvershoots()
    ensures SkipForwardTime(58.0) == 63.0 > 60.0
    ensures Progress(SkipForwardTime(58.0), 60.0) == 105.0
  {
  }

  /** `prevVolume === 0 ? 1 : 0`: the toggle mutes any audible volume and unmutes to full volume. */
  function MuteToggled(volume: real): (r: real)
    ensures r == 0.0 || r == 1.0
    ensures r == 0.0 <==> volume != 0.0
  {
    if volume == 0.0 then 1.0 else 0.0
  }

  /** Toggling twice gives back the starting volume exactly when it was 0 or 1. */
  lemma DoubleToggle(volume: real)
    ensures MuteToggled(MuteToggled(volume)) == volume <==> volume == 0.0 || volume == 1.0
  {
  }

  /** The toggle keeps no memory of the volume: a slider volume of 0.6 comes back as 1 after mute and unmute. */
  lemma MuteForgetsVolume()
    ensures MuteToggled(MuteToggled(VolumeFromSlider(60.0))) == 1.0
  {
  }

  /** `value / 100` from the volume slider: a percentage in [0, 100] is a volume in [0, 1]. */
  function VolumeFromSlider(value: real): (r: real)
    ensures 0.0 <= value <= 100.0 ==> 0.0 <= r <= 1.0
    ensures r * 100.0 == value
  {
    value / 100.0
  }
}
