/**
 * The player component (components/playerContent.tsx) as two objects: the
 * `usePlayer` store, holding the queue and the active id, and the component
 * state (`volume`, `isPlaying`, `currentTime`, `duration`) that the event
 * handlers and the sound's callbacks update. The sound itself is a foreign
 * resource: `hasSound` stands for `sound` being present, and the values it
 * reports (`duration()`, `seek()`) come in as parameters.
 */
module Player {
  import opened Wrappers
  import Queue
  import Clock

  /** What `handlePlay` asks of the sound: `play()` or `pause()`. */
  datatype Request = Play | Pause

  /** The `usePlayer` store: the ordered track ids and the active id. */
  class PlayerStore {
    var ids: seq<string>
    var activeId: Option<string>

    constructor (ids: seq<string>, activeId: Option<string>)
      ensures this.ids == ids && this.activeId == activeId
    {
      this.ids := ids;
      this.activeId := activeId;
    }

    /** `player.setId(id)`: makes `id` the active id and leaves the queue alone. */
    method SetId(id: string)
      modifies this`activeId
      ensures activeId == Some(id)
    {
      activeId := Some(id);
    }
  }

  /** The component's state and handlers. */
  class PlayerContent {
    const player: PlayerStore
    const hasSound: bool
    var volume: real
    var isPlaying: bool
    var currentTime: real
    var duration: real

    /** The `useState` initial values: full volume, not playing, time and duration 0. */
    constructor (player: PlayerStore, hasSound: bool)
      ensures this.player == player && this.hasSound == hasSound
      ensures volume == 1.0 && !isPlaying && currentTime == 0.0 && duration == 0.0
    {
      this.player := player;
      this.hasSound := hasSound;
      volume := 1.0;
      isPlaying := false;
      currentTime := 0.0;
      duration := 0.0;
    }

    /** The progress percentage shown on the seek slider. */
    function Progress(): (r: real)
      reads this
      ensures duration == 0.0 ==> r == 0.0
      ensures 0.0 <= currentTime <= duration ==> 0.0 <= r <= 100.0
      ensures duration != 0.0 ==> r * duration == currentTime * 100.0
    {
      Clock.Progress(currentTime, duration)
    }

    /**
     * `onPlayNext`: nothing on an empty queue; otherwise the id after the
     * first occurrence of the active one, wrapping to the first id when that
     * neighbour is missing or empty. The queue itself is not changed, and a
     * non-empty queue always ends with an active id taken from it.
     */
    method OnPlayNext()
      modifies player`activeId
      ensures player.activeId == Queue.PlayNext(player.ids, old(player.activeId))
      ensures player.ids != [] ==> player.activeId.Some? && player.activeId.value in player.ids
    {
      if |player.ids| == 0 {
        return;
      }
      var currentIndex := Queue.FindIndex(player.ids, player.activeId);
      var nextSong := Queue.Lookup(player.ids, currentIndex + 1);
      if !Queue.Truthy(nextSong) {
        player.SetId(player.ids[0]);
        return;
      }
      player.SetId(nextSong.value);
    }

    /**
     * `onPlayPrevious`: nothing on an empty queue; otherwise the id before
     * the first occurrence of the active one, wrapping to the last id when
     * that neighbour is missing or empty.
     */
    method OnPlayPrevious()
      modifies player`activeId
      ensures player.activeId == Queue.PlayPrevious(player.ids, old(player.activeId))
      ensures player.ids != [] ==> player.activeId.Some? && player.activeId.value in player.ids
    {
      if |player.ids| == 0 {
        return;
      }
      var currentIndex := Queue.FindIndex(player.ids, player.activeId);
      var previousSong := Queue.Lookup(player.ids, currentIndex - 1);
      if !Queue.Truthy(previousSong) {
        player.SetId(player.ids[|player.ids| - 1]);
        return;
      }
      player.SetId(previousSong.value);
    }

    /**
     * The sound's `onplay` callback: playing, with the duration the sound
     * reports (0 without a sound) and its current position.
     */
    method OnPlay(soundDuration: real, position: real)
      modifies this`isPlaying, this`duration, this`currentTime
      ensures isPlaying
      ensures duration == if hasSound then soundDuration else 0.0
      ensures currentTime == position
    {
      isPlaying := true;
      duration := if hasSound then soundDuration else 0.0;
      currentTime := position;
    }

    /** The sound's `onpause` callback. */
    method OnPause()
      modifies this`isPlaying
      ensures !isPlaying
    {
      isPlaying := false;
    }

    /** The sound's `onend` callback: stop, then exactly the `onPlayNext` transition. */
    method OnEnd()
      modifies this`isPlaying, player`activeId
      ensures !isPlaying
      ensures player.activeId == Queue.PlayNext(player.ids, old(player.activeId))
    {
      isPlaying := false;
      OnPlayNext();
    }

    /** The sound's `onload` callback: with a sound, take its duration and position. */
    method OnLoad(soundDuration: real, position: real)
      modifies this`duration, this`currentTime
      ensures duration == if hasSound then soundDuration else old(duration)
      ensures currentTime == if hasSound then position else old(currentTime)
    {
      if hasSound {
        duration := soundDuration;
        currentTime := position;
      }
    }

    /** `handlePlay`: asks for play when not playing and for pause when playing; the state changes only through the callbacks. */
    method HandlePlay() returns (request: Request)
      ensures request == Play <==> !isPlaying
    {
      if !isPlaying {
        request := Play;
      } else {
        request := Pause;
      }
    }

    /** `toggleMute`: volume 0 becomes 1, any other volume becomes 0. */
    method ToggleMute()
      modifies this`volume
      ensures volume == Clock.MuteToggled(old(volume))
      ensures volume == 0.0 <==> old(volume) != 0.0
    {
      volume := if volume == 0.0 then 1.0 else 0.0;
    }

    /** The volume slider's `onChange`: the percentage over 100. */
    method SetVolumeFromSlider(value: real)
      modifies this`volume
      ensures volume == Clock.VolumeFromSlider(value)
    {
      volume := value / 100.0;
    }

    /** `handleSkipForward`: with a sound, 5 s on, clamped at 0 only; the duration is no bound. */
    method HandleSkipForward()
      modifies this`currentTime
      ensures currentTime == if hasSound then Clock.SkipForwardTime(old(currentTime)) else old(currentTime)
    {
      if hasSound {
        var newTime := Clock.Max(currentTime + Clock.SkipSeconds, 0.0);
        currentTime := newTime;
      }
    }

    /** `handleSkipBackward`: with a sound, 5 s back, never below 0. */
    method HandleSkipBackward()
      modifies this`currentTime
      ensures currentTime == if hasSound then Clock.SkipBackwardTime(old(currentTime)) else old(currentTime)
      ensures hasSound ==> currentTime >= 0.0
    {
      if hasSound {
        var newTime := Clock.Max(currentTime - Clock.SkipSeconds, 0.0);
        currentTime := newTime;
      }
    }

    /** `handleSliderChange`: with a sound and a non-zero duration, seek to the percentage of the duration. */
    method HandleSliderChange(value: real)
      modifies this`currentTime
      ensures currentTime == if hasSound && duration != 0.0 then Clock.SliderTime(value, duration) else old(currentTime)
      ensures hasSound && duration > 0.0 && 0.0 <= value <= 100.0 ==> 0.0 <= currentTime <= duration
    {
      if hasSound && duration != 0.0 {
        var newTime := value / 100.0 * duration;
        currentTime := newTime;
      }
    }
  }

  /**
   * A session on the queue `["s1", "s2", "s3"]` with `s2` active: play,
   * skip past the end of a 60 s track, let it end, and step back and forth.
   */
  method Session()
  {
    var store := new PlayerStore(["s1", "s2", "s3"], Some("s2"));
    var p := new PlayerContent(store, true);
    var request := p.HandlePlay();
    assert request == Play;
    p.OnPlay(60.0, 58.0);
    request := p.HandlePlay();
    assert request == Pause;
    p.HandleSkipForward();
    assert p.currentTime == 63.0 && p.Progress() == 105.0;
    Queue.ThreeTrackWalk("s1", "s2", "s3");
    p.OnEnd();
    assert !p.isPlaying && store.activeId == Some("s3");
    p.OnPlayNext();
    assert store.activeId == Some("s1");
    p.OnPlayPrevious();
    assert store.activeId == Some("s3");
    p.SetVolumeFromSlider(60.0);
    p.ToggleMute();
    assert p.volume == 0.0;
    p.ToggleMute();
    assert p.volume == 1.0;
  }
}
