# Player controller of a media-library front end, modelled in Dafny

This project models the playback controls of a music web app: the player
component (`components/playerContent.tsx`) and the file-name rule of the
download button (`components/DowloadButton.tsx`).

The player works on two pieces of state:

- the `usePlayer` store: an ordered list of track ids (duplicates allowed) and an optional active id;
- the component's own state: `volume`, `isPlaying`, `currentTime` and `duration`.

Its handlers do the following:

- step through the queue with wrap-around (`onPlayNext`, `onPlayPrevious`);
- react to the sound's `onplay`, `onpause`, `onend` and `onload` callbacks, where `onend` auto-advances;
- ask the sound to play or pause (`handlePlay`);
- skip ±5 s, seek from a percentage slider, toggle mute and set the volume from a slider;
- derive the progress percentage and the `m:ss` time text.

Modules, one per concern:

- `Wrappers` (wrappers.dfy): `Option`, standing in for JavaScript's `undefined`.
- `Queue` (queue.dfy): first-index lookup and the next/previous rules as functions, with lemmas for every case. These cover wrap-around, an absent active id, falsy empty-string neighbours and duplicates. On a list of distinct non-empty ids, next and previous are proved to be cyclic successor and predecessor and to undo each other.
- `Clock` (clock.dfy): skip, slider, progress, mute and volume arithmetic on reals.
- `TimeText` (timetext.dfy): `formatTime` with JavaScript's truncating `%`, `Math.floor`, integer `toString` and `padStart`. For non-negative times, reading the text back with `ParseClock` gives the whole number of seconds.
- `Download` (download.dfy): `split('/')`, `pop()` and the `'download'` fallback. `Split` and `Join` are proved inverse in both directions.
- `Player` (player.dfy): the store and the component as classes. Each handler is a method whose postcondition gives the new state as a function of the old state, using the functions above. `Player.Session` is an example walk: it plays a three-track queue, skips past the end of a 60 s track, lets it end and steps back and forth, asserting the state after each step.

Notes on the code's behaviour:

- Skip forward has no upper clamp. From 58 s of a 60 s track it lands at 63 s, and the progress reads 105 (`Clock.SkipForwardOvershoots`).
- The mute toggle does not remember the previous volume. Unmuting always restores volume 1 (`Clock.MuteForgetsVolume`).
- The seek handlers do not clamp their input.
- There is no playback status, no generation counter and no suppression of stale callbacks.
- `setId` is a plain assignment. The store's code is not part of this model.
- The neighbour test is JavaScript falsiness, so an empty-string id also triggers a wrap.
- An active id that is absent from the list counts as index -1. Next then goes to the first id and previous to the last.

## Model

| member | source | states |
|---|---|---|
| Queue.Truthy | components/playerContent.tsx:37 | a looked-up id is falsy exactly when it is undefined or the empty string |
| Queue.Lookup | components/playerContent.tsx:35 | `ids[k]` is the element when k is in range and undefined otherwise |
| Queue.FindIndex | components/playerContent.tsx:34 | the result is -1 exactly when the active id is unset or absent; otherwise it is the first index holding the active id |
| Queue.PlayNext | components/playerContent.tsx:29-41 | an empty queue keeps the active id; a non-empty queue always yields an active id taken from the queue |
| Queue.PlayPrevious | components/playerContent.tsx:45-57 | an empty queue keeps the active id; a non-empty queue always yields an active id taken from the queue |
| Queue.PlayNextAdvances | components/playerContent.tsx:34-41 | from the first occurrence at k, with a non-empty id at k+1, next gives ids[k+1] |
| Queue.PlayNextWrapsAtEnd | components/playerContent.tsx:35-38 | from the first occurrence at the last index, next wraps to ids[0] |
| Queue.PlayNextWrapsOverEmptyId | components/playerContent.tsx:37-38 | an empty-string neighbour is falsy, so next wraps to ids[0] |
| Queue.PlayNextFromAbsent | components/playerContent.tsx:34-38 | an unset or absent active id (index -1) makes next go to ids[0] |
| Queue.PlayPreviousRetreats | components/playerContent.tsx:50-57 | from the first occurrence at k >= 1, with a non-empty id at k-1, previous gives ids[k-1] |
| Queue.PlayPreviousWrapsAtStart | components/playerContent.tsx:51-54 | from ids[0], previous wraps to the last id |
| Queue.PlayPreviousWrapsOverEmptyId | components/playerContent.tsx:53-54 | an empty-string neighbour is falsy, so previous wraps to the last id |
| Queue.PlayPreviousFromAbsent | components/playerContent.tsx:50-54 | an unset or absent active id makes previous go to the last id |
| Queue.SingleTrackStays | components/playerContent.tsx:29-57 | a one-track queue stays on its track in both directions |
| Queue.PlayNextCyclic | components/playerContent.tsx:29-41 | with distinct non-empty ids, next from ids[k] is ids[(k+1) mod n] |
| Queue.PlayPreviousCyclic | components/playerContent.tsx:45-57 | with distinct non-empty ids, previous from ids[k] is ids[(k-1) mod n] |
| Queue.NextPreviousInverse | components/playerContent.tsx:29-57 | with distinct non-empty ids, previous undoes next and next undoes previous |
| Queue.ThreeTrackWalk | components/playerContent.tsx:29-57 | in [s1, s2, s3] from s2: next gives s3, next again wraps to s1, previous from s1 wraps to s3 |
| Queue.DuplicateTrapsNext | components/playerContent.tsx:34-41 | in [a, b, a, c], next from a gives b and next from b gives a, so c is never reached |
| Clock.Max | components/playerContent.tsx:113 | `Math.max` gives a value at least both arguments and equal to one of them |
| Clock.SkipForwardTime | components/playerContent.tsx:110-117 | the new time is at least 0 and at least t+5; it equals t+5 whenever that is non-negative and 0 otherwise; there is no upper bound |
| Clock.SkipBackwardTime | components/playerContent.tsx:119-126 | the new time is t-5 from 5 s on and 0 below that, so it is never negative |
| Clock.SkipsUndoEachOther | components/playerContent.tsx:110-126 | back undoes forward from any t >= 0; forward undoes back from t >= 5; below 5 s, back then forward lands at 5 |
| Clock.SkipForwardOvershoots | components/playerContent.tsx:110-117 | from 58 s of a 60 s track, skip forward gives 63 s and the progress reads 105 |
| Clock.SliderTime | components/playerContent.tsx:130 | a percentage in [0, 100] gives a position in [0, duration] |
| Clock.Progress | components/playerContent.tsx:142 | 0 when the duration is 0; in [0, 100] when 0 <= time <= duration; progress * duration = time * 100 otherwise |
| Clock.SliderProgressRoundTrip | components/playerContent.tsx:128-142 | for a non-zero duration, the slider position and the progress percentage convert into each other exactly |
| Clock.MuteToggled | components/playerContent.tsx:106-108 | the result is 0 or 1, and it is 0 exactly when the old volume was not 0 |
| Clock.DoubleToggle | components/playerContent.tsx:106-108 | toggling twice restores the volume if and only if it was 0 or 1 |
| Clock.MuteForgetsVolume | components/playerContent.tsx:106-108 | a slider volume of 0.6 comes back as 1 after mute and unmute |
| Clock.VolumeFromSlider | components/playerContent.tsx:187 | the volume times 100 is the slider value, so [0, 100] maps into [0, 1] |
| TimeText.NatToString | components/playerContent.tsx:139 | the decimal text of a whole number is non-empty, all digits, has no leading zero (it starts with `0` only when it is `"0"`) and reads back as the number |
| TimeText.IntToString | components/playerContent.tsx:137-139 | a non-negative integer's text is non-empty, all digits, has no leading zero (it starts with `0` only when it is `"0"`) and reads back as it; a negative one's is `-` followed by the digits of its magnitude, again with no leading zero |
| TimeText.Trunc | components/playerContent.tsx:138 | truncation toward zero: for x >= 0 the whole number in (x-1, x]; for x < 0 the whole number in [x, x+1) |
| TimeText.JsRem | components/playerContent.tsx:138 | JavaScript's `%`: a minus the remainder is a whole multiple of b; for b > 0 the remainder lies in [0, b) when a >= 0 and in (-b, 0] when a < 0 |
| TimeText.PadStart | components/playerContent.tsx:138 | the result has length max(len, width), ends with the input and is filled before it |
| TimeText.FloorParts | components/playerContent.tsx:137-138 | for t >= 0, the minutes are the whole seconds div 60 and the floored `%` part is the whole seconds mod 60 |
| TimeText.PaddedSeconds | components/playerContent.tsx:138 | a seconds value below 60 pads to exactly its two digits |
| TimeText.FormatTime | components/playerContent.tsx:136-140 | for t >= 0 the text is m + ":" + ss, with m = floor(t) div 60 unpadded and ss = floor(t) mod 60 in two digits |
| TimeText.FormatParseRoundTrip | components/playerContent.tsx:136-140 | for t >= 0, reading the text back gives floor(t) = m*60 + ss |
| TimeText.NegativeTime | components/playerContent.tsx:136-140 | -1 s formats as "-1:-1", because floor and the truncating `%` disagree on negative times |
| Download.Split | components/DowloadButton.tsx:19 | there is always at least one part, and no part contains `/` |
| Download.SplitJoin | components/DowloadButton.tsx:19 | joining the parts with `/` gives the URL back |
| Download.JoinSplit | components/DowloadButton.tsx:19 | splitting a join of slash-free parts gives those parts back |
| Download.LastSegment | components/DowloadButton.tsx:19 | `pop()` of the split gives a part without `/` |
| Download.LastSegmentIsTail | components/DowloadButton.tsx:19 | the popped part is a slash-free suffix of the URL, either the whole URL or preceded by `/` |
| Download.FileName | components/DowloadButton.tsx:19 | the name is never empty and never contains `/` |
| Download.FileNameAfterLastSlash | components/DowloadButton.tsx:19 | with the last `/` at k, the name is the text after k, or `download` when that text is empty |
| Download.FileNameWithoutSlash | components/DowloadButton.tsx:19 | a non-empty URL without `/` is its own name |
| Download.FileNameDefault | components/DowloadButton.tsx:19 | the empty URL and a URL ending in `/` give `download` |
| Download.FileNameSuffixOrDefault | components/DowloadButton.tsx:19 | the name is a suffix of the URL or `download` |
| Player.PlayerStore.constructor | components/playerContent.tsx:20 | the store holds the given queue and active id |
| Player.PlayerStore.SetId | components/playerContent.tsx:38 | `setId` makes the id active and leaves the queue unchanged |
| Player.PlayerContent.constructor | components/playerContent.tsx:20-24 | the initial state is volume 1, not playing, time 0 and duration 0 |
| Player.PlayerContent.Progress | components/playerContent.tsx:142 | the component's progress is 0 for duration 0; otherwise it is time / duration * 100 (progress * duration = time * 100), so it lies in [0, 100] while the time is within the track and exceeds 100 after an overshooting skip |
| Player.PlayerContent.OnPlayNext | components/playerContent.tsx:29-42 | the new active id is `PlayNext` of the old one; the queue is unchanged; a non-empty queue ends with an active id taken from it |
| Player.PlayerContent.OnPlayPrevious | components/playerContent.tsx:45-58 | the new active id is `PlayPrevious` of the old one; the queue is unchanged; a non-empty queue ends with an active id taken from it |
| Player.PlayerContent.OnPlay | components/playerContent.tsx:62-66 | sets playing; the duration becomes the sound's (0 without a sound); the time becomes the sound's position |
| Player.PlayerContent.OnPause | components/playerContent.tsx:71 | sets not playing and changes nothing else |
| Player.PlayerContent.OnEnd | components/playerContent.tsx:67-70 | sets not playing, then performs exactly the `onPlayNext` transition |
| Player.PlayerContent.OnLoad | components/playerContent.tsx:72-77 | with a sound, takes its duration and position; without one, changes nothing |
| Player.PlayerContent.HandlePlay | components/playerContent.tsx:98-104 | requests play exactly when not playing and pause otherwise; changes no state |
| Player.PlayerContent.ToggleMute | components/playerContent.tsx:106-108 | the volume becomes 1 from 0 and 0 from anything else; nothing else changes |
| Player.PlayerContent.SetVolumeFromSlider | components/playerContent.tsx:187 | the volume becomes the slider percentage over 100 |
| Player.PlayerContent.HandleSkipForward | components/playerContent.tsx:110-117 | with a sound, the time becomes max(t+5, 0) with no clamp at the duration; without a sound, nothing changes |
| Player.PlayerContent.HandleSkipBackward | components/playerContent.tsx:119-126 | with a sound, the time becomes max(t-5, 0), so it is never negative; without a sound, nothing changes |
| Player.PlayerContent.HandleSliderChange | components/playerContent.tsx:128-134 | with a sound and a non-zero duration, the time becomes value/100 * duration, within [0, duration] for a value in [0, 100]; otherwise nothing changes |

## Left out

- The sound object from `useSound` is a foreign audio library (Howler). It is modelled only as the constant flag `hasSound`. The model leaves out its `play()`, `pause()`, `seek(t)` and `unload()` calls and the changes of `sound` between renders. The values it reports (`duration()`, `seek()`) are method parameters.
- OnPlay: the `sound.seek()` read in `onplay` would throw if `sound` were missing. The model does not capture that throw and takes the reported position in every case.
- The `useEffect` that starts playback and samples `seek()` every second (components/playerContent.tsx:81-96) is left out. It is a timer and React effect lifecycle.
- React's asynchronous state updates and stale closures are left out. Each handler reads the latest state.
- IEEE floating point is left out. Times, volumes and percentages are exact reals, so NaN, infinities and rounding are not modelled. The `|| 0` fallback for a NaN duration and `toString` of numbers at or above 1e21 are not modelled either.
- Rendering is left out: icons, layout and the `MediaItem`/`LikeButton` children.
- The rest of `handleDownload` is left out: fetch, blob, link creation, click and revoke are browser I/O.
- The `usePlayer` store's implementation is not part of this model. `setId` is taken as plain assignment.
- The other components (upload form, liked and search lists, PDF buttons, sliders, layout, the server action) are left out. They are rendering, routing and backend calls with no logic of their own to prove.
