# AudioRecorderPlayer facade, modelled in Dafny

The JavaScript module `index.js` of react-native-audio-recorder-player is a thin
facade over a native audio module. It keeps a little session state (is it
recording, is it playing, where is playback, which native event subscriptions
are installed) and guards the native commands with that state. It relays native
progress events to the application while dropping stale ones and spotting the
end of playback. It also formats elapsed time as `MM:SS` and `MM:SS:CC`.

The project has four files:

- `Wrappers.dfy`: the `Option` datatype, which stands for `undefined`/`null`
  beside a present value.
- `TimeFormat.dfy`: `pad`, `mmss` and `mmssss` over natural numbers. `Pad` is
  modelled literally: the last two characters of `'0'` followed by the decimal
  numeral of `n`. The lemmas relate it and the two formatters to an independent
  reference, `Clock`, a display of two-digit fields separated by `':'`.
  `ParseClock` is the inverse of `Clock`.
- `Session.dfy`: the state machine of class `AudioRecorderPlayer` as pure
  functions.
  - `State` holds the fields of the class.
  - A ghost log `trace` records, in order, every call made across the native
    boundary (the commands, and the installation or removal of a native event
    listener) and every event emitted to the application on the local channels
    `recordback`, `playback` and `playback-end`. Because both kinds of entry
    share one log, the order between an emission and a native call is stated,
    for example that `stopPlayer` emits `playback-end` after the native
    unsubscribe and before the native stop.
  - Each command and each native event callback is one step function. `Apply`
    dispatches over them and `Run` folds a sequence of them.
  - `Valid` is the invariant every step keeps. A native subscription exists
    exactly while its flag is set. For each of the four things the facade
    opens and closes natively (recording, playing, the record listener, the
    playback listener), replaying the native calls of the trace never opens twice or closes
    while closed, and it ends in the state the flags record.
- `Recorder.dfy`: class `AudioRecorderPlayer`. Its fields are the source's
  fields, plus the trace as a ghost field. There is one method per command,
  per native-listener helper and per relay callback (`OnNativeRecord`,
  `OnNativePlayback`). Each command and relay method is proved to keep `Valid`
  and to leave the object in the state that `Session.Apply` computes from the
  old state. The four listener helpers are proved to compute the matching
  `Session` helper function; they are called only from inside commands, so they
  carry no `Valid` contract of their own. The
  `isRecording` and `isPlaying` getters are the functions `IsRecording` and
  `IsPlaying`.

`mmssss` does not reduce its minutes modulo 60, unlike `mmss`; only `pad` cuts
them to their last two digits. So `mmssss(3600000)` is `"60:00:00"`, and the
display repeats every 100 minutes. The model keeps this behaviour as written.
`OneHourDisplays` and `MmssssRepeatsEveryHundredMinutes` state it. Every field
that `pad` produces is still two digits.

## Model

| member | source | states |
|---|---|---|
| TimeFormat.DecimalString | index.js:13 | the numeral of `n` that string concatenation produces is non-empty, all digits, and has no leading zero unless `n` is 0 |
| TimeFormat.DecimalRoundTrip | index.js:13 | reading that numeral back gives `n` |
| TimeFormat.Pad | index.js:12-14 | `pad(n)` is always two digit characters |
| TimeFormat.PadIsTwoDigits | index.js:12-14 | `pad(n)` is the zero-filled two-digit rendering of `n % 100` |
| TimeFormat.PadBelowTen | index.js:12-14 | below 10, `pad(n)` is `'0'` followed by the digit |
| TimeFormat.PadValue | index.js:12-14 | reading the two characters of `pad(n)` back gives `n % 100` |
| TimeFormat.ClockRoundTrip | index.js:76 | a display of two-digit fields joined by `':'` reads back into exactly those fields |
| TimeFormat.ClockLayout | index.js:76 | in such a display, position `i` holds `':'` exactly when `i % 3 == 2`, and a digit everywhere else |
| TimeFormat.Mmss | index.js:70-77 | no contract of its own; specified by `MmssIsClock`, `MmssFields`, `MmssDiscardsHours` and `MmssInjectiveWithinHour` |
| TimeFormat.Mmssss | index.js:79-87 | no contract of its own; specified by `MmssssIsClock`, `MmssssFields`, `MmssssExtendsMmss` and `MmssssRepeatsEveryHundredMinutes` |
| TimeFormat.MmssIsClock | index.js:70-77 | `mmss(secs)` is the clock display of minutes `(secs / 60) % 60` and seconds `secs % 60` |
| TimeFormat.MmssShape | index.js:70-77 | `mmss(secs)` has length 5, `':'` at index 2 and digits elsewhere |
| TimeFormat.MmssFields | index.js:70-77 | parsing `mmss(secs)` gives the fields `[(secs / 60) % 60, secs % 60]` |
| TimeFormat.MmssDiscardsHours | index.js:70-77 | adding whole hours does not change `mmss` |
| TimeFormat.MmssInjectiveWithinHour | index.js:70-77 | below 3600 seconds, equal displays mean equal inputs |
| TimeFormat.MmssExamples | index.js:70-77 | `mmss(0) == "00:00"`, `mmss(65) == "01:05"`, `mmss(3661) == "01:01"` |
| TimeFormat.MmssssIsClock | index.js:79-87 | `mmssss(ms)` is the clock display of minutes `ms / 60000` cut to two digits, seconds `(ms / 1000) % 60` and hundredths `(ms % 1000) / 10`, which lie in 0..99 |
| TimeFormat.MmssssShape | index.js:79-87 | `mmssss(ms)` has length 8 with `':'` at indices 2 and 5 |
| TimeFormat.MmssssFields | index.js:79-87 | parsing `mmssss(ms)` gives its three fields |
| TimeFormat.MmssssExtendsMmss | index.js:70-87 | below one hour, the first five characters of `mmssss(ms)` are `mmss(ms / 1000)` |
| TimeFormat.MmssssRepeatsEveryHundredMinutes | index.js:79-87 | minutes are not folded modulo 60; the display repeats every 100 minutes |
| TimeFormat.MmssssExamples | index.js:79-87 | `mmssss(0) == "00:00:00"`, `mmssss(61234) == "01:01:23"` |
| TimeFormat.OneHourDisplays | index.js:70-87 | at one hour `mmssss` shows `"60:00:00"` while `mmss` shows `"00:00"` |
| Session.ConfiguredUri | index.js:34 | no contract of its own; `FirstRecordingUsesConfiguredUri` states the identifier it yields |
| Session.Init | index.js:33-36 | no contract of its own; specified by `InitValid` and `FirstRecordingUsesConfiguredUri` |
| Session.SetNativeRecordBackListener | index.js:38-43 | no contract of its own; its effect is part of `StartRecorderGuard` |
| Session.UnsetNativeRecordBackListener | index.js:45-50 | no contract of its own; its effect is part of `StopRecorderGuard` |
| Session.SetNativePlayBackListener | index.js:52-61 | no contract of its own; its effect is part of `StartAndResumePlayerGuard` |
| Session.UnsetNativePlayBackListener | index.js:63-68 | no contract of its own; its effect is part of `StopAndPausePlayerGuard` |
| Session.StartRecorderStep | index.js:145-152 | no contract of its own; specified by `StartRecorderGuard` and `StartRecorderPreservesValid` |
| Session.StopRecorderStep | index.js:158-165 | no contract of its own; specified by `StopRecorderGuard` and `StopRecorderPreservesValid` |
| Session.ResumePlayerStep | index.js:171-178 | no contract of its own; specified by `StartAndResumePlayerGuard` and `ResumePlayerPreservesValid` |
| Session.StartPlayerStep | index.js:185-192 | no contract of its own; specified by `StartAndResumePlayerGuard` and `StartPlayerPreservesValid` |
| Session.StopPlayerStep | index.js:198-207 | no contract of its own; specified by `StopAndPausePlayerGuard` and `StopPlayerPreservesValid` |
| Session.PausePlayerStep | index.js:213-220 | no contract of its own; specified by `StopAndPausePlayerGuard` and `PausePlayerPreservesValid` |
| Session.SeekToPlayerStep | index.js:227-232 | no contract of its own; specified by `ForwardCommandPreservesValid` and by `Recorder.AudioRecorderPlayer.SeekToPlayer` |
| Session.SetVolumeStep | index.js:239-244 | no contract of its own; specified by `SetVolumeGuard` |
| Session.SetSubscriptionDurationStep | index.js:251-253 | no contract of its own; specified by `ForwardCommandPreservesValid` and by `Recorder.AudioRecorderPlayer.SetSubscriptionDuration` |
| Session.RecordProgressStep | index.js:39-42 | no contract of its own; specified by `RecordProgressRelay` and `RecordProgressPreservesValid` |
| Session.PlaybackProgressStep | index.js:53-60 | no contract of its own; specified by `StalePlaybackDropped`, `PlaybackProgressRelay` and `PlaybackEndDetected` |
| Session.Apply | index.js:38-253 | no contract of its own; specified by `ApplyPreservesValid` and the guard and relay lemmas |
| Session.Run | index.js:145-253 | no contract of its own; specified by `RunPreservesValid`, `RepeatedCommandActsOnce`, `RecorderCommandsLastWins` and `PlaybackEventsIgnoredWhenStopped` |
| Session.InitValid | index.js:33-36 | the constructed state is not recording, not playing, has no native subscriptions, and satisfies the invariant |
| Session.StartRecorderPreservesValid | index.js:145-152 | `startRecorder` keeps the invariant |
| Session.StopRecorderPreservesValid | index.js:158-165 | `stopRecorder` keeps the invariant |
| Session.ResumePlayerPreservesValid | index.js:171-178 | `resumePlayer` keeps the invariant |
| Session.StartPlayerPreservesValid | index.js:185-192 | `startPlayer` keeps the invariant |
| Session.StopPlayerPreservesValid | index.js:198-207 | `stopPlayer` keeps the invariant |
| Session.PausePlayerPreservesValid | index.js:213-220 | `pausePlayer` keeps the invariant |
| Session.EmitPreservesReplay | index.js:38-61 | emitting to the application opens or closes nothing natively |
| Session.ForwardPreservesValid | index.js:227-253 | logging a seek, volume or subscription-duration call opens or closes nothing natively, so the invariant holds |
| Session.RecordProgressPreservesValid | index.js:38-42 | relaying a record event keeps the invariant |
| Session.PlaybackProgressPreservesValid | index.js:52-61 | relaying a playback event keeps the invariant, including the automatic stop at the end of the track |
| Session.CommandPreservesValid | index.js:145-220 | each of the six guarded commands keeps the invariant |
| Session.ForwardCommandPreservesValid | index.js:227-253 | `seekToPlayer`, `setVolume` (in range or not) and `setSubscriptionDuration` keep the invariant |
| Session.RelayPreservesValid | index.js:38-61 | both native relays keep the invariant |
| Session.ApplyPreservesValid | index.js:38-253 | every command and every relayed native event keeps the invariant: subscription present iff flag set, and no redundant native start, stop, subscribe or unsubscribe |
| Session.RunPreservesValid | index.js:145-253 | the invariant holds after any sequence of commands and events |
| Session.StartRecorderGuard | index.js:145-152 | when not recording, `startRecorder` sets the flag, installs exactly one record subscription and issues exactly one native start with the configured identifier; when recording it changes nothing |
| Session.StopRecorderGuard | index.js:158-165 | when recording, `stopRecorder` clears the flag, removes the subscription and issues one native stop; otherwise it changes nothing |
| Session.StartAndResumePlayerGuard | index.js:171-192 | `startPlayer` and `resumePlayer` act only when not playing, differing only in the native call (`startPlayer(uri)` or `resumePlayer()`) |
| Session.StopAndPausePlayerGuard | index.js:198-220 | `stopPlayer` and `pausePlayer` act only when playing and both issue a native stop; only `stopPlayer` rewinds the position to 0 and emits one `playback-end`, after the native unsubscribe and before the native stop |
| Session.GuardedCommandIdempotent | index.js:145-220 | each guarded command given twice has the effect of giving it once |
| Session.StartAndResumeExclusive | index.js:171-192 | after one of `startPlayer`/`resumePlayer` the other is a no-op |
| Session.RepeatedCommandActsOnce | index.js:145-220 | a run of the same guarded command, however long, acts like its first call |
| Session.RecorderCommandsLastWins | index.js:145-165 | after any sequence of `startRecorder`/`stopRecorder` calls, the facade records exactly when the last call was a start |
| Session.FirstRecordingUsesConfiguredUri | index.js:33-35 | the first recording uses the constructor's identifier, or `"DEFAULT"` when it was absent or empty |
| Session.RecorderLeavesPlayerAlone | index.js:145-165 | recorder commands and record events change no player state |
| Session.SetVolumeGuard | index.js:239-244 | a volume outside [0, 1] changes nothing; one inside it issues exactly one native `setVolume` |
| Session.RecordProgressRelay | index.js:38-43 | a native record event is re-emitted verbatim as `recordback` while recording and dropped without effect otherwise |
| Session.StalePlaybackDropped | index.js:52-54 | while not playing, a native playback event changes nothing and emits nothing |
| Session.PlaybackProgressRelay | index.js:52-58 | while playing, an event short of the end stores position and duration and emits `playback` with the raw payload |
| Session.PlaybackEndDetected | index.js:52-61 | an event with position equal to duration emits `playback`, unsubscribes natively, emits exactly one `playback-end` and then stops the player natively, in that order; every later playback event is dropped |
| Session.StopPlayerWithRestartingListener | index.js:198-205 | no contract of its own; `stopPlayer` when a `playback-end` listener calls `startPlayer` synchronously from inside the emission |
| Session.ReentrantRestartBreaksValid | index.js:198-205 | such a restart sends a native start to a player that has not been stopped yet and is then stopped: the facade is left playing, the native replay of the player is inconsistent, and the invariant fails |
| Session.LatePlaybackAfterStopDropped | index.js:198-220 | after `stopPlayer` or `pausePlayer`, a late playback event has no effect |
| Session.PlaybackEventsIgnoredWhenStopped | index.js:52-54 | once not playing, no sequence of playback events has any effect |
| Recorder.AudioRecorderPlayer.IsRecording | index.js:259-261 | no contract of its own; the `isRecording` getter returns the field |
| Recorder.AudioRecorderPlayer.IsPlaying | index.js:255-257 | no contract of its own; the `isPlaying` getter returns the field |
| Recorder.AudioRecorderPlayer.constructor | index.js:33-36 | the new object is in the initial state with the configured identifier and satisfies the invariant |
| Recorder.AudioRecorderPlayer.SetNativeRecordBackListener | index.js:38-43 | installs the record subscription and logs the native subscribe |
| Recorder.AudioRecorderPlayer.UnsetNativeRecordBackListener | index.js:45-50 | removes the record subscription, if any, and logs the native unsubscribe |
| Recorder.AudioRecorderPlayer.SetNativePlayBackListener | index.js:52-61 | installs the playback subscription and logs the native subscribe |
| Recorder.AudioRecorderPlayer.UnsetNativePlayBackListener | index.js:63-68 | removes the playback subscription, if any, and logs the native unsubscribe |
| Recorder.AudioRecorderPlayer.StartRecorder | index.js:145-152 | updates the fields and logs exactly as `startRecorder` does, and keeps the invariant |
| Recorder.AudioRecorderPlayer.StopRecorder | index.js:158-165 | updates the fields and logs exactly as `stopRecorder` does, and keeps the invariant |
| Recorder.AudioRecorderPlayer.ResumePlayer | index.js:171-178 | updates the fields and logs exactly as `resumePlayer` does, and keeps the invariant |
| Recorder.AudioRecorderPlayer.StartPlayer | index.js:185-192 | updates the fields and logs exactly as `startPlayer` does, and keeps the invariant |
| Recorder.AudioRecorderPlayer.StopPlayer | index.js:198-207 | updates the fields and logs exactly as `stopPlayer` does, and keeps the invariant |
| Recorder.AudioRecorderPlayer.PausePlayer | index.js:213-220 | updates the fields and logs exactly as `pausePlayer` does, and keeps the invariant |
| Recorder.AudioRecorderPlayer.SeekToPlayer | index.js:227-232 | forwards the seek unconditionally, in seconds on iOS and milliseconds elsewhere |
| Recorder.AudioRecorderPlayer.SetVolume | index.js:239-244 | forwards the volume only when it lies in [0, 1] |
| Recorder.AudioRecorderPlayer.SetSubscriptionDuration | index.js:251-253 | forwards the subscription duration unconditionally |
| Recorder.AudioRecorderPlayer.OnNativeRecord | index.js:39-42 | the record relay: re-emits the event only while subscribed and recording |
| Recorder.AudioRecorderPlayer.OnNativePlayback | index.js:53-60 | the playback relay: drops the event unless playing; otherwise stores, emits `playback` and stops at the end |

## Left out

- Session.StopAndPausePlayerGuard, Session.ApplyPreservesValid: listener callbacks of the application are inert in the model. Emitting appends to the trace and runs no code. The emitter runs listeners synchronously inside `emit`, so a `playback-end` or `playback` listener that calls back into the facade interleaves its commands with the step that emitted. `ReentrantRestartBreaksValid` shows one case: restarting from a `playback-end` listener breaks the invariant. All other invariant and guard lemmas assume that listeners do not call the facade.
- Session.Init, Recorder.AudioRecorderPlayer.IsRecording, Recorder.AudioRecorderPlayer.IsPlaying: `_isRecording` and `_isPlaying` are declared without an initializer (index.js:27-28). Until the first command sets them, the `isRecording` and `isPlaying` getters return `undefined`. The model starts both flags at `false`. Every guard in the source treats `undefined` as `false`, so only the getters' values differ.
- TimeFormat.Pad, TimeFormat.DecimalString, TimeFormat.Mmss, TimeFormat.Mmssss: JavaScript numbers are doubles. The model matches JavaScript only for safe integers below 2^53. Larger values lose precision in JavaScript, and from 10^21 on, string concatenation uses exponent notation, so `pad(1e21)` is `"21"` while `Pad(10^21)` is `"00"`.
- The native module `RNAudioRecorderPlayer` is a foreign call. Its status strings, promise results and failures are not modelled. Each call is only appended to the trace.
- The choice between `DeviceEventEmitter` and `NativeEventEmitter` per platform (index.js:16-19) is platform plumbing. Installing and removing a native listener is a trace entry named by its event stream.
- The local listener registry built on `fbemitter` (index.js:93-138) is not modelled: `addRecordBackListener`, `addPlayBackListener`, `addPlayBackEndListener`, their unsubscribe functions and the three `remove*Listener` operations. It is a library whose code is not part of this model. Emitting to it is an append to the trace, so the property that an unsubscribed callback receives nothing afterwards is not stated.
- `async`/`await` and the interleaving of a command's resolution with late native events are not modelled. Each command's synchronous part is one atomic step. A late event is a separate `PlaybackProgress` or `RecordProgress` action that may come at any point of a run.
- Positions and durations are natural numbers. `parseFloat` of string-encoded payloads is not modelled, and neither is the raw `===` comparison between a string and a number (index.js:55-59). Stored and raw values therefore coincide.
- `seekToPlayer`'s division by 1000 on iOS (index.js:229) is exact real division. Floating-point rounding is not modelled.
- Volumes are reals. A NaN volume passes both range tests in JavaScript and is forwarded; the model has no NaN.
- The constructor option is absent, empty or a string. Other falsy JavaScript values (`null`, `0`, `false`) behave like an absent option in the source and are not modelled.
- `console.log` and `console.warn` (index.js:84-85, 151, 164, 177, 191, 206, 219, 241) are output only and are not modelled.
- `mmss` and `mmssss` are modelled on natural numbers only. Their behaviour on negative or fractional inputs is not defined by the module.
- Several facade instances share one native event stream. The model describes a single instance.
