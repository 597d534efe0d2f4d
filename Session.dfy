/**
 * The session state machine of class `AudioRecorderPlayer` in index.js, as
 * pure functions over a state value. Each step function is the synchronous
 * part of one command or of one native event callback; the class in
 * Recorder.dfy is proved to update its fields exactly as these functions say.
 *
 * The native audio module and the native event emitter are outside the model.
 * The ghost log `trace` records, in order, every call made across that
 * boundary (a command, or the installation or removal of a native event
 * listener) and every event emitted to the application's listeners.
 */
module Session {
  import opened Wrappers

  /** The resource identifier used when the constructor is given none. */
  const DefaultUri: string := "DEFAULT"
  /** Name of the native record-progress event stream. */
  const RecordChannel: string := "rn-recordback"
  /** Name of the native playback-progress event stream. */
  const PlayChannel: string := "rn-playback"

  /** The payload of a native record-progress event; it is passed on unexamined. */
  type RecordPayload = string

  datatype Platform = Android | Ios | OtherPlatform

  /** A call made across the native boundary. */
  datatype NativeCall =
    | AddListener(channel: string)
    | RemoveListener(channel: string)
    | NativeStartRecorder(uri: string)
    | NativeStopRecorder
    | NativeStartPlayer(uri: string)
    | NativeResumePlayer
    | NativeStopPlayer
    | NativeSeekToPlayer(time: real)
    | NativeSetVolume(level: real)
    | NativeSetSubscriptionDuration(sec: real)

  /** An event emitted to the application on the local channels `recordback`, `playback`, `playback-end`. */
  datatype Emission =
    | RecordBack(payload: RecordPayload)
    | PlayBack(currentPosition: nat, duration: nat)
    | PlayBackEnd

  /** One entry of the trace: a call across the native boundary, or an emission to the application. */
  datatype Event = Native(call: NativeCall) | Local(emission: Emission)

  /** A native listener subscription, known by the event stream it listens to. */
  datatype Subscription = Subscription(channel: string)

  datatype State = State(
    uri: string,
    isRecording: bool,
    isPlaying: bool,
    currentPosition: Option<nat>,
    duration: Option<nat>,
    recorderSubscription: Option<Subscription>,
    playerSubscription: Option<Subscription>,
    trace: seq<Event>)

  /** What can happen to the facade: a public command, or a native event delivered to an installed listener. */
  datatype Action =
    | StartRecorder
    | StopRecorder
    | StartPlayer
    | ResumePlayer
    | PausePlayer
    | StopPlayer
    | SeekToPlayer(time: real, platform: Platform)
    | SetVolume(volume: real)
    | SetSubscriptionDuration(sec: real)
    | RecordProgress(payload: RecordPayload)
    | PlaybackProgress(currentPosition: nat, duration: nat)

  /** `uri || 'DEFAULT'`: an absent or empty option falls back to the default identifier. */
  function ConfiguredUri(option: Option<string>): string
  {
    if option.Some? && option.value != "" then option.value else DefaultUri
  }

  /** The state right after construction: nothing recording or playing, nothing subscribed, position and duration undefined. */
  function Init(option: Option<string>): State
  {
    State(ConfiguredUri(option), false, false, None, None, None, None, [])
  }

  function Issue(s: State, call: NativeCall): State
  {
    s.(trace := s.trace + [Native(call)])
  }

  function Emit(s: State, e: Emission): State
  {
    s.(trace := s.trace + [Local(e)])
  }

  /** `_setNativeRecordBackListener`: subscribe to the native record stream. */
  function SetNativeRecordBackListener(s: State): State
  {
    Issue(s, AddListener(RecordChannel)).(recorderSubscription := Some(Subscription(RecordChannel)))
  }

  /** `_unsetNativeRecordBackListener`: remove the record subscription, if there is one. */
  function UnsetNativeRecordBackListener(s: State): State
  {
    if s.recorderSubscription.Some? then
      Issue(s, RemoveListener(s.recorderSubscription.value.channel)).(recorderSubscription := None)
    else s
  }

  /** `_setNativePlayBackListener`: subscribe to the native playback stream. */
  function SetNativePlayBackListener(s: State): State
  {
    Issue(s, AddListener(PlayChannel)).(playerSubscription := Some(Subscription(PlayChannel)))
  }

  /** `_unsetNativePlayBackListener`: remove the playback subscription, if there is one. */
  function UnsetNativePlayBackListener(s: State): State
  {
    if s.playerSubscription.Some? then
      Issue(s, RemoveListener(s.playerSubscription.value.channel)).(playerSubscription := None)
    else s
  }

  function StartRecorderStep(s: State): State
  {
    if !s.isRecording then
      Issue(SetNativeRecordBackListener(s.(isRecording := true)), NativeStartRecorder(s.uri))
    else s
  }

  function StopRecorderStep(s: State): State
  {
    if s.isRecording then
      Issue(UnsetNativeRecordBackListener(s.(isRecording := false)), NativeStopRecorder)
    else s
  }

  function ResumePlayerStep(s: State): State
  {
    if !s.isPlaying then
      Issue(SetNativePlayBackListener(s.(isPlaying := true)), NativeResumePlayer)
    else s
  }

  function StartPlayerStep(s: State): State
  {
    if !s.isPlaying then
      Issue(SetNativePlayBackListener(s.(isPlaying := true)), NativeStartPlayer(s.uri))
    else s
  }

  function StopPlayerStep(s: State): State
  {
    if s.isPlaying then
      var t := UnsetNativePlayBackListener(s.(currentPosition := Some(0), isPlaying := false));
      Issue(Emit(t, PlayBackEnd), NativeStopPlayer)
    else s
  }

  /** Pausing is a native stop that keeps the position and tells no listener. */
  function PausePlayerStep(s: State): State
  {
    if s.isPlaying then
      Issue(UnsetNativePlayBackListener(s.(isPlaying := false)), NativeStopPlayer)
    else s
  }

  /** Callers pass milliseconds; on iOS the native call takes seconds. */
  function SeekToPlayerStep(s: State, time: real, platform: Platform): State
  {
    Issue(s, NativeSeekToPlayer(if platform == Ios then time / 1000.0 else time))
  }

  function SetVolumeStep(s: State, volume: real): State
  {
    if volume < 0.0 || volume > 1.0 then s else Issue(s, NativeSetVolume(volume))
  }

  function SetSubscriptionDurationStep(s: State, sec: real): State
  {
    Issue(s, NativeSetSubscriptionDuration(sec))
  }

  /**
   * A native record event reaches the facade only through an installed
   * subscription; the relay then drops it unless recording.
   */
  function RecordProgressStep(s: State, payload: RecordPayload): State
  {
    if s.recorderSubscription.None? || !s.isRecording then s
    else Emit(s, RecordBack(payload))
  }

  /**
   * The playback relay: unless playing, drop the event; otherwise store the
   * position and duration, emit `playback`, and stop the player when the
   * position has reached the duration.
   */
  function PlaybackProgressStep(s: State, currentPosition: nat, duration: nat): State
  {
    if s.playerSubscription.None? || !s.isPlaying then s
    else
      var t := Emit(s.(currentPosition := Some(currentPosition), duration := Some(duration)),
                    PlayBack(currentPosition, duration));
      if currentPosition == duration then StopPlayerStep(t) else t
  }

  function Apply(s: State, a: Action): State
  {
    match a
    case StartRecorder => StartRecorderStep(s)
    case StopRecorder => StopRecorderStep(s)
    case StartPlayer => StartPlayerStep(s)
    case ResumePlayer => ResumePlayerStep(s)
    case PausePlayer => PausePlayerStep(s)
    case StopPlayer => StopPlayerStep(s)
    case SeekToPlayer(time, platform) => SeekToPlayerStep(s, time, platform)
    case SetVolume(volume) => SetVolumeStep(s, volume)
    case SetSubscriptionDuration(sec) => SetSubscriptionDurationStep(s, sec)
    case RecordProgress(payload) => RecordProgressStep(s, payload)
    case PlaybackProgress(pos, dur) => PlaybackProgressStep(s, pos, dur)
  }

  function Run(s: State, actions: seq<Action>): State
    decreases |actions|
  {
    if actions == [] then s else Run(Apply(s, actions[0]), actions[1..])
  }

  // ---------------------------------------------------------------------
  // Replaying the trace

  /** The four things the facade opens and closes across the native boundary. */
  datatype Topic = RecordSession | PlaySession | RecordListener | PlayListener

  datatype Mark = Open | Close | Unrelated

  /** How a native call bears on a topic; emissions bear on none. */
  function MarkOf(e: Event, t: Topic): Mark
  {
    if e.Local? then Unrelated else
    var call := e.call;
    match t
    case RecordSession =>
      if call.NativeStartRecorder? then Open else if call.NativeStopRecorder? then Close else Unrelated
    case PlaySession =>
      if call.NativeStartPlayer? || call.NativeResumePlayer? then Open
      else if call.NativeStopPlayer? then Close else Unrelated
    case RecordListener =>
      if call == AddListener(RecordChannel) then Open
      else if call == RemoveListener(RecordChannel) then Close else Unrelated
    case PlayListener =>
      if call == AddListener(PlayChannel) then Open
      else if call == RemoveListener(PlayChannel) then Close else Unrelated
  }

  /** One step of the replay: None once something was opened twice or closed while closed. */
  function Next(open: Option<bool>, m: Mark): Option<bool>
  {
    match open
    case None => None
    case Some(o) =>
      match m
      case Open => if o then None else Some(true)
      case Close => if o then Some(false) else None
      case Unrelated => open
  }

  /**
   * Replays a trace for one topic from the closed state: Some(open) when
   * opens and closes alternate, with `open` telling whether the last was an open.
   */
  function Replay(log: seq<Event>, t: Topic): Option<bool>
    decreases |log|
  {
    if log == [] then Some(false) else Next(Replay(log[..|log| - 1], t), MarkOf(log[|log| - 1], t))
  }

  /** The facade's own record of whether a topic is open. */
  function Active(s: State, t: Topic): bool
  {
    match t
    case RecordSession => s.isRecording
    case PlaySession => s.isPlaying
    case RecordListener => s.recorderSubscription.Some?
    case PlayListener => s.playerSubscription.Some?
  }

  /**
   * The invariant kept by every command: a native subscription is held exactly
   * while the matching flag is set, and on each topic the native side never saw
   * a second open or an unmatched close and agrees with the facade's flags.
   */
  predicate Valid(s: State)
  {
    && (s.recorderSubscription.Some? <==> s.isRecording)
    && (s.playerSubscription.Some? <==> s.isPlaying)
    && (s.recorderSubscription.Some? ==> s.recorderSubscription.value == Subscription(RecordChannel))
    && (s.playerSubscription.Some? ==> s.playerSubscription.value == Subscription(PlayChannel))
    && Replay(s.trace, RecordSession) == Some(Active(s, RecordSession))
    && Replay(s.trace, PlaySession) == Some(Active(s, PlaySession))
    && Replay(s.trace, RecordListener) == Some(Active(s, RecordListener))
    && Replay(s.trace, PlayListener) == Some(Active(s, PlayListener))
  }

  /** Appending one event to a trace advances the replay of a topic by one step. */
  lemma ReplaySnocAt(log: seq<Event>, e: Event, t: Topic)
    ensures Replay(log + [e], t) == Next(Replay(log, t), MarkOf(e, t))
  {
    assert (log + [e])[..|log|] == log;
  }

  /** `ReplaySnocAt` for every topic at once. */
  lemma ReplaySnoc(log: seq<Event>, e: Event)
    ensures forall t :: Replay(log + [e], t) == Next(Replay(log, t), MarkOf(e, t))
  {
    forall t: Topic
      ensures Replay(log + [e], t) == Next(Replay(log, t), MarkOf(e, t))
    {
      ReplaySnocAt(log, e, t);
    }
  }

  lemma InitValid(option: Option<string>)
    ensures Valid(Init(option))
    ensures !Init(option).isRecording && !Init(option).isPlaying
    ensures Init(option).recorderSubscription.None? && Init(option).playerSubscription.None?
  {
  }

  lemma StartRecorderPreservesValid(s: State)
    requires Valid(s)
    ensures Valid(StartRecorderStep(s))
  {
    if !s.isRecording {
      var t := SetNativeRecordBackListener(s.(isRecording := true));
      ReplaySnoc(s.trace, Native(AddListener(RecordChannel)));
      ReplaySnoc(t.trace, Native(NativeStartRecorder(s.uri)));
    }
  }

  lemma StopRecorderPreservesValid(s: State)
    requires Valid(s)
    ensures Valid(StopRecorderStep(s))
  {
    if s.isRecording {
      var t := UnsetNativeRecordBackListener(s.(isRecording := false));
      ReplaySnoc(s.trace, Native(RemoveListener(RecordChannel)));
      ReplaySnoc(t.trace, Native(NativeStopRecorder));
    }
  }

  lemma StartPlayerPreservesValid(s: State)
    requires Valid(s)
    ensures Valid(StartPlayerStep(s))
  {
    if !s.isPlaying {
      var t := SetNativePlayBackListener(s.(isPlaying := true));
      ReplaySnoc(s.trace, Native(AddListener(PlayChannel)));
      ReplaySnoc(t.trace, Native(NativeStartPlayer(s.uri)));
    }
  }

  lemma ResumePlayerPreservesValid(s: State)
    requires Valid(s)
    ensures Valid(ResumePlayerStep(s))
  {
    if !s.isPlaying {
      var t := SetNativePlayBackListener(s.(isPlaying := true));
      ReplaySnoc(s.trace, Native(AddListener(PlayChannel)));
      ReplaySnoc(t.trace, Native(NativeResumePlayer));
    }
  }

  lemma StopPlayerPreservesValid(s: State)
    requires Valid(s)
    ensures Valid(StopPlayerStep(s))
  {
    if s.isPlaying {
      var t := UnsetNativePlayBackListener(s.(currentPosition := Some(0), isPlaying := false));
      ReplaySnoc(s.trace, Native(RemoveListener(PlayChannel)));
      EmitPreservesReplay(t, PlayBackEnd);
      ReplaySnoc(Emit(t, PlayBackEnd).trace, Native(NativeStopPlayer));
    }
  }

  lemma PausePlayerPreservesValid(s: State)
    requires Valid(s)
    ensures Valid(PausePlayerStep(s))
  {
    if s.isPlaying {
      var t := UnsetNativePlayBackListener(s.(isPlaying := false));
      ReplaySnoc(s.trace, Native(RemoveListener(PlayChannel)));
      ReplaySnoc(t.trace, Native(NativeStopPlayer));
    }
  }

  /** An emission opens or closes nothing natively. */
  lemma EmitPreservesReplay(s: State, e: Emission)
    ensures forall t :: Replay(Emit(s, e).trace, t) == Replay(s.trace, t)
  {
    ReplaySnoc(s.trace, Local(e));
  }

  /** A forwarded command opens or closes nothing natively, so logging it keeps the invariant. */
  lemma ForwardPreservesValid(s: State, call: NativeCall)
    requires Valid(s)
    requires call.NativeSeekToPlayer? || call.NativeSetVolume? || call.NativeSetSubscriptionDuration?
    ensures Valid(Issue(s, call))
  {
    ReplaySnoc(s.trace, Native(call));
    assert MarkOf(Native(call), RecordSession) == Unrelated;
    assert MarkOf(Native(call), PlaySession) == Unrelated;
    assert MarkOf(Native(call), RecordListener) == Unrelated;
    assert MarkOf(Native(call), PlayListener) == Unrelated;
  }

  /** Relaying a record event only appends an emission. */
  lemma RecordProgressPreservesValid(s: State, payload: RecordPayload)
    requires Valid(s)
    ensures Valid(RecordProgressStep(s, payload))
  {
    if s.recorderSubscription.Some? && s.isRecording {
      EmitPreservesReplay(s, RecordBack(payload));
    }
  }

  /** A relayed playback event only touches the position, duration and emissions, unless it ends playback. */
  lemma PlaybackProgressPreservesValid(s: State, pos: nat, dur: nat)
    requires Valid(s)
    ensures Valid(PlaybackProgressStep(s, pos, dur))
  {
    if s.playerSubscription.Some? && s.isPlaying {
      var t := Emit(s.(currentPosition := Some(pos), duration := Some(dur)), PlayBack(pos, dur));
      EmitPreservesReplay(s.(currentPosition := Some(pos), duration := Some(dur)), PlayBack(pos, dur));
      assert Valid(t);
      if pos == dur {
        StopPlayerPreservesValid(t);
      }
    }
  }

  /** The six guarded commands keep the invariant. */
  lemma CommandPreservesValid(s: State, a: Action)
    requires Valid(s)
    requires a.StartRecorder? || a.StopRecorder? || a.StartPlayer? || a.ResumePlayer? || a.PausePlayer? || a.StopPlayer?
    ensures Valid(Apply(s, a))
  {
    if a.StartRecorder? {
      StartRecorderPreservesValid(s);
    } else if a.StopRecorder? {
      StopRecorderPreservesValid(s);
    } else if a.StartPlayer? {
      StartPlayerPreservesValid(s);
    } else if a.ResumePlayer? {
      ResumePlayerPreservesValid(s);
    } else if a.PausePlayer? {
      PausePlayerPreservesValid(s);
    } else {
      StopPlayerPreservesValid(s);
    }
  }

  /** Commands passed straight through to the native module keep the invariant. */
  lemma ForwardCommandPreservesValid(s: State, a: Action)
    requires Valid(s)
    requires a.SeekToPlayer? || a.SetVolume? || a.SetSubscriptionDuration?
    ensures Valid(Apply(s, a))
  {
    if a.SeekToPlayer? {
      var call := NativeSeekToPlayer(if a.platform == Ios then a.time / 1000.0 else a.time);
      assert Apply(s, a) == Issue(s, call);
      ForwardPreservesValid(s, call);
    } else if a.SetVolume? {
      if a.volume < 0.0 || a.volume > 1.0 {
        assert Apply(s, a) == s;
      } else {
        assert Apply(s, a) == Issue(s, NativeSetVolume(a.volume));
        ForwardPreservesValid(s, NativeSetVolume(a.volume));
      }
    } else {
      assert Apply(s, a) == Issue(s, NativeSetSubscriptionDuration(a.sec));
      ForwardPreservesValid(s, NativeSetSubscriptionDuration(a.sec));
    }
  }

  /** Relaying a native event keeps the invariant. */
  lemma RelayPreservesValid(s: State, a: Action)
    requires Valid(s)
    requires a.RecordProgress? || a.PlaybackProgress?
    ensures Valid(Apply(s, a))
  {
    if a.PlaybackProgress? {
      PlaybackProgressPreservesValid(s, a.currentPosition, a.duration);
    } else {
      RecordProgressPreservesValid(s, a.payload);
    }
  }

  lemma ApplyPreservesValid(s: State, a: Action)
    requires Valid(s)
    ensures Valid(Apply(s, a))
  {
    if a.StartRecorder? || a.StopRecorder? || a.StartPlayer? || a.ResumePlayer? || a.PausePlayer? || a.StopPlayer? {
      CommandPreservesValid(s, a);
    } else if a.SeekToPlayer? || a.SetVolume? || a.SetSubscriptionDuration? {
      ForwardCommandPreservesValid(s, a);
    } else {
      RelayPreservesValid(s, a);
    }
  }

  lemma {:induction false} RunPreservesValid(s: State, actions: seq<Action>)
    requires Valid(s)
    ensures Valid(Run(s, actions))
    decreases |actions|
  {
    if actions != [] {
      ApplyPreservesValid(s, actions[0]);
      RunPreservesValid(Apply(s, actions[0]), actions[1..]);
    }
  }

  // ---------------------------------------------------------------------
  // Guarded commands

  /** `startRecorder` acts only when not recording: one subscription, one native start with the configured identifier. */
  lemma StartRecorderGuard(s: State)
    ensures s.isRecording ==> Apply(s, StartRecorder) == s
    ensures !s.isRecording ==> (Apply(s, StartRecorder) ==
      s.(isRecording := true, recorderSubscription := Some(Subscription(RecordChannel)),
         trace := s.trace + [Native(AddListener(RecordChannel)), Native(NativeStartRecorder(s.uri))]))
  {
    assert s.trace + [Native(AddListener(RecordChannel))] + [Native(NativeStartRecorder(s.uri))]
        == s.trace + [Native(AddListener(RecordChannel)), Native(NativeStartRecorder(s.uri))];
  }

  /** `stopRecorder` acts only when recording: the subscription goes, one native stop is issued. */
  lemma StopRecorderGuard(s: State)
    requires Valid(s)
    ensures !s.isRecording ==> Apply(s, StopRecorder) == s
    ensures s.isRecording ==> (Apply(s, StopRecorder) ==
      s.(isRecording := false, recorderSubscription := None,
         trace := s.trace + [Native(RemoveListener(RecordChannel)), Native(NativeStopRecorder)]))
  {
    assert s.trace + [Native(RemoveListener(RecordChannel))] + [Native(NativeStopRecorder)]
        == s.trace + [Native(RemoveListener(RecordChannel)), Native(NativeStopRecorder)];
  }

  /** `startPlayer` and `resumePlayer` act only when not playing and differ only in the native call. */
  lemma StartAndResumePlayerGuard(s: State)
    ensures s.isPlaying ==> Apply(s, StartPlayer) == s && Apply(s, ResumePlayer) == s
    ensures !s.isPlaying ==> (Apply(s, StartPlayer) ==
      s.(isPlaying := true, playerSubscription := Some(Subscription(PlayChannel)),
         trace := s.trace + [Native(AddListener(PlayChannel)), Native(NativeStartPlayer(s.uri))]))
    ensures !s.isPlaying ==> (Apply(s, ResumePlayer) ==
      s.(isPlaying := true, playerSubscription := Some(Subscription(PlayChannel)),
         trace := s.trace + [Native(AddListener(PlayChannel)), Native(NativeResumePlayer)]))
  {
    assert s.trace + [Native(AddListener(PlayChannel))] + [Native(NativeStartPlayer(s.uri))]
        == s.trace + [Native(AddListener(PlayChannel)), Native(NativeStartPlayer(s.uri))];
    assert s.trace + [Native(AddListener(PlayChannel))] + [Native(NativeResumePlayer)]
        == s.trace + [Native(AddListener(PlayChannel)), Native(NativeResumePlayer)];
  }

  /**
   * `stopPlayer` and `pausePlayer` act only when playing. Both clear the flag,
   * drop the subscription and issue one native stop; only `stopPlayer` rewinds
   * the position and emits one `playback-end`, after the native unsubscribe and
   * before the native stop.
   */
  lemma StopAndPausePlayerGuard(s: State)
    requires Valid(s)
    ensures !s.isPlaying ==> Apply(s, StopPlayer) == s && Apply(s, PausePlayer) == s
    ensures s.isPlaying ==> (Apply(s, StopPlayer) ==
      s.(isPlaying := false, playerSubscription := None, currentPosition := Some(0),
         trace := s.trace + [Native(RemoveListener(PlayChannel)), Local(PlayBackEnd), Native(NativeStopPlayer)]))
    ensures s.isPlaying ==> (Apply(s, PausePlayer) ==
      s.(isPlaying := false, playerSubscription := None,
         trace := s.trace + [Native(RemoveListener(PlayChannel)), Native(NativeStopPlayer)]))
  {
    assert s.trace + [Native(RemoveListener(PlayChannel))] + [Local(PlayBackEnd)] + [Native(NativeStopPlayer)]
        == s.trace + [Native(RemoveListener(PlayChannel)), Local(PlayBackEnd), Native(NativeStopPlayer)];
    assert s.trace + [Native(RemoveListener(PlayChannel))] + [Native(NativeStopPlayer)]
        == s.trace + [Native(RemoveListener(PlayChannel)), Native(NativeStopPlayer)];
  }

  /** A guarded command given twice in a row has the effect of giving it once. */
  lemma GuardedCommandIdempotent(s: State, a: Action)
    requires a in {StartRecorder, StopRecorder, StartPlayer, ResumePlayer, PausePlayer, StopPlayer}
    ensures Apply(Apply(s, a), a) == Apply(s, a)
  {
  }

  /** Once playing, whichever of `startPlayer` and `resumePlayer` comes second does nothing. */
  lemma StartAndResumeExclusive(s: State)
    ensures Apply(Apply(s, StartPlayer), ResumePlayer) == Apply(s, StartPlayer)
    ensures Apply(Apply(s, ResumePlayer), StartPlayer) == Apply(s, ResumePlayer)
  {
  }

  function Repeat(a: Action, n: nat): (r: seq<Action>)
    ensures |r| == n && forall i :: 0 <= i < n ==> r[i] == a
  {
    seq(n, _ => a)
  }

  /** However many times in a row a guarded command is given, only the first takes effect. */
  lemma {:induction false} RepeatedCommandActsOnce(s: State, a: Action, n: nat)
    requires a in {StartRecorder, StopRecorder, StartPlayer, ResumePlayer, PausePlayer, StopPlayer}
    ensures Run(s, Repeat(a, n + 1)) == Apply(s, a)
    decreases n
  {
    var r := Repeat(a, n + 1);
    assert r[0] == a && r[1..] == Repeat(a, n);
    if n == 0 {
      assert Run(Apply(s, a), []) == Apply(s, a);
    } else {
      RepeatedCommandActsOnce(Apply(s, a), a, n - 1);
      GuardedCommandIdempotent(s, a);
    }
  }

  predicate IsRecorderCommand(a: Action) { a == StartRecorder || a == StopRecorder }

  /** After any non-empty sequence of `startRecorder`/`stopRecorder` calls, the facade records exactly when the last call was a start. */
  lemma {:induction false} RecorderCommandsLastWins(s: State, actions: seq<Action>)
    requires |actions| > 0 && forall i :: 0 <= i < |actions| ==> IsRecorderCommand(actions[i])
    ensures Run(s, actions).isRecording <==> actions[|actions| - 1] == StartRecorder
    decreases |actions|
  {
    if |actions| > 1 {
      var rest := actions[1..];
      assert rest[|rest| - 1] == actions[|actions| - 1];
      assert forall i :: 0 <= i < |rest| ==> IsRecorderCommand(rest[i]) by {
        forall i | 0 <= i < |rest| ensures IsRecorderCommand(rest[i]) {
          assert rest[i] == actions[i + 1];
        }
      }
      RecorderCommandsLastWins(Apply(s, actions[0]), rest);
    }
  }

  /** The first `startRecorder` after construction records to the configured identifier, or to "DEFAULT" when none was given. */
  lemma FirstRecordingUsesConfiguredUri(option: Option<string>)
    ensures Apply(Init(option), StartRecorder).trace ==
      [Native(AddListener(RecordChannel)),
       Native(NativeStartRecorder(if option.Some? && option.value != "" then option.value else "DEFAULT"))]
  {
  }

  /** Recorder commands and record events leave every part of the player state alone. */
  lemma RecorderLeavesPlayerAlone(s: State, a: Action)
    requires a.StartRecorder? || a.StopRecorder? || a.RecordProgress?
    ensures Apply(s, a).isPlaying == s.isPlaying && Apply(s, a).playerSubscription == s.playerSubscription
    ensures Apply(s, a).currentPosition == s.currentPosition && Apply(s, a).duration == s.duration
  {
  }

  /** Volume outside [0, 1] is refused without any effect; inside it, exactly one native call is made. */
  lemma SetVolumeGuard(s: State, volume: real)
    ensures volume < 0.0 || volume > 1.0 ==> Apply(s, SetVolume(volume)) == s
    ensures 0.0 <= volume <= 1.0 ==> Apply(s, SetVolume(volume)) == s.(trace := s.trace + [Native(NativeSetVolume(volume))])
  {
  }

  // ---------------------------------------------------------------------
  // The event relays

  /** A native record event is re-emitted verbatim while recording and dropped, with no effect, otherwise. */
  lemma RecordProgressRelay(s: State, payload: RecordPayload)
    requires Valid(s)
    ensures s.isRecording ==> Apply(s, RecordProgress(payload)) == s.(trace := s.trace + [Local(RecordBack(payload))])
    ensures !s.isRecording ==> Apply(s, RecordProgress(payload)) == s
  {
  }

  /** While not playing, a native playback event changes nothing and emits nothing. */
  lemma StalePlaybackDropped(s: State, pos: nat, dur: nat)
    requires !s.isPlaying
    ensures Apply(s, PlaybackProgress(pos, dur)) == s
  {
  }

  /** While playing, a playback event short of the end is stored and re-emitted, and playing goes on. */
  lemma PlaybackProgressRelay(s: State, pos: nat, dur: nat)
    requires Valid(s) && s.isPlaying && pos != dur
    ensures Apply(s, PlaybackProgress(pos, dur)) ==
      s.(currentPosition := Some(pos), duration := Some(dur), trace := s.trace + [Local(PlayBack(pos, dur))])
  {
  }

  /**
   * An event whose position equals its duration ends playback: the `playback`
   * emission is followed by exactly one `playback-end`, the player is stopped
   * natively, and every later playback event is dropped.
   */
  lemma PlaybackEndDetected(s: State, dur: nat)
    requires Valid(s) && s.isPlaying
    ensures var t := Apply(s, PlaybackProgress(dur, dur));
      && !t.isPlaying && t.playerSubscription.None?
      && t.currentPosition == Some(0) && t.duration == Some(dur)
      && t.trace == s.trace + [Local(PlayBack(dur, dur)), Native(RemoveListener(PlayChannel)),
                               Local(PlayBackEnd), Native(NativeStopPlayer)]
      && forall pos, d :: Apply(t, PlaybackProgress(pos, d)) == t
  {
    assert s.trace + [Local(PlayBack(dur, dur))] + [Native(RemoveListener(PlayChannel))]
                   + [Local(PlayBackEnd)] + [Native(NativeStopPlayer)]
        == s.trace + [Local(PlayBack(dur, dur)), Native(RemoveListener(PlayChannel)),
                      Local(PlayBackEnd), Native(NativeStopPlayer)];
  }

  /**
   * `stopPlayer` when a `playback-end` listener calls `startPlayer` from inside
   * the emission: the application's listeners run synchronously, so the restart
   * happens after the flag was cleared and before the native stop is issued.
   */
  function StopPlayerWithRestartingListener(s: State): State
  {
    if s.isPlaying then
      var t := UnsetNativePlayBackListener(s.(currentPosition := Some(0), isPlaying := false));
      Issue(StartPlayerStep(Emit(t, PlayBackEnd)), NativeStopPlayer)
    else s
  }

  /**
   * Restarting from a `playback-end` listener sends the native start to a
   * player that was never stopped, and then stops it: the facade ends up
   * playing while the native player is stopped, and the invariant is lost.
   */
  lemma ReentrantRestartBreaksValid(s: State)
    requires Valid(s) && s.isPlaying
    ensures var r := StopPlayerWithRestartingListener(s);
      && r.isPlaying
      && r.trace == s.trace + [Native(RemoveListener(PlayChannel)), Local(PlayBackEnd), Native(AddListener(PlayChannel)),
                               Native(NativeStartPlayer(s.uri)), Native(NativeStopPlayer)]
      && Replay(r.trace, PlaySession).None?
      && !Valid(r)
  {
    var t := UnsetNativePlayBackListener(s.(currentPosition := Some(0), isPlaying := false));
    var u := Emit(t, PlayBackEnd);
    var v := SetNativePlayBackListener(u.(isPlaying := true));
    var w := Issue(v, NativeStartPlayer(s.uri));
    var r := Issue(w, NativeStopPlayer);
    assert StopPlayerWithRestartingListener(s) == r;
    assert r.trace == s.trace + [Native(RemoveListener(PlayChannel)), Local(PlayBackEnd), Native(AddListener(PlayChannel)),
                                 Native(NativeStartPlayer(s.uri)), Native(NativeStopPlayer)];
    ReplaySnocAt(s.trace, Native(RemoveListener(PlayChannel)), PlaySession);
    assert Replay(t.trace, PlaySession) == Some(true);
    ReplaySnocAt(t.trace, Local(PlayBackEnd), PlaySession);
    assert Replay(u.trace, PlaySession) == Some(true);
    ReplaySnocAt(u.trace, Native(AddListener(PlayChannel)), PlaySession);
    assert Replay(v.trace, PlaySession) == Some(true);
    ReplaySnocAt(v.trace, Native(NativeStartPlayer(s.uri)), PlaySession);
    assert Replay(w.trace, PlaySession) == None;
    ReplaySnocAt(w.trace, Native(NativeStopPlayer), PlaySession);
    assert Replay(r.trace, PlaySession) == None;
  }

  /** After `stopPlayer`, a late playback event from the native side produces nothing. */
  lemma LatePlaybackAfterStopDropped(s: State, pos: nat, dur: nat)
    ensures Apply(Apply(s, StopPlayer), PlaybackProgress(pos, dur)) == Apply(s, StopPlayer)
    ensures Apply(Apply(s, PausePlayer), PlaybackProgress(pos, dur)) == Apply(s, PausePlayer)
  {
  }

  /** Once not playing, no sequence of playback events has any effect. */
  lemma {:induction false} PlaybackEventsIgnoredWhenStopped(s: State, events: seq<Action>)
    requires !s.isPlaying
    requires forall i :: 0 <= i < |events| ==> events[i].PlaybackProgress?
    ensures Run(s, events) == s
    decreases |events|
  {
    if events != [] {
      var e := events[0];
      assert e.PlaybackProgress?;
      StalePlaybackDropped(s, e.currentPosition, e.duration);
      assert forall i :: 0 <= i < |events[1..]| ==> events[1..][i].PlaybackProgress? by {
        forall i | 0 <= i < |events[1..]| ensures events[1..][i].PlaybackProgress? {
          assert events[1..][i] == events[i + 1];
        }
      }
      PlaybackEventsIgnoredWhenStopped(s, events[1..]);
    }
  }
}
