/**
 * Class `AudioRecorderPlayer` of index.js: its fields are updated in place by
 * the commands and by the two native relay callbacks. Every method is proved
 * to leave the object in the state the matching step function of module
 * Session computes from the old state, and to keep Session.Valid.
 */
module Recorder {
  import opened Wrappers
  import Session

  class AudioRecorderPlayer {
    const uri: string
    var isRecording: bool
    var isPlaying: bool
    var currentPosition: Option<nat>
    var duration: Option<nat>
    var recorderSubscription: Option<Session.Subscription>
    var playerSubscription: Option<Session.Subscription>

    /** The calls made across the native boundary and the events emitted to the application, in order. */
    ghost var trace: seq<Session.Event>

    ghost function Snapshot(): Session.State
      reads this
    {
      Session.State(uri, isRecording, isPlaying, currentPosition, duration,
                    recorderSubscription, playerSubscription, trace)
    }

    ghost predicate Valid()
      reads this
    {
      Session.Valid(Snapshot())
    }

    /** `constructor({ uri } = {})`. */
    constructor (option: Option<string>)
      ensures Snapshot() == Session.Init(option) && Valid()
    {
      uri := Session.ConfiguredUri(option);
      isRecording, isPlaying := false, false;
      currentPosition, duration := None, None;
      recorderSubscription, playerSubscription := None, None;
      trace := [];
      Session.InitValid(option);
    }

    /** The `isRecording` getter. */
    function IsRecording(): bool
      reads this
    {
      isRecording
    }

    /** The `isPlaying` getter. */
    function IsPlaying(): bool
      reads this
    {
      isPlaying
    }

    method SetNativeRecordBackListener()
      modifies this
      ensures Snapshot() == Session.SetNativeRecordBackListener(old(Snapshot()))
    {
      trace := trace + [Session.Native(Session.AddListener(Session.RecordChannel))];
      recorderSubscription := Some(Session.Subscription(Session.RecordChannel));
    }

    method UnsetNativeRecordBackListener()
      modifies this
      ensures Snapshot() == Session.UnsetNativeRecordBackListener(old(Snapshot()))
    {
      if recorderSubscription.Some? {
        trace := trace + [Session.Native(Session.RemoveListener(recorderSubscription.value.channel))];
        recorderSubscription := None;
      }
    }

    method SetNativePlayBackListener()
      modifies this
      ensures Snapshot() == Session.SetNativePlayBackListener(old(Snapshot()))
    {
      trace := trace + [Session.Native(Session.AddListener(Session.PlayChannel))];
      playerSubscription := Some(Session.Subscription(Session.PlayChannel));
    }

    method UnsetNativePlayBackListener()
      modifies this
      ensures Snapshot() == Session.UnsetNativePlayBackListener(old(Snapshot()))
    {
      if playerSubscription.Some? {
        trace := trace + [Session.Native(Session.RemoveListener(playerSubscription.value.channel))];
        playerSubscription := None;
      }
    }

    method StartRecorder()
      requires Valid()
      modifies this
      ensures Valid() && Snapshot() == Session.Apply(old(Snapshot()), Session.StartRecorder)
    {
      ghost var s0 := Snapshot();
      if !isRecording {
        isRecording := true;
        SetNativeRecordBackListener();
        trace := trace + [Session.Native(Session.NativeStartRecorder(uri))];
      }
      assert Snapshot() == Session.StartRecorderStep(s0);
      Session.StartRecorderPreservesValid(s0);
    }

    method StopRecorder()
      requires Valid()
      modifies this
      ensures Valid() && Snapshot() == Session.Apply(old(Snapshot()), Session.StopRecorder)
    {
      ghost var s0 := Snapshot();
      if isRecording {
        isRecording := false;
        UnsetNativeRecordBackListener();
        trace := trace + [Session.Native(Session.NativeStopRecorder)];
      }
      assert Snapshot() == Session.StopRecorderStep(s0);
      Session.StopRecorderPreservesValid(s0);
    }

    method ResumePlayer()
      requires Valid()
      modifies this
      ensures Valid() && Snapshot() == Session.Apply(old(Snapshot()), Session.ResumePlayer)
    {
      ghost var s0 := Snapshot();
      if !isPlaying {
        isPlaying := true;
        SetNativePlayBackListener();
        trace := trace + [Session.Native(Session.NativeResumePlayer)];
      }
      assert Snapshot() == Session.ResumePlayerStep(s0);
      Session.ResumePlayerPreservesValid(s0);
    }

    method StartPlayer()
      requires Valid()
      modifies this
      ensures Valid() && Snapshot() == Session.Apply(old(Snapshot()), Session.StartPlayer)
    {
      ghost var s0 := Snapshot();
      if !isPlaying {
        isPlaying := true;
        SetNativePlayBackListener();
        trace := trace + [Session.Native(Session.NativeStartPlayer(uri))];
      }
      assert Snapshot() == Session.StartPlayerStep(s0);
      Session.StartPlayerPreservesValid(s0);
    }

    method StopPlayer()
      requires Valid()
      modifies this
      ensures Valid() && Snapshot() == Session.Apply(old(Snapshot()), Session.StopPlayer)
    {
      ghost var s0 := Snapshot();
      if isPlaying {
        currentPosition := Some(0);
        isPlaying := false;
        UnsetNativePlayBackListener();
        trace := trace + [Session.Local(Session.PlayBackEnd)];
        trace := trace + [Session.Native(Session.NativeStopPlayer)];
      }
      assert Snapshot() == Session.StopPlayerStep(s0);
      Session.StopPlayerPreservesValid(s0);
    }

    method PausePlayer()
      requires Valid()
      modifies this
      ensures Valid() && Snapshot() == Session.Apply(old(Snapshot()), Session.PausePlayer)
    {
      ghost var s0 := Snapshot();
      if isPlaying {
        isPlaying := false;
        UnsetNativePlayBackListener();
        trace := trace + [Session.Native(Session.NativeStopPlayer)];
      }
      assert Snapshot() == Session.PausePlayerStep(s0);
      Session.PausePlayerPreservesValid(s0);
    }

    method SeekToPlayer(time: real, platform: Session.Platform)
      requires Valid()
      modifies this
      ensures Valid() && Snapshot() == Session.Apply(old(Snapshot()), Session.SeekToPlayer(time, platform))
    {
      ghost var s0 := Snapshot();
      var t := if platform == Session.Ios then time / 1000.0 else time;
      trace := trace + [Session.Native(Session.NativeSeekToPlayer(t))];
      assert Snapshot() == Session.SeekToPlayerStep(s0, time, platform);
      Session.ForwardPreservesValid(s0, Session.NativeSeekToPlayer(t));
    }

    method SetVolume(volume: real)
      requires Valid()
      modifies this
      ensures Valid() && Snapshot() == Session.Apply(old(Snapshot()), Session.SetVolume(volume))
    {
      if volume < 0.0 || volume > 1.0 {
        return;
      }
      ghost var s0 := Snapshot();
      trace := trace + [Session.Native(Session.NativeSetVolume(volume))];
      Session.ForwardPreservesValid(s0, Session.NativeSetVolume(volume));
    }

    method SetSubscriptionDuration(sec: real)
      requires Valid()
      modifies this
      ensures Valid() && Snapshot() == Session.Apply(old(Snapshot()), Session.SetSubscriptionDuration(sec))
    {
      ghost var s0 := Snapshot();
      trace := trace + [Session.Native(Session.NativeSetSubscriptionDuration(sec))];
      Session.ForwardPreservesValid(s0, Session.NativeSetSubscriptionDuration(sec));
    }

    /**
     * Delivery of a native `rn-recordback` event: it reaches the relay only
     * through the installed subscription, and the relay drops it unless recording.
     */
    method OnNativeRecord(payload: Session.RecordPayload)
      requires Valid()
      modifies this
      ensures Valid() && Snapshot() == Session.Apply(old(Snapshot()), Session.RecordProgress(payload))
    {
      if recorderSubscription.None? {
        return;
      }
      if !IsRecording() {
        return;
      }
      trace := trace + [Session.Local(Session.RecordBack(payload))];
    }

    /**
     * Delivery of a native `rn-playback` event: dropped unless playing; otherwise
     * the position and duration are stored, `playback` is emitted, and the
     * player is stopped when the position has reached the duration.
     */
    method OnNativePlayback(pos: nat, dur: nat)
      requires Valid()
      modifies this
      ensures Valid() && Snapshot() == Session.Apply(old(Snapshot()), Session.PlaybackProgress(pos, dur))
    {
      if playerSubscription.None? {
        return;
      }
      if !IsPlaying() {
        return;
      }
      currentPosition := Some(pos);
      duration := Some(dur);
      trace := trace + [Session.Local(Session.PlayBack(pos, dur))];
      if pos == dur {
        StopPlayer();
      }
    }
  }
}
