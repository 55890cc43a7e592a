/**
  Recording: `CameraModel` guards the movie file output with its
  `isRecording` flag and hands finished files to the store; `CameraView`
  runs the three-second countdown that starts a five-second recording.

  Time is not modelled. A repeating one-second timer firing is the event
  `Tick(t)` for the t-th timer the view has scheduled, and the stop queued
  five seconds after a recording starts is the event `DelayedStop()`. The
  capture session and its movie output are reduced to what the model's
  contracts speak of: whether the session runs, the files the output was told
  to write, and how often it was told to stop.
 */
module Camera {
  import opened Wrappers
  import opened Paths
  import opened VideoStore

  class CameraModel {
    var isRecording: bool
    var sessionRunning: bool
    /** Every file the movie output was told to write, in order. */
    var recordings: seq<Url>
    /** How often the movie output was told to stop. */
    var stopRequests: nat
    /** `VideoManager.shared`; its file system is also `FileManager.default`. */
    const store: VideoManager

    constructor (store: VideoManager)
      ensures this.store == store
      ensures !isRecording && !sessionRunning && recordings == [] && stopRequests == 0
    {
      this.store := store;
      isRecording := false;
      sessionRunning := false;
      recordings := [];
      stopRequests := 0;
    }

    /** The session starts running, which ends a configuration that attached the camera input. */
    method SessionStarted()
      modifies this
      ensures sessionRunning
      ensures isRecording == old(isRecording) && recordings == old(recordings) && stopRequests == old(stopRequests)
    {
      sessionRunning := true;
    }

    /**
      Ignored while recording. Otherwise raises the flag, removes any stale
      `temp.mov` and starts exactly one write to it.
     */
    method StartRecording()
      requires store.fs.Valid()
      modifies this, store.fs
      ensures store.fs.Valid()
      ensures old(isRecording) ==> unchanged(this) && unchanged(store.fs)
      ensures !old(isRecording) ==> isRecording && recordings == old(recordings) + [TempUrl]
      ensures !old(isRecording) ==> !store.fs.Exists(TempUrl) && store.fs.temp == old(store.fs.temp) - {TempUrl.name}
      ensures stopRequests == old(stopRequests) && sessionRunning == old(sessionRunning)
      ensures store.fs.videos == old(store.fs.videos) && store.fs.order == old(store.fs.order)
      ensures store.fs.videosDirExists == old(store.fs.videosDirExists) && store.fs.writable == old(store.fs.writable)
    {
      if isRecording {
        return;
      }
      isRecording := true;
      var _ := store.fs.RemoveItem(TempUrl);
      recordings := recordings + [TempUrl];
    }

    /** Ignored while not recording. Otherwise tells the output to stop, once, and lowers the flag at once. */
    method StopRecording()
      modifies this
      ensures !isRecording
      ensures !old(isRecording) ==> unchanged(this)
      ensures old(isRecording) ==> stopRequests == old(stopRequests) + 1
      ensures recordings == old(recordings) && sessionRunning == old(sessionRunning)
    {
      if !isRecording {
        return;
      }
      stopRequests := stopRequests + 1;
      isRecording := false;
    }

    /** Stops the session if it runs; a second call changes nothing. */
    method StopSession()
      modifies this
      ensures !sessionRunning
      ensures !old(sessionRunning) ==> unchanged(this)
      ensures isRecording == old(isRecording) && recordings == old(recordings) && stopRequests == old(stopRequests)
    {
      if sessionRunning {
        sessionRunning := false;
      }
    }

    /**
      The output's completion callback. With an error nothing is saved;
      without one the file is handed to `saveVideo` once, whose result the
      source only logs and is returned here.
     */
    method FileOutput(outputFileURL: Url, failed: bool, stamp: string) returns (saved: Option<Url>)
      requires store.fs.Valid()
      modifies store.fs
      ensures store.fs.Valid()
      ensures failed ==> saved == None && unchanged(store.fs)
      ensures !failed ==>
        (saved.Some? <==> old(store.fs.Exists(outputFileURL)) && VideoName(stamp) !in old(store.fs.videos) && old(store.fs.writable))
      ensures saved.Some? ==> saved.value == Url(Videos, VideoName(stamp)) && saved.value in store.fs.Listed()
      ensures saved.Some? ==> store.fs.videos == old(store.fs.videos)[VideoName(stamp) := old(store.fs.Entry(outputFileURL))]
      ensures saved.Some? ==> store.fs.order == old(store.fs.order) + [VideoName(stamp)]
      ensures saved.None? ==> store.fs.videos == old(store.fs.videos) && store.fs.order == old(store.fs.order)
      ensures store.fs.videosDirExists == (old(store.fs.videosDirExists) || (!failed && store.fs.writable))
      ensures store.fs.temp == old(store.fs.temp) && store.fs.writable == old(store.fs.writable)
    {
      if failed {
        return None;
      }
      saved := store.SaveVideo(outputFileURL, stamp);
    }
  }

  /** The number of timers not yet invalidated. */
  function Live(timers: seq<bool>): (n: nat)
    ensures n <= |timers|
  {
    if timers == [] then 0
    else Live(timers[..|timers| - 1]) + (if timers[|timers| - 1] then 1 else 0)
  }

  lemma {:induction false} LiveAppend(timers: seq<bool>, b: bool)
    ensures Live(timers + [b]) == Live(timers) + (if b then 1 else 0)
  {
    assert (timers + [b])[..|timers|] == timers;
  }

  /** Invalidating a live timer leaves one live timer fewer. */
  lemma {:induction false} LiveInvalidate(timers: seq<bool>, t: nat)
    requires t < |timers| && timers[t]
    ensures Live(timers[t := false]) == Live(timers) - 1
  {
    var n := |timers| - 1;
    var after := timers[t := false];
    if t == n {
      assert after[..n] == timers[..n];
    } else {
      LiveInvalidate(timers[..n], t);
      assert after[..n] == timers[..n][t := false];
    }
  }

  class CameraView {
    var countdown: int
    var isCountingDown: bool
    /** The repeating timers scheduled so far, true until invalidated. */
    var timers: seq<bool>
    /** Delayed `stopRecording()` calls queued and not yet run. */
    var pendingStops: nat
    const camera: CameraModel

    constructor (camera: CameraModel)
      ensures this.camera == camera
      ensures countdown == 3 && !isCountingDown && timers == [] && pendingStops == 0
      ensures Disciplined()
    {
      this.camera := camera;
      countdown := 3;
      isCountingDown := false;
      timers := [];
      pendingStops := 0;
    }

    /**
      Ignored while recording; otherwise shows the counter from 3 and
      schedules a new repeating timer. A countdown already running is not a
      reason to refuse: its timer keeps running beside the new one.
     */
    method StartCountdown()
      modifies this
      ensures camera.isRecording ==> unchanged(this)
      ensures !camera.isRecording ==> isCountingDown && countdown == 3 && timers == old(timers) + [true]
      ensures pendingStops == old(pendingStops)
    {
      if camera.isRecording {
        return;
      }
      isCountingDown := true;
      countdown := 3;
      timers := timers + [true];
    }

    /**
      Timer `t` fires; an invalidated timer does not. The counter drops by
      one; the tick that brings it to 0 invalidates that timer, hides the
      counter, starts recording and queues one delayed stop.
     */
    method Tick(t: nat)
      requires camera.store.fs.Valid()
      modifies this, camera, camera.store.fs
      ensures camera.store.fs.Valid()
      ensures !(t < |old(timers)| && old(timers)[t]) ==>
        unchanged(this) && unchanged(camera) && unchanged(camera.store.fs)
      ensures t < |old(timers)| && old(timers)[t] ==> countdown == old(countdown) - 1
      ensures t < |old(timers)| && old(timers)[t] && countdown != 0 ==>
        timers == old(timers) && isCountingDown == old(isCountingDown) && pendingStops == old(pendingStops)
        && unchanged(camera) && unchanged(camera.store.fs)
      ensures t < |old(timers)| && old(timers)[t] && countdown == 0 ==>
        timers == old(timers)[t := false] && !isCountingDown && pendingStops == old(pendingStops) + 1
      ensures t < |old(timers)| && old(timers)[t] && countdown == 0 && !old(camera.isRecording) ==>
        camera.isRecording && camera.recordings == old(camera.recordings) + [TempUrl]
        && camera.store.fs.temp == old(camera.store.fs.temp) - {TempUrl.name}
      ensures old(camera.isRecording) ==> unchanged(camera) && unchanged(camera.store.fs)
      ensures camera.stopRequests == old(camera.stopRequests) && camera.sessionRunning == old(camera.sessionRunning)
      ensures camera.store.fs.videos == old(camera.store.fs.videos) && camera.store.fs.order == old(camera.store.fs.order)
      ensures camera.store.fs.videosDirExists == old(camera.store.fs.videosDirExists)
      ensures camera.store.fs.writable == old(camera.store.fs.writable)
      ensures old(Disciplined()) ==> Disciplined()
    {
      if t >= |timers| || !timers[t] {
        return;
      }
      countdown := countdown - 1;
      if countdown == 0 {
        LiveInvalidate(timers, t);
        timers := timers[t := false];
        isCountingDown := false;
        camera.StartRecording();
        pendingStops := pendingStops + 1;
      }
    }

    /** A queued stop comes due and calls `stopRecording()`. */
    method DelayedStop()
      modifies this, camera
      ensures old(pendingStops) == 0 ==> unchanged(this) && unchanged(camera)
      ensures old(pendingStops) > 0 ==> pendingStops == old(pendingStops) - 1 && !camera.isRecording
      ensures old(pendingStops) > 0 && old(camera.isRecording) ==> camera.stopRequests == old(camera.stopRequests) + 1
      ensures old(pendingStops) > 0 && !old(camera.isRecording) ==> unchanged(camera)
      ensures countdown == old(countdown) && isCountingDown == old(isCountingDown) && timers == old(timers)
      ensures camera.recordings == old(camera.recordings) && camera.sessionRunning == old(camera.sessionRunning)
      ensures old(Disciplined()) ==> Disciplined()
    {
      if pendingStops > 0 {
        pendingStops := pendingStops - 1;
        camera.StopRecording();
      }
    }

    /**
      At most one timer runs, exactly while the counter shows, and the
      counter then reads 1, 2 or 3.
     */
    ghost predicate Disciplined()
      reads this
    {
      Live(timers) <= 1
      && (isCountingDown <==> Live(timers) == 1)
      && (isCountingDown ==> 1 <= countdown <= 3)
    }

    /** `startCountdown` as evidently intended: also ignored while a countdown runs. */
    method StartCountdownGuarded()
      requires Disciplined()
      modifies this
      ensures Disciplined()
      ensures camera.isRecording || old(isCountingDown) ==> unchanged(this)
      ensures !camera.isRecording && !old(isCountingDown) ==>
        isCountingDown && countdown == 3 && timers == old(timers) + [true]
      ensures pendingStops == old(pendingStops)
    {
      if camera.isRecording || isCountingDown {
        return;
      }
      LiveAppend(timers, true);
      isCountingDown := true;
      countdown := 3;
      timers := timers + [true];
    }
  }

  /**
    The app as launched on a writable volume whose temporary directory is
    `temp`: no `Videos/` yet, the camera idle, the counter at 3.
   */
  method Launch(temp: Sizes) returns (view: CameraView)
    ensures fresh(view) && fresh(view.camera) && fresh(view.camera.store.fs)
    ensures view.countdown == 3 && !view.isCountingDown && view.timers == [] && view.pendingStops == 0
    ensures !view.camera.isRecording && view.camera.recordings == [] && view.camera.stopRequests == 0
    ensures view.camera.store.fs.Valid() && view.camera.store.fs.writable
    ensures view.camera.store.fs.videos == map[] && view.camera.store.fs.temp == temp
  {
    var fs := new FileSystem(true, temp);
    var store := new VideoManager(fs);
    var camera := new CameraModel(store);
    view := new CameraView(camera);
  }

  /**
    One tap, three ticks, the delayed stop: one recording is started and
    stopped, and no timer is left running.
   */
  method SingleCountdown() returns (started: nat, stopped: nat, recording: bool, running: nat)
    ensures started == 1 && stopped == 1 && !recording && running == 0
  {
    var view := Launch(map[]);
    var camera := view.camera;
    view.StartCountdown();
    view.Tick(0);
    view.Tick(0);
    view.Tick(0);
    assert camera.isRecording && view.pendingStops == 1;
    view.DelayedStop();
    LiveAppend([], true);
    LiveInvalidate([true], 0);
    started, stopped, recording, running := |camera.recordings|, camera.stopRequests, camera.isRecording, Live(view.timers);
  }

  /**
    Tap, one tick, a second tap, then ticks of both timers until the first
    reaches zero and recording starts: the second timer is left running
    with the counter at -1.
   */
  method TapTwiceThenRecord() returns (view: CameraView)
    ensures fresh(view) && fresh(view.camera) && fresh(view.camera.store.fs)
    ensures view.camera.store.fs.Valid()
    ensures view.timers == [false, true] && view.countdown == -1 && !view.isCountingDown
    ensures |view.camera.recordings| == 1
  {
    view := Launch(map[]);
    var camera := view.camera;
    view.StartCountdown();
    view.Tick(0);
    assert view.countdown == 2 && view.timers == [true] && !camera.isRecording;
    view.StartCountdown();
    assert view.countdown == 3 && view.timers == [true, true];
    view.Tick(0);
    view.Tick(1);
    assert view.countdown == 1 && view.timers == [true, true] && !camera.isRecording;
    view.Tick(0);
    assert view.countdown == 0 && view.timers == [false, true] && |camera.recordings| == 1;
    view.Tick(1);
  }

  /**
    A second tap during the countdown: one recording starts, but the second
    timer is never invalidated. Its counter has gone below zero, and any
    number `extra` of further ticks leaves it running, counting down from
    -1, with no second recording.
   */
  method DoubleTapDuringCountdown(extra: nat) returns (started: nat, running: nat, counter: int, counting: bool)
    ensures started == 1 && running == 1 && counter == -1 - extra && !counting
  {
    var view := TapTwiceThenRecord();
    var camera := view.camera;
    for k := 0 to extra
      invariant camera.store.fs.Valid()
      invariant view.timers == [false, true] && view.countdown == -1 - k && !view.isCountingDown
      invariant |camera.recordings| == 1
    {
      view.Tick(1);
    }
    assert view.timers == [false] + [true];
    assert [false] == [] + [false];
    LiveAppend([], false);
    LiveAppend([false], true);
    started, running, counter, counting := |camera.recordings|, Live(view.timers), view.countdown, view.isCountingDown;
  }

  /**
    The same two taps with the guarded start: the second is ignored, and
    after the recording starts no timer runs.
   */
  method DoubleTapGuarded() returns (started: nat, running: nat, counting: bool)
    ensures started == 1 && running == 0 && !counting
  {
    var view := Launch(map[]);
    var camera := view.camera;
    view.StartCountdownGuarded();
    view.Tick(0);
    view.StartCountdownGuarded();
    view.Tick(0);
    view.Tick(0);
    started, running, counting := |camera.recordings|, Live(view.timers), view.isCountingDown;
  }

  /**
    The whole capture-and-persist path: record, let the output write
    `temp.mov`, stop, and complete without error; the store then lists
    exactly the new recording.
   */
  method RecordAndSave(stamp: string, size: nat) returns (listed: seq<Url>)
    ensures listed == [Url(Videos, VideoName(stamp))]
  {
    var view := Launch(map[]);
    var camera := view.camera;
    var store, fs := camera.store, camera.store.fs;
    view.StartCountdown();
    view.Tick(0);
    view.Tick(0);
    view.Tick(0);
    assert camera.isRecording && fs.Valid() && fs.videos == map[] && fs.writable;
    fs.temp := fs.temp[TempUrl.name := Some(size)];
    view.DelayedStop();
    var saved := camera.FileOutput(TempUrl, false, stamp);
    assert saved.Some?;
    listed := store.ListVideos();
    assert Url(Videos, VideoName(stamp)) in listed;
    assert |listed| == 1;
  }
}
